/** Tests that judge each symbol within consecutive windows of a fixed size. */
module Windows {
  /** How many of the first `n` symbols lie in the window still open. */
  function Open(n: nat, size: nat): (r: nat)
    requires size > 0
    ensures r <= n && r < size
  {
    if n == 0 || Open(n - 1, size) + 1 >= size then 0 else Open(n - 1, size) + 1
  }

  lemma {:induction false} OpenIsRemainder(n: nat, size: nat)
    requires size > 0
    ensures Open(n, size) == n % size
  {
    if n > 0 {
      OpenIsRemainder(n - 1, size);
      ModStep(n - 1, size);
    }
  }

  lemma ModStep(k: nat, size: nat)
    requires size > 0
    ensures (k + 1) % size == if k % size + 1 == size then 0 else k % size + 1
  {
    var q, r := k / size, k % size;
    if r + 1 == size {
      assert k + 1 == size * (q + 1);
      ModUnique(k + 1, size, q + 1, 0);
    } else {
      ModUnique(k + 1, size, q, r + 1);
    }
  }

  lemma ModUnique(x: int, m: int, q: int, r: int)
    requires 0 <= r < m && x == m * q + r
    ensures x % m == r
  {
    var d := x / m - q;
    assert m * d == r - x % m;
    MulAtLeast(m, d);
  }

  lemma MulAtLeast(m: int, d: int)
    requires m >= 0
    ensures d >= 1 ==> m * d >= m
    ensures d <= -1 ==> m * d <= -m
  {}

  /** The window that is still open after `h`. */
  function Current<T>(h: seq<T>, size: nat): seq<T>
    requires size > 0
  {
    h[|h| - Open(|h|, size)..]
  }

  /** The window the `n`-th symbol of `h` is judged in, up to and including that symbol. */
  function Judged<T>(h: seq<T>, n: nat, size: nat): (w: seq<T>)
    requires 0 < n <= |h| && size > 0
    ensures w != [] && w[|w| - 1] == h[n - 1]
  {
    h[n - 1 - Open(n - 1, size)..n]
  }

  /** The windows are the consecutive blocks of `size` symbols. */
  lemma JudgedIsBlock<T>(h: seq<T>, n: nat, size: nat)
    requires 0 < n <= |h| && size > 0
    ensures var start := (n - 1) - (n - 1) % size;
            0 <= start < n && Judged(h, n, size) == h[start..n]
  {
    OpenIsRemainder(n - 1, size);
  }

  /** Every bit raised over `h`, `raises` judging a window by its last symbol. */
  ghost function Bits<T, F>(h: seq<T>, size: nat, raises: seq<T> -> set<F>): set<F>
    requires size > 0
  {
    if h == [] then {}
    else Bits(h[..|h| - 1], size, raises) + raises(Current(h[..|h| - 1], size) + [h[|h| - 1]])
  }

  lemma NothingYet<T, F>(h: seq<T>, size: nat, raises: seq<T> -> set<F>)
    requires size > 0 && h == []
    ensures Current(h, size) == [] && Bits(h, size, raises) == {}
  {}

  lemma CurrentSnoc<T>(h: seq<T>, d: T, size: nat)
    requires size > 0
    ensures Judged(h + [d], |h| + 1, size) == Current(h, size) + [d]
    ensures Current(h + [d], size) == if |Current(h, size)| + 1 >= size then [] else Current(h, size) + [d]
  {}

  ghost predicate RaisedAt<T, F>(h: seq<T>, n: nat, size: nat, raises: seq<T> -> set<F>, f: F)
    requires size > 0
  {
    0 < n <= |h| && f in raises(Judged(h, n, size))
  }

  lemma RaisedAtSnoc<T, F>(h: seq<T>, d: T, n: nat, size: nat, raises: seq<T> -> set<F>, f: F)
    requires size > 0 && n <= |h|
    ensures RaisedAt(h + [d], n, size, raises, f) == RaisedAt(h, n, size, raises, f)
  {
    if n > 0 {
      assert Judged(h + [d], n, size) == Judged(h, n, size);
    }
  }

  /** A bit is raised over a stream exactly when some judged window raises it. */
  lemma {:induction false} BitsIff<T, F>(h: seq<T>, size: nat, raises: seq<T> -> set<F>, f: F)
    requires size > 0
    ensures f in Bits(h, size, raises) <==> exists n :: RaisedAt(h, n, size, raises, f)
  {
    hide Open;
    hide Judged;
    hide Current;
    if h == [] {
      assert forall n :: !RaisedAt(h, n, size, raises, f);
    } else {
      var p, d := h[..|h| - 1], h[|h| - 1];
      assert h == p + [d];
      BitsIff(p, size, raises, f);
      CurrentSnoc(p, d, size);
      forall n: nat | n <= |p| ensures RaisedAt(h, n, size, raises, f) == RaisedAt(p, n, size, raises, f) {
        RaisedAtSnoc(p, d, n, size, raises, f);
      }
      assert f in raises(Current(p, size) + [d]) <==> RaisedAt(h, |h|, size, raises, f);
      if f in Bits(p, size, raises) {
        var n :| RaisedAt(p, n, size, raises, f);
        assert RaisedAt(h, n, size, raises, f);
      }
    }
  }

  lemma {:induction false} OpenBack(n: nat, m: nat, size: nat)
    requires size > 0 && m <= Open(n, size)
    ensures Open(n - Open(n, size) + m, size) == m
    decreases n
  {
    if m < Open(n, size) {
      OpenBack(n - 1, m, size);
    }
  }

  /** A prefix of a judged window is the judged window of an earlier symbol. */
  lemma JudgedPrefix<T>(h: seq<T>, n: nat, m: nat, size: nat) returns (k: nat)
    requires size > 0 && 0 < n <= |h| && 0 < m <= |Judged(h, n, size)|
    ensures 0 < k <= n && Judged(h, k, size) == Judged(h, n, size)[..m]
  {
    k := n - 1 - Open(n - 1, size) + m;
    OpenBack(n - 1, m - 1, size);
  }
}
