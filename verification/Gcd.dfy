/** The startup's analysis of the timer granularity: Euclid, the fold over the deltas, the verdict. */
module GcdAnalysis {
  import opened Words
  import Windows

  ghost predicate Times(k: nat, d: nat, a: nat) {
    a == k * d
  }

  ghost predicate Divides(d: nat, a: nat) {
    exists k: nat :: Times(k, d, a)
  }

  /** Euclid's recursion. */
  function Gcd(a: nat, b: nat): nat
    decreases b
  {
    if b == 0 then a else Gcd(b, a % b)
  }

  lemma DividesSum(d: nat, a: nat, b: nat)
    requires Divides(d, a) && Divides(d, b)
    ensures Divides(d, a + b) && (a >= b ==> Divides(d, a - b))
  {
    var k: nat, m: nat :| Times(k, d, a) && Times(m, d, b);
    assert Times(k + m, d, a + b);
    if a >= b {
      if k >= m {
        assert Times(k - m, d, a - b);
      } else {
        MulMonotone(k, m, d);
        assert Times(0, d, a - b);
      }
    }
  }

  lemma MulMonotone(k: nat, m: nat, d: nat)
    requires k <= m
    ensures k * d <= m * d
  {}

  lemma DividesMultiple(d: nat, a: nat, q: nat)
    requires Divides(d, a)
    ensures Divides(d, q * a)
  {
    var k: nat :| Times(k, d, a);
    assert q * a == (q * k) * d;
    assert Times(q * k, d, q * a);
  }

  /** The common divisors of two numbers are exactly the divisors of their `Gcd`. */
  lemma {:induction false} GcdIsGreatest(a: nat, b: nat, d: nat)
    ensures Divides(d, Gcd(a, b)) <==> Divides(d, a) && Divides(d, b)
    decreases b
  {
    if b == 0 {
      assert Times(0, d, 0);
    } else {
      GcdIsGreatest(b, a % b, d);
      var q := a / b;
      assert a == q * b + a % b;
      if Divides(d, b) {
        DividesMultiple(d, b, q);
        if Divides(d, a % b) {
          DividesSum(d, q * b, a % b);
        }
        if Divides(d, a) {
          DividesSum(d, a, q * b);
        }
      }
    }
  }

  lemma {:induction false} GcdScales(a: nat, b: nat, k: nat)
    requires k > 0
    ensures Gcd(k * a, k * b) == k * Gcd(a, b)
    decreases b
  {
    if b != 0 {
      GcdScales(b, a % b, k);
      ModScales(a, b, k);
    }
  }

  lemma ModScales(a: nat, b: nat, k: nat)
    requires k > 0 && b > 0
    ensures k * b > 0 && (k * a) % (k * b) == k * (a % b) && (k * a) / (k * b) == a / b
  {
    var q, r := a / b, a % b;
    assert k * a == (k * b) * q + k * r;
    MulMonotone(r + 1, b, k);
    assert 0 <= k * r < k * b;
    Windows.ModUnique(k * a, k * b, q, k * r);
    DivUnique(k * a, k * b, q, k * r);
  }

  lemma DivUnique(x: int, m: int, q: int, r: int)
    requires 0 <= r < m && x == m * q + r
    ensures x / m == q
  {
    var d := x / m - q;
    assert m * d == r - x % m;
    Windows.MulAtLeast(m, d);
  }

  // ----- the whole history

  function GcdAll(s: seq<u64>): nat
    requires s != []
  {
    if |s| == 1 then s[0] else Gcd(s[|s| - 1], GcdAll(s[..|s| - 1]))
  }

  lemma {:induction false} GcdAllIsGreatest(s: seq<u64>, d: nat)
    requires s != []
    ensures Divides(d, GcdAll(s)) <==> forall i :: 0 <= i < |s| ==> Divides(d, s[i])
  {
    if |s| > 1 {
      var p := s[..|s| - 1];
      GcdAllIsGreatest(p, d);
      GcdIsGreatest(s[|s| - 1], GcdAll(p), d);
      assert forall i :: 0 <= i < |p| ==> s[i] == p[i];
    }
  }

  function AbsDiff(a: nat, b: nat): nat {
    if a >= b then a - b else b - a
  }

  /** The sum of the absolute differences of neighbours, without a bound. */
  function Variation(s: seq<u64>): nat {
    if |s| <= 1 then 0 else Variation(s[..|s| - 1]) + AbsDiff(s[|s| - 1], s[|s| - 2])
  }

  /** The variation of a history is that of its two parts, and that of two neighbours their distance. */
  lemma {:induction false} VariationSplits(s: seq<u64>, k: nat)
    requires k < |s|
    ensures Variation(s) == Variation(s[..k + 1]) + Variation(s[k..])
    ensures |s| == 2 ==> Variation(s) == if s[0] < s[1] then s[1] - s[0] else s[0] - s[1]
  {
    var n := |s| - 1;
    if k == n {
      assert s[..k + 1] == s;
    } else {
      VariationSplits(s[..n], k);
      assert s[..n][..k + 1] == s[..k + 1] && s[..n][k..] == s[k..][..n - k];
    }
    if |s| == 2 {
      assert Variation(s[..1]) == 0;
    }
  }

  lemma {:induction false} VariationIsDivisible(s: seq<u64>, d: nat)
    requires forall i :: 0 <= i < |s| ==> Divides(d, s[i])
    ensures Divides(d, Variation(s))
  {
    if |s| <= 1 {
      assert Times(0, d, 0);
    } else {
      VariationIsDivisible(s[..|s| - 1], d);
      DividesSum(d, s[|s| - 1], s[|s| - 2]);
      DividesSum(d, s[|s| - 2], s[|s| - 1]);
      DividesSum(d, Variation(s[..|s| - 1]), AbsDiff(s[|s| - 1], s[|s| - 2]));
    }
  }

  /** The gcd the analysis computes divides the sum it computes, unless that wraps. */
  lemma GcdDividesVariation(s: seq<u64>)
    requires s != []
    ensures Divides(GcdAll(s), Variation(s))
  {
    hide GcdAll;
    hide Variation;
    assert Times(1, GcdAll(s), GcdAll(s));
    GcdAllIsGreatest(s, GcdAll(s));
    VariationIsDivisible(s, GcdAll(s));
  }

  // ----- the code

  /** `jent_gcd64` */
  method Gcd64(x: u64, y: u64) returns (g: u64)
    ensures g == Gcd(x, y)
  {
    hide Gcd;
    var a, b := x, y;
    if a < b {
      a, b := b, a;
      GcdSwap(x, y);
    }
    while b != 0
      invariant Gcd(a, b) == Gcd(x, y)
      decreases b
    {
      GcdStep(a, b);
      var r := a % b;
      a := b;
      b := r;
    }
    GcdZero(a);
    g := a;
  }

  lemma GcdStep(a: nat, b: nat)
    requires b > 0
    ensures Gcd(a, b) == Gcd(b, a % b)
  {}

  lemma GcdZero(a: nat)
    ensures Gcd(a, 0) == a
  {}

  lemma GcdSwap(a: nat, b: nat)
    requires a < b
    ensures Gcd(a, b) == Gcd(b, a)
  {
    hide Gcd;
    GcdStep(a, b);
    Windows.ModUnique(a, b, 0, a);
  }

  datatype Analysis = Again | Analyzed(gcd: u64, sum: u64)

  lemma AnalysisStep(s: seq<u64>, d: u64)
    requires s != []
    ensures GcdAll(s + [d]) == Gcd(d, GcdAll(s))
    ensures Variation(s + [d]) == Variation(s) + AbsDiff(d, s[|s| - 1])
  {
    hide Gcd;
    hide AbsDiff;
    assert (s + [d])[..|s|] == s;
  }

  /** `jent_gcd_analyze_internal`, the sum being kept in 64 bits. */
  method Analyze(deltas: seq<u64>) returns (r: Analysis)
    ensures r.Again? <==> deltas == []
    ensures r.Analyzed? ==> r.gcd == GcdAll(deltas) && r.sum == Variation(deltas) % TWO64
  {
    if |deltas| == 0 {
      return Again;
    }
    var running, sum := deltas[0], 0;
    assert deltas[..1] == [deltas[0]];
    assert GcdAll(deltas[..1]) == running && Variation(deltas[..1]) == 0;
    hide Gcd;
    hide GcdAll;
    hide Variation;
    for i := 1 to |deltas|
      invariant running == GcdAll(deltas[..i]) && sum == Variation(deltas[..i]) % TWO64
    {
      var p := deltas[..i];
      assert deltas[..i + 1] == p + [deltas[i]];
      AnalysisStep(p, deltas[i]);
      sum := AddDistance(sum, deltas[i], deltas[i - 1], Variation(p));
      running := Gcd64(deltas[i], running);
    }
    assert deltas[..|deltas|] == deltas;
    r := Analyzed(running, sum);
  }

  method AddDistance(sum: u64, a: u64, b: u64, ghost total: nat) returns (r: u64)
    requires sum == total % TWO64
    ensures r == (total + AbsDiff(a, b)) % TWO64
  {
    AddWraps(total, AbsDiff(a, b));
    if a >= b {
      r := (sum + (a - b)) % TWO64;
    } else {
      r := (sum + (b - a)) % TWO64;
    }
  }

  lemma AddWraps(a: int, b: int)
    ensures (a % TWO64 + b) % TWO64 == (a + b) % TWO64
  {}

  datatype Verdict = Passed(gcd: u64) | NotMonotonic | TooLittleVariation | TooCoarse

  const COARSE: int := 0xffff_ffff / 2

  /** The variation in units of the divisor. */
  function Units(gcd: u64, sum: u64): nat {
    if gcd == 0 then sum else sum / gcd
  }

  /** The comparison of `jent_gcd_verdict`, its product being kept in 64 bits. */
  predicate LowVariation(units: nat, n: nat, osr: nat) {
    (units * osr) % TWO64 < n
  }

  function VerdictOf(deltas: seq<u64>, osr: nat): Verdict {
    if deltas == [] then NotMonotonic else
    GcdFits(deltas);
    var gcd: u64 := GcdAll(deltas);
    if LowVariation(Units(gcd, Variation(deltas) % TWO64), |deltas|, osr) then TooLittleVariation
    else if gcd >= COARSE then TooCoarse
    else Passed(gcd)
  }

  /** `jent_gcd_verdict` */
  method JudgeTimer(deltas: seq<u64>, osr: nat) returns (v: Verdict)
    ensures v == VerdictOf(deltas, osr)
  {
    var a := Analyze(deltas);
    if a.Again? {
      return NotMonotonic;
    }
    var sum := a.sum;
    if a.gcd != 0 {
      sum := sum / a.gcd;
    }
    if (sum * osr) % TWO64 < |deltas| {
      v := TooLittleVariation;
    } else if a.gcd >= COARSE {
      v := TooCoarse;
    } else {
      v := Passed(a.gcd);
    }
  }

  lemma {:induction false} GcdBound(a: nat, b: nat)
    ensures Gcd(a, b) <= (if a > b then a else b) && (Gcd(a, b) == 0 <==> a == 0 && b == 0)
    decreases b
  {
    if b != 0 {
      GcdBound(b, a % b);
    }
  }

  lemma {:induction false} GcdFits(s: seq<u64>)
    requires s != []
    ensures GcdAll(s) < TWO64
    ensures GcdAll(s) == 0 <==> forall i :: 0 <= i < |s| ==> s[i] == 0
  {
    if |s| > 1 {
      var p := s[..|s| - 1];
      GcdFits(p);
      GcdBound(s[|s| - 1], GcdAll(p));
      assert forall i :: 0 <= i < |p| ==> s[i] == p[i];
    }
  }

  lemma {:induction false} ConstantHasNoVariation(s: seq<u64>)
    requires forall i :: 0 <= i < |s| ==> s[i] == 0
    ensures Variation(s) == 0
  {
    if |s| > 1 {
      ConstantHasNoVariation(s[..|s| - 1]);
    }
  }

  /** The divisor of a passing verdict is neither zero nor too wide for the 32-bit store. */
  lemma PassedFitsStore(deltas: seq<u64>, osr: nat)
    requires VerdictOf(deltas, osr).Passed?
    ensures 1 <= VerdictOf(deltas, osr).gcd < TWO31
  {
    GcdFits(deltas);
    if GcdAll(deltas) == 0 {
      ConstantHasNoVariation(deltas);
    }
  }

  // ----- what the verdict means

  /** `n / osr`, rounded up: the units of variation that `n` deltas owe at one bit in `osr` samples. */
  function Owed(n: nat, osr: nat): nat
    requires osr > 0
  {
    (n + osr - 1) / osr
  }

  /** The deltas are not all zero, and vary by the units owed, each as large as their common divisor. */
  predicate Enough(deltas: seq<u64>, osr: nat)
    requires deltas != [] && osr > 0
  {
    (exists i :: 0 <= i < |deltas| && deltas[i] != 0) && Variation(deltas) >= GcdAll(deltas) * Owed(|deltas|, osr)
  }

  lemma OwedIsCeiling(units: nat, n: nat, osr: nat)
    requires osr > 0
    ensures units * osr < n <==> units < Owed(n, osr)
  {
    var c := Owed(n, osr);
    assert n + osr - 1 == osr * c + (n + osr - 1) % osr;
    if units < c {
      MulMonotone(units + 1, c, osr);
    } else {
      MulMonotone(c, units, osr);
    }
  }

  lemma LessInUnits(units: nat, c: nat, g: nat)
    requires g > 0
    ensures units < c <==> units * g < g * c
  {
    if units < c {
      MulMonotone(units + 1, c, g);
    } else {
      MulMonotone(c, units, g);
    }
  }

  /** The division of the sum by the divisor is exact, so the units lose nothing. */
  lemma UnitsAreExact(s: seq<u64>)
    requires s != [] && 0 < GcdAll(s) && Variation(s) < TWO64
    ensures Variation(s) % TWO64 == Variation(s) && Variation(s) / GcdAll(s) * GcdAll(s) == Variation(s)
  {
    hide GcdAll;
    hide Variation;
    GcdDividesVariation(s);
    var k: nat :| Times(k, GcdAll(s), Variation(s));
    DivUnique(Variation(s), GcdAll(s), k, 0);
  }

  /** Too little variation, in the numbers the comparison works on, is too little of it in the deltas. */
  lemma LowIsNotEnough(s: seq<u64>, osr: nat)
    requires s != [] && osr > 0 && Variation(s) < TWO64
    ensures GcdAll(s) < TWO64
    ensures Units(GcdAll(s), Variation(s)) * osr < |s| <==> !Enough(s, osr)
  {
    hide GcdAll;
    hide Variation;
    hide Owed;
    GcdFits(s);
    if GcdAll(s) == 0 {
      ConstantHasNoVariation(s);
    } else {
      var u := Units(GcdAll(s), Variation(s));
      UnitsAreExact(s);
      OwedIsCeiling(u, |s|, osr);
      LessInUnits(u, Owed(|s|, osr), GcdAll(s));
    }
  }

  /**
   The verdict, read off the deltas: none at all, too little variation for the rate, a divisor too
   coarse, or a pass with the divisor. It means that exactly as long as the 64-bit product of units
   and rate does not wrap to a remainder below the number of deltas.
   */
  lemma VerdictMeans(deltas: seq<u64>, osr: nat)
    requires 0 < |deltas| < TWO64 && osr > 0 && Variation(deltas) < TWO64
    ensures GcdAll(deltas) < TWO64
    ensures var product := Units(GcdAll(deltas), Variation(deltas)) * osr;
            (VerdictOf(deltas, osr) == (if !Enough(deltas, osr) then TooLittleVariation
                                        else if GcdAll(deltas) >= 0x7fff_ffff then TooCoarse
                                        else Passed(GcdAll(deltas))))
            <==> product < TWO64 || product % TWO64 >= |deltas|
  {
    hide GcdAll;
    hide Variation;
    hide Enough;
    hide LowVariation;
    hide Units;
    GcdFits(deltas);
    LowIsNotEnough(deltas, osr);
    Windows.ModUnique(Variation(deltas), TWO64, 0, Variation(deltas));
    LowMeans(Units(GcdAll(deltas), Variation(deltas)), |deltas|, osr);
  }

  lemma LowMeans(units: nat, n: nat, osr: nat)
    requires n < TWO64
    ensures (LowVariation(units, n, osr) <==> units * osr < n) <==> units * osr < TWO64 || units * osr % TWO64 >= n
  {
    LowProduct(units * osr, n);
  }

  lemma LowProduct(product: nat, n: nat)
    requires n < TWO64
    ensures (product % TWO64 < n <==> product < n) <==> product < TWO64 || product % TWO64 >= n
  {}

  /** The first verdict is for a history without deltas, and for no other. */
  lemma NoDeltasIsNotMonotonic(deltas: seq<u64>, osr: nat)
    ensures VerdictOf(deltas, osr).NotMonotonic? <==> deltas == []
  {}

  /** Two deltas half the range apart vary more than any other pair, and the product hides it. */
  lemma WrapHidesVariation()
    ensures Enough([1, 0x8000_0000_0000_0001], 2)
    ensures VerdictOf([1, 0x8000_0000_0000_0001], 2) == TooLittleVariation
  {
    var s: seq<u64> := [1, 0x8000_0000_0000_0001];
    assert s[..1] == [1] && s[0] != 0;
    GcdZero(1);
    assert Gcd(s[1], 1) == 1 by {
      GcdStep(s[1], 1);
    }
    assert GcdAll(s) == 1 && Variation(s) == 0x8000_0000_0000_0000;
  }

  /** A timer good enough for one rate is good enough, with the same divisor, for every higher one. */
  lemma HigherRateAlsoPasses(deltas: seq<u64>, low: nat, high: nat)
    requires 0 < low <= high && VerdictOf(deltas, low).Passed? && Variation(deltas) < TWO64
    requires GcdAll(deltas) > 0 && Variation(deltas) / GcdAll(deltas) * high < TWO64
    ensures VerdictOf(deltas, high) == VerdictOf(deltas, low)
  {
    hide GcdAll;
    hide Variation;
    GcdFits(deltas);
    var units := Variation(deltas) / GcdAll(deltas);
    MulMonotone(low, high, units);
    Windows.ModUnique(units * high, TWO64, 0, units * high);
    Windows.ModUnique(units * low, TWO64, 0, units * low);
  }

  // ----- scale invariance

  function Scaled(s: seq<u64>, k: nat): (r: seq<u64>)
    requires forall i :: 0 <= i < |s| ==> k * s[i] < TWO64
    ensures |r| == |s| && forall i :: 0 <= i < |s| ==> r[i] == k * s[i]
  {
    seq(|s|, i requires 0 <= i < |s| => k * s[i])
  }

  lemma {:induction false} AnalysisScales(s: seq<u64>, k: nat)
    requires s != [] && k > 0 && forall i :: 0 <= i < |s| ==> k * s[i] < TWO64
    ensures GcdAll(Scaled(s, k)) == k * GcdAll(s)
    ensures Variation(Scaled(s, k)) == k * Variation(s)
  {
    if |s| > 1 {
      var p := s[..|s| - 1];
      AnalysisScales(p, k);
      assert Scaled(s, k)[..|s| - 1] == Scaled(p, k);
      GcdScales(s[|s| - 1], GcdAll(p), k);
      DiffScales(s[|s| - 1], s[|s| - 2], k);
      assert k * (Variation(p) + AbsDiff(s[|s| - 1], s[|s| - 2])) == k * Variation(p) + k * AbsDiff(s[|s| - 1], s[|s| - 2]);
    }
  }

  lemma DiffScales(a: nat, b: nat, k: nat)
    ensures AbsDiff(k * a, k * b) == k * AbsDiff(a, b)
  {
    if a >= b {
      MulMonotone(b, a, k);
      assert k * (a - b) == k * a - k * b;
    } else {
      MulMonotone(a, b, k);
      assert k * (b - a) == k * b - k * a;
    }
  }

  /**
   A clock that counts in larger steps gets the same verdict on its variation: as long as the
   sum fits 64 bits, scaling every delta changes the divisor and nothing else.
   */
  lemma VariationVerdictScales(s: seq<u64>, k: nat, osr: nat)
    requires s != [] && k > 0 && forall i :: 0 <= i < |s| ==> k * s[i] < TWO64
    requires k * Variation(s) < TWO64
    ensures VerdictOf(Scaled(s, k), osr).TooLittleVariation? <==> VerdictOf(s, osr).TooLittleVariation?
    ensures VerdictOf(Scaled(s, k), osr).Passed? ==> VerdictOf(Scaled(s, k), osr).gcd == k * GcdAll(s)
  {
    var g, v := GcdAll(s), Variation(s);
    hide GcdAll;
    hide Variation;
    hide LowVariation;
    AnalysisScales(s, k);
    GcdFits(s);
    GcdFits(Scaled(s, k));
    if g == 0 {
      ConstantHasNoVariation(s);
    }
    MulMonotone(1, k, v);
    if g > 0 {
      ModScales(v, g, k);
    }
    UnitsScale(g, v, k * g, k * v);
  }

  lemma UnitsScale(g: u64, v: u64, kg: u64, kv: u64)
    requires if g == 0 then v == kg == kv == 0 else kg > 0 && kv / kg == v / g
    ensures Units(kg, kv % TWO64) == Units(g, v % TWO64)
  {}
}
