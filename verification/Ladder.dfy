/** The flag fields that size the noise sources, and how a recovery raises them. */
module Ladder {
  import opened Words

  const MAX_MEM_FIELD: nat := 20
  const MEM_OFFSET: nat := 9
  const DEFAULT_MEM_BITS: nat := 18
  const MAX_HASH_FIELD: nat := 8

  /** The flags word: two multi-bit fields and the single bits that decide something here. */
  datatype Flags = Flags(
    memField: nat,
    hashField: nat,
    disableMemory: bool,
    forceTimer: bool,
    disableTimer: bool,
    forceFips: bool,
    ntg1: bool,
    cacheAll: bool,
    secureMem: bool)

  /** What the platform reports: the rounded cache size as a power of two, 0 if unknown. */
  datatype Cache = Cache(bits: nat, allBits: nat, autoMax: nat)

  function Min(a: nat, b: nat): nat {
    if a < b then a else b
  }

  /** The size derived from the cache, as a field value. */
  function AutoField(cacheAll: bool, cache: Cache): nat {
    var log := if cacheAll then cache.allBits else cache.bits;
    var bits := if log == 0 then DEFAULT_MEM_BITS else if cacheAll then log else log + 2;
    Min(if bits > MEM_OFFSET then bits - MEM_OFFSET else 0, cache.autoMax)
  }

  /** `jent_update_memsize` on the field it replaces. */
  function UpdateMem(field: nat, inc: nat, cacheAll: bool, cache: Cache): nat {
    Min(if field == 0 then AutoField(cacheAll, cache) else field + inc, MAX_MEM_FIELD)
  }

  /** `jent_memsize` */
  function MemSize(field: nat): nat {
    Pow2(if field == 0 then DEFAULT_MEM_BITS else Min(field, MAX_MEM_FIELD) + MEM_OFFSET)
  }

  /** `jent_update_hashloop` on the field it replaces, the default loop count being one. */
  function UpdateHash(field: nat, inc: nat): nat {
    Min((if field == 0 && inc > 0 then 1 else field) + inc, MAX_HASH_FIELD)
  }

  /** `jent_hashloop_cnt` */
  function HashLoops(field: nat): nat {
    if field == 0 then 1 else Pow2(Min(field, MAX_HASH_FIELD) - 1)
  }

  lemma Pow2Step(n: nat)
    ensures Pow2(n + 1) == 2 * Pow2(n)
  {}

  lemma Pow2Values()
    ensures Pow2(0) == 1 && Pow2(7) == 128 && Pow2(18) == 0x4_0000 && Pow2(29) == 0x2000_0000
  {
    assert Pow2(5) == 32;
    assert Pow2(10) == 1024;
    assert Pow2(15) == 0x8000;
    assert Pow2(20) == 0x10_0000;
    assert Pow2(25) == 0x200_0000;
  }

  lemma {:induction false} Pow2Grows(m: nat, n: nat)
    requires m <= n
    ensures Pow2(m) <= Pow2(n)
  {
    if m < n {
      Pow2Grows(m, n - 1);
    }
  }

  /** The least and the greatest size a caller can name, and the steps between them. */
  lemma FieldSizes(field: nat)
    ensures MemSize(0) == 0x4_0000 && MemSize(1) == 1024 && MemSize(20) == 0x2000_0000
    ensures 1 <= field < 20 ==> MemSize(field + 1) == 2 * MemSize(field)
    ensures HashLoops(0) == HashLoops(1) == 1 && HashLoops(8) == 128
    ensures 1 <= field < 8 ==> HashLoops(field + 1) == 2 * HashLoops(field)
    ensures MemSize(20 + field) == MemSize(20) && HashLoops(8 + field) == HashLoops(8)
  {
    SmallPowers(10);
    Pow2Values();
    assert Pow2(10) == 1024;
    hide Pow2;
    Pow2Step(field + 9);
    if field > 0 {
      Pow2Step(field - 1);
    }
  }

  /** One step up doubles the hash loops, up to 128. */
  lemma HashLoopsDouble(field: nat)
    ensures HashLoops(UpdateHash(field, 1)) == Min(2 * HashLoops(field), 128)
    ensures HashLoops(UpdateHash(field, 0)) == HashLoops(field)
  {
    hide Pow2;
    Pow2Values();
    Pow2Step(0);
    if 0 < field < MAX_HASH_FIELD {
      Pow2Step(field - 1);
      Pow2Grows(field, 7);
    }
  }

  /** A memory field as an allocation leaves it: no size is left to be derived. */
  ghost predicate Normal(field: nat, cacheAll: bool, cache: Cache) {
    field <= MAX_MEM_FIELD && (field == 0 ==> AutoField(cacheAll, cache) == 0)
  }

  /**
   A step up doubles the memory, up to 512 MB, unless the cache gave the default size;
   normalizing a size again does not change it.
   */
  lemma MemSizeDoubles(field: nat, cacheAll: bool, cache: Cache)
    requires Normal(field, cacheAll, cache)
    ensures MemSize(field) <= 0x2000_0000
    ensures UpdateMem(field, 0, cacheAll, cache) == field
    ensures Normal(UpdateMem(field, 1, cacheAll, cache), cacheAll, cache)
    ensures MemSize(UpdateMem(field, 1, cacheAll, cache))
         == if field == 0 then MemSize(field) else Min(2 * MemSize(field), 0x2000_0000)
  {
    hide Pow2;
    hide AutoField;
    Pow2Values();
    if field > 0 {
      Pow2Grows(field + MEM_OFFSET, 29);
      Pow2Step(field + MEM_OFFSET);
      if field < MAX_MEM_FIELD {
        Pow2Grows(field + MEM_OFFSET + 1, 29);
      }
    }
  }

  lemma Pow2Min(m: nat, n: nat)
    ensures Pow2(Min(m, n)) == Min(Pow2(m), Pow2(n))
  {
    hide Pow2;
    Pow2Grows(Min(m, n), m);
    Pow2Grows(Min(m, n), n);
  }

  /** The working set the cache asks for: four times its first level, or the whole of it. */
  function Wanted(cacheAll: bool, cache: Cache): nat {
    if cacheAll then (if cache.allBits == 0 then 0x4_0000 else Pow2(cache.allBits))
    else (if cache.bits == 0 then 0x4_0000 else 4 * Pow2(cache.bits))
  }

  /**
   Left to itself, the memory is what the cache asks for, or 256 KB if the cache is unknown, under
   the cap of the platform and that of 512 MB. A cache too small for any field, or a cap of none,
   gives 256 KB as well.
   */
  lemma AutoSize(cacheAll: bool, cache: Cache)
    ensures MemSize(UpdateMem(0, 0, cacheAll, cache))
         == if Wanted(cacheAll, cache) <= 512 || cache.autoMax == 0 then 0x4_0000
            else Min(Min(Wanted(cacheAll, cache), Pow2(cache.autoMax + 9)), 0x2000_0000)
  {
    hide Pow2;
    Pow2Values();
    var log := if cacheAll then cache.allBits else cache.bits;
    var bits := if log == 0 then 18 else if cacheAll then log else log + 2;
    Pow2Step(log);
    Pow2Step(log + 1);
    assert Wanted(cacheAll, cache) == Pow2(bits);
    SmallPowers(bits);
    if bits > 9 && cache.autoMax > 0 {
      Pow2Min(bits, cache.autoMax + 9);
      Pow2Min(Min(bits, cache.autoMax + 9), 29);
    }
  }

  lemma SmallPowers(n: nat)
    ensures Pow2(n) <= 512 <==> n <= 9
  {
    assert Pow2(5) == 32;
    assert Pow2(9) == 512 && Pow2(10) == 1024;
    if n <= 9 {
      Pow2Grows(n, 9);
    } else {
      Pow2Grows(10, n);
    }
  }
}
