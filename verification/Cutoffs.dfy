/** The cutoff tables, indexed by the oversampling rate less one. */
module CutoffTables {
  import LagSpec
  import AdaptiveProportion
  import RepetitionCount

  const MIN_OSR: nat := 3
  const MAX_OSR: nat := 20

  /** One column of the C tables: the entries for one oversampling rate. */
  datatype Row = Row(
    lagLocal: nat, lagLocalPermanent: nat, lagGlobal: nat, lagGlobalPermanent: nat,
    apt: nat, aptPermanent: nat, aptNtg1: nat, aptPermanentNtg1: nat,
    mem: nat, memPermanent: nat, memNtg1: nat, memPermanentNtg1: nat)

  function Entries(osr: nat): Row
    requires 1 <= osr <= MAX_OSR
  {
    match osr
    case 1 => Row(38, 60, 66444, 66877, 325, 355, 17, 26, 107, 108, 4, 5)
    case 2 => Row(75, 119, 93505, 93897, 422, 447, 71, 92, 214, 215, 46, 50)
    case 3 => Row(111, 177, 104762, 105109, 459, 479, 136, 162, 321, 322, 134, 142)
    case 4 => Row(146, 234, 110876, 111189, 477, 494, 191, 221, 428, 429, 255, 265)
    case 5 => Row(181, 291, 114708, 114994, 488, 502, 236, 267, 535, 536, 399, 410)
    case 6 => Row(215, 347, 117331, 117597, 494, 507, 272, 303, 642, 643, 560, 572)
    case 7 => Row(250, 404, 119238, 119487, 499, 510, 301, 332, 749, 750, 733, 746)
    case 8 => Row(284, 460, 120687, 120921, 502, 512, 325, 355, 856, 857, 856, 857)
    case 9 => Row(318, 516, 121824, 122046, 505, 512, 345, 375, 963, 964, 963, 964)
    case 10 => Row(351, 571, 122740, 122952, 507, 512, 361, 390, 1070, 1071, 1070, 1071)
    case 11 => Row(385, 627, 123494, 123697, 508, 512, 375, 404, 1177, 1178, 1177, 1178)
    case 12 => Row(419, 683, 124125, 124319, 509, 512, 388, 415, 1284, 1285, 1284, 1285)
    case 13 => Row(452, 738, 124661, 124848, 510, 512, 398, 425, 1391, 1392, 1391, 1392)
    case 14 => Row(485, 793, 125121, 125302, 511, 512, 407, 433, 1498, 1499, 1498, 1499)
    case 15 => Row(518, 848, 125521, 125696, 512, 512, 415, 440, 1605, 1606, 1605, 1606)
    case 16 => Row(551, 903, 125872, 126042, 512, 512, 422, 447, 1712, 1713, 1712, 1713)
    case 17 => Row(584, 958, 126182, 126347, 512, 512, 429, 453, 1819, 1820, 1819, 1820)
    case 18 => Row(617, 1013, 126458, 126618, 512, 512, 434, 458, 1926, 1927, 1926, 1927)
    case 19 => Row(650, 1068, 126705, 126861, 512, 512, 439, 462, 2033, 2034, 2033, 2034)
    case _ => Row(683, 1123, 126927, 127080, 512, 512, 444, 466, 2140, 2141, 2140, 2141)
  }

  datatype MemCutoffs = MemCutoffs(intermittent: nat, permanent: nat)

  datatype Cutoffs = Cutoffs(
    rct: RepetitionCount.Cutoffs,
    apt: AdaptiveProportion.Cutoffs,
    mem: MemCutoffs,
    lag: LagSpec.Cutoffs)

  /** The table entries for one oversampling rate: `jent_health_init` and the initializers it calls. */
  function For(osr: nat, ntg1: bool): Cutoffs
    requires 1 <= osr <= MAX_OSR
  {
    var row := Entries(osr);
    Cutoffs(
      if ntg1 then RepetitionCount.Cutoffs((30 * osr + 7) / 8, (60 * osr + 7) / 8)
      else RepetitionCount.Cutoffs(30 * osr, 60 * osr),
      if ntg1 then AdaptiveProportion.Cutoffs(row.aptNtg1, row.aptPermanentNtg1)
      else AdaptiveProportion.Cutoffs(row.apt, row.aptPermanent),
      if ntg1 then MemCutoffs(row.memNtg1, row.memPermanentNtg1)
      else MemCutoffs(row.mem, row.memPermanent),
      LagSpec.Cutoffs(row.lagLocal, row.lagLocalPermanent, row.lagGlobal, row.lagGlobalPermanent))
  }

  /** What the proofs use of the tables: the orderings, and the cap of the test with memory. */
  lemma Orderings(osr: nat, ntg1: bool)
    requires 1 <= osr <= MAX_OSR
    ensures var c := For(osr, ntg1);
      && RepetitionCount.ValidCutoffs(c.rct)
      && AdaptiveProportion.ValidCutoffs(c.apt)
      && LagSpec.ValidCutoffs(c.lag)
      && 0 < c.mem.intermittent < c.mem.permanent
      && c.mem.intermittent <= 107 * osr
      && (!ntg1 ==> c.mem.intermittent == 107 * osr && c.mem.permanent == 107 * osr + 1)
  {
    match osr
    case 1 => case 2 => case 3 => case 4 => case 5 => case 6 => case 7 =>
    case 8 => case 9 => case 10 => case 11 => case 12 => case 13 => case 14 =>
    case 15 => case 16 => case 17 => case 18 => case 19 => case _ =>
  }

  /** No cutoff of `a` exceeds that of `b`. */
  predicate NoLaxer(a: Cutoffs, b: Cutoffs) {
    && a.rct.intermittent <= b.rct.intermittent && a.rct.permanent <= b.rct.permanent
    && a.apt.intermittent <= b.apt.intermittent && a.apt.permanent <= b.apt.permanent
    && a.mem.intermittent <= b.mem.intermittent && a.mem.permanent <= b.mem.permanent
    && a.lag.local <= b.lag.local && a.lag.localPermanent <= b.lag.localPermanent
    && a.lag.global <= b.lag.global && a.lag.globalPermanent <= b.lag.globalPermanent
  }

  /**
   No NTG.1 cutoff exceeds the common one. A run of stuck deltas is cut off at 30 and 60 times the
   rate, for NTG.1 at an eighth of that, rounded up. The lag test cuts off fewer predictions in a
   row than in its whole window, and no cutoff lies beyond the window of its test.
   */
  lemma Modes(osr: nat)
    requires 1 <= osr <= MAX_OSR
    ensures NoLaxer(For(osr, true), For(osr, false)) && For(osr, true).lag == For(osr, false).lag
    ensures For(osr, false).rct == RepetitionCount.Cutoffs(30 * osr, 60 * osr)
    ensures var r := For(osr, true).rct;
            8 * (r.intermittent - 1) < 30 * osr <= 8 * r.intermittent && 8 * (r.permanent - 1) < 60 * osr <= 8 * r.permanent
    ensures var l := For(osr, false).lag;
            l.local < l.global && l.localPermanent < l.global && l.globalPermanent < 0x2_0000
    ensures For(osr, false).apt.permanent <= 512
  {
    match osr
    case 1 => case 2 => case 3 => case 4 => case 5 => case 6 => case 7 =>
    case 8 => case 9 => case 10 => case 11 => case 12 => case 13 => case 14 =>
    case 15 => case 16 => case 17 => case 18 => case 19 => case _ =>
  }

  /** A higher oversampling rate, which credits less entropy to a delta, never tightens a cutoff. */
  lemma RateLoosens(osr: nat, ntg1: bool)
    requires 1 <= osr < MAX_OSR
    ensures NoLaxer(For(osr, ntg1), For(osr + 1, ntg1))
  {
    EntriesGrow(osr);
    hide Entries;
  }

  lemma EntriesGrow(osr: nat)
    requires 1 <= osr < MAX_OSR
    ensures var a, b := Entries(osr), Entries(osr + 1);
      && a.lagLocal <= b.lagLocal && a.lagLocalPermanent <= b.lagLocalPermanent
      && a.lagGlobal <= b.lagGlobal && a.lagGlobalPermanent <= b.lagGlobalPermanent
      && a.apt <= b.apt && a.aptPermanent <= b.aptPermanent && a.aptNtg1 <= b.aptNtg1 && a.aptPermanentNtg1 <= b.aptPermanentNtg1
      && a.mem <= b.mem && a.memPermanent <= b.memPermanent && a.memNtg1 <= b.memNtg1 && a.memPermanentNtg1 <= b.memPermanentNtg1
  {
    match osr
    case 1 => case 2 => case 3 => case 4 => case 5 => case 6 => case 7 =>
    case 8 => case 9 => case 10 => case 11 => case 12 => case 13 => case 14 =>
    case 15 => case 16 => case 17 => case 18 => case _ =>
  }
}
