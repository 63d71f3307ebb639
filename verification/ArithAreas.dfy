/**
 * Every decision of a scan is coded under a bin of the conditioning table it belongs to: one of the 64 bins of a DC
 * table, one of the 256 bins of an AC table, or the bin with the fixed estimate.
 */
module ArithAreas {
  import opened Words
  import opened ArithModel
  import opened Coefficients
  import opened ArithBinarization

  /** All bins from lo up to, not including, hi. */
  predicate Inside(ds: seq<Decision>, lo: nat, hi: nat) {
    forall d :: d in ds ==> lo <= d.bin < hi
  }

  predicate InsideAc(ds: seq<Decision>, area: nat) {
    forall d :: d in ds ==> area <= d.bin < area + AC_STAT_BINS || d.bin == FIXED_BIN
  }

  /** The bins that a scan with these components may use. */
  predicate InTables(scan: Scan, d: Decision) {
    || d.bin == FIXED_BIN
    || exists ci :: 0 <= ci < |scan.components| && OfComponent(scan.components[ci], d)
  }

  predicate OfComponent(comp: Component, d: Decision) {
    || DcArea(comp) <= d.bin < DcArea(comp) + DC_STAT_BINS
    || AcArea(comp) <= d.bin < AcArea(comp) + AC_STAT_BINS
  }

  predicate AllInTables(scan: Scan, ds: seq<Decision>) {
    forall d :: d in ds ==> InTables(scan, d)
  }

  lemma InsideWider(ds: seq<Decision>, lo: nat, hi: nat, lo1: nat, hi1: nat)
    requires Inside(ds, lo, hi) && lo1 <= lo && hi <= hi1
    ensures Inside(ds, lo1, hi1)
  {
  }

  // ---------------------------------------------------------------------------------------------
  // Magnitudes
  // ---------------------------------------------------------------------------------------------

  lemma {:induction false} PatternInside(st: nat, m: nat, w: nat)
    ensures Inside(Pattern(st, m, w), st, st + 1)
  {
    hide BitAt;
    if m >= 2 {
      PatternInside(st, m / 2, w);
    }
  }

  lemma CategoryInside(st: nat, w2: nat, bits: nat)
    requires w2 < Pow2(bits)
    ensures Inside(Category(st, w2), st, st + bits + 1) && st <= CategoryEnd(st, w2) <= st + bits
  {
    hide Category, CategoryEnd, Pow2;
    CategoryReach(st, w2, bits);
  }

  lemma DcMagnitudeInside(area: nat, context: nat, sign: bit, w: nat)
    requires context <= 16 && w < 0x1_0000
    ensures Inside(DcMagnitude(area + context + 2 + sign, area + 20, w), area, area + DC_STAT_BINS)
  {
    hide Category, CategoryEnd, Pattern, TopBit, Pow2;
    var st, x1 := area + context + 2 + sign, area + 20;
    if w > 0 {
      SmallerThanPower(w / 2);
      CategoryInside(x1, w / 2, 15);
      InsideWider(Category(x1, w / 2), x1, x1 + 16, area, area + DC_STAT_BINS);
    }
    PatternInside(DcCategoryEnd(st, x1, w) + 14, TopBit(w), w);
  }

  lemma SmallerThanPower(v: nat)
    requires v < 0x8000
    ensures v < Pow2(15)
  {
    Pow2Constants();
  }

  /** The decisions of a DC difference lie within the 64 bins of its table. */
  lemma DcInside(area: nat, context: nat, v: int)
    requires IsContext(context) && -0x1_0000 <= v <= 0x1_0000
    ensures Inside(DcDecisions(area, context, v), area, area + DC_STAT_BINS)
  {
    hide DcMagnitude;
    if v != 0 {
      DcMagnitudeInside(area, context, SignBit(v), Magnitude(v) - 1);
    }
  }

  lemma AcMagnitudeInside(area: nat, acK: nat, k: nat, w: nat)
    requires 1 <= k < DCTSIZE2 && w < 0x8000
    ensures Inside(AcMagnitude(area + 3 * (k - 1) + 2, X2(area, acK, k), w), area, area + AC_STAT_BINS)
  {
    hide Category, CategoryEnd, Pattern, TopBit, Pow2;
    var st, x2 := area + 3 * (k - 1) + 2, X2(area, acK, k);
    if w >= 2 {
      SmallerThanPower(w / 2 / 2);
      CategoryInside(x2, w / 2 / 2, 15);
      InsideWider(Category(x2, w / 2 / 2), x2, x2 + 16, area, area + AC_STAT_BINS);
    }
    PatternInside(AcCategoryEnd(st, x2, w) + 14, TopBit(w), w);
  }

  lemma {:induction false} AcFromInside(area: nat, acK: nat, z: seq<Coef>, k: nat, ke: nat)
    requires k <= ke < |z| <= DCTSIZE2 && (ke > 0 ==> z[ke] != 0)
    ensures InsideAc(AcFrom(area, acK, z, k, ke), area)
    decreases ke - k, 0
  {
    hide AcFrom, AcScan;
    AcUnroll(area, acK, z, k, ke);
    if k < ke {
      AcScanInside(area, acK, z, k + 1, ke);
    }
  }

  lemma {:induction false} AcScanInside(area: nat, acK: nat, z: seq<Coef>, k: nat, ke: nat)
    requires 1 <= k <= ke < |z| <= DCTSIZE2 && z[ke] != 0
    ensures InsideAc(AcScan(area, acK, z, k, ke), area)
    decreases ke - k, 1
  {
    hide AcFrom, AcScan, AcMagnitude, X2;
    AcUnroll(area, acK, z, k, ke);
    if z[k] == 0 {
      AcScanInside(area, acK, z, k + 1, ke);
    } else {
      AcMagnitudeInside(area, acK, k, Magnitude(z[k]) - 1);
      AcFromInside(area, acK, z, k, ke);
    }
  }

  /** The decisions of a block's AC coefficients lie within the 256 bins of its table, or use the fixed bin. */
  lemma AcInside(scan: Scan, comp: Component, b: Block)
    requires ValidScan(scan)
    ensures InsideAc(AcDecisions(scan, comp, b), AcArea(comp))
  {
    hide AcFrom, EndOfBlock;
    if scan.limSe > 0 {
      var z := Zigzag(scan, b);
      AcFromInside(AcArea(comp), comp.acK, z, 0, EndOfBlock(z, scan.limSe));
    }
  }

  // ---------------------------------------------------------------------------------------------
  // Blocks, MCUs and scans
  // ---------------------------------------------------------------------------------------------

  lemma DcInTables(scan: Scan, ci: nat, ds: seq<Decision>)
    requires ci < |scan.components|
      && Inside(ds, DcArea(scan.components[ci]), DcArea(scan.components[ci]) + DC_STAT_BINS)
    ensures AllInTables(scan, ds)
  {
    forall d | d in ds
      ensures InTables(scan, d)
    {
      assert OfComponent(scan.components[ci], d);
    }
  }

  lemma AcInTables(scan: Scan, ci: nat, ds: seq<Decision>)
    requires ci < |scan.components| && InsideAc(ds, AcArea(scan.components[ci]))
    ensures AllInTables(scan, ds)
  {
    forall d | d in ds
      ensures InTables(scan, d)
    {
      assert d.bin != FIXED_BIN ==> OfComponent(scan.components[ci], d);
    }
  }

  lemma AllInConcat(scan: Scan, a: seq<Decision>, b: seq<Decision>)
    requires AllInTables(scan, a) && AllInTables(scan, b)
    ensures AllInTables(scan, a + b)
  {
    hide InTables;
  }

  lemma BlockInTables(scan: Scan, s: DcState, ci: nat, b: Block)
    requires ValidScan(scan) && ValidDc(scan, s) && ci < |scan.components|
    ensures AllInTables(scan, BlockDecisions(scan, s, ci, b))
  {
    hide DcDecisions, AcDecisions, InTables, DcArea, AcArea;
    var comp := scan.components[ci];
    var v := Difference(b[0], s.last[ci]);
    DcInside(DcArea(comp), s.context[ci], v);
    DcInTables(scan, ci, DcDecisions(DcArea(comp), s.context[ci], v));
    AcInside(scan, comp, b);
    AcInTables(scan, ci, AcDecisions(scan, comp, b));
    AllInConcat(scan, DcDecisions(DcArea(comp), s.context[ci], v), AcDecisions(scan, comp, b));
  }

  lemma {:induction false} McuInTables(scan: Scan, s: DcState, mcu: seq<Block>, n: nat)
    requires ValidScan(scan) && ValidDc(scan, s) && IsMcu(scan, mcu) && n <= |mcu|
    ensures AllInTables(scan, McuDecisions(scan, s, mcu, n))
    decreases |mcu| - n
  {
    hide BlockDecisions, NextDc, InTables;
    if n < |mcu| {
      var ci := scan.membership[n];
      BlockInTables(scan, s, ci, mcu[n]);
      McuInTables(scan, NextDc(scan, s, ci, mcu[n]), mcu, n + 1);
      AllInConcat(scan, BlockDecisions(scan, s, ci, mcu[n]),
        McuDecisions(scan, NextDc(scan, s, ci, mcu[n]), mcu, n + 1));
    }
  }

  /** No decision of a whole scan uses a bin outside the tables of the scan's components. */
  lemma {:induction false} ScanInTables(scan: Scan, s: DcState, mcus: seq<seq<Block>>)
    requires ValidScan(scan) && ValidDc(scan, s) && AreMcus(scan, mcus)
    ensures AllInTables(scan, ScanDecisions(scan, s, mcus))
    decreases mcus
  {
    hide McuDecisions, McuDc, InTables;
    if mcus != [] {
      McuInTables(scan, s, mcus[0], 0);
      ScanInTables(scan, McuDc(scan, s, mcus[0], 0), mcus[1..]);
      AllInConcat(scan, McuDecisions(scan, s, mcus[0], 0), ScanDecisions(scan, McuDc(scan, s, mcus[0], 0), mcus[1..]));
    }
  }

  // ---------------------------------------------------------------------------------------------
  // What a decoder reads, whatever the data
  // ---------------------------------------------------------------------------------------------

  /** The trace has grown by decisions under the count bins from lo on. */
  ghost predicate Grows(before: seq<Decision>, after: seq<Decision>, lo: nat, count: nat) {
    before <= after && forall i :: |before| <= i < |after| ==> lo <= after[i].bin < lo + count
  }

  ghost predicate GrowsAc(before: seq<Decision>, after: seq<Decision>, area: nat) {
    && before <= after
    && forall i :: |before| <= i < |after| ==> area <= after[i].bin < area + AC_STAT_BINS || after[i].bin == FIXED_BIN
  }

  ghost predicate GrowsIn(scan: Scan, before: seq<Decision>, after: seq<Decision>) {
    before <= after && forall i :: |before| <= i < |after| ==> InTables(scan, after[i])
  }

  lemma GrowsNot(a: seq<Decision>, lo: nat, count: nat)
    ensures Grows(a, a, lo, count)
  {
  }

  /** One more decision. */
  lemma GrowsOn(a: seq<Decision>, b: seq<Decision>, d: Decision, lo: nat, count: nat)
    requires Grows(a, b, lo, count) && lo <= d.bin < lo + count
    ensures Grows(a, b + [d], lo, count)
  {
  }

  lemma GrowsTwice(a: seq<Decision>, b: seq<Decision>, c: seq<Decision>, lo: nat, count: nat, lo1: nat, count1: nat)
    requires Grows(a, b, lo, count) && Grows(b, c, lo1, count1) && lo <= lo1 && lo1 + count1 <= lo + count
    ensures Grows(a, c, lo, count)
  {
  }

  lemma GrowsAcNot(a: seq<Decision>, area: nat)
    ensures GrowsAc(a, a, area)
  {
  }

  lemma GrowsAcOn(a: seq<Decision>, b: seq<Decision>, d: Decision, area: nat)
    requires GrowsAc(a, b, area) && (area <= d.bin < area + AC_STAT_BINS || d.bin == FIXED_BIN)
    ensures GrowsAc(a, b + [d], area)
  {
  }

  lemma GrowsAcInside(a: seq<Decision>, b: seq<Decision>, c: seq<Decision>, area: nat)
    requires GrowsAc(a, b, area) && Grows(b, c, area, AC_STAT_BINS)
    ensures GrowsAc(a, c, area)
  {
  }

  lemma GrowsAcTwice(a: seq<Decision>, b: seq<Decision>, c: seq<Decision>, area: nat)
    requires GrowsAc(a, b, area) && GrowsAc(b, c, area)
    ensures GrowsAc(a, c, area)
  {
  }

  lemma GrowsInNot(scan: Scan, a: seq<Decision>)
    ensures GrowsIn(scan, a, a)
  {
  }

  lemma GrowsInDc(scan: Scan, ci: nat, a: seq<Decision>, b: seq<Decision>)
    requires ci < |scan.components| && Grows(a, b, DcArea(scan.components[ci]), DC_STAT_BINS)
    ensures GrowsIn(scan, a, b)
  {
    forall i | |a| <= i < |b|
      ensures InTables(scan, b[i])
    {
      assert OfComponent(scan.components[ci], b[i]);
    }
  }

  lemma GrowsInAc(scan: Scan, ci: nat, a: seq<Decision>, b: seq<Decision>)
    requires ci < |scan.components| && GrowsAc(a, b, AcArea(scan.components[ci]))
    ensures GrowsIn(scan, a, b)
  {
    forall i | |a| <= i < |b|
      ensures InTables(scan, b[i])
    {
      assert b[i].bin != FIXED_BIN ==> OfComponent(scan.components[ci], b[i]);
    }
  }

  lemma GrowsInTwice(scan: Scan, a: seq<Decision>, b: seq<Decision>, c: seq<Decision>)
    requires GrowsIn(scan, a, b) && GrowsIn(scan, b, c)
    ensures GrowsIn(scan, a, c)
  {
    hide InTables;
  }
}
