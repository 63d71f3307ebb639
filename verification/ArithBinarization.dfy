/**
 * The binary decisions a sequential arithmetic-coded scan consists of (T.81, sections F.1.4.1 to F.1.4.4):
 * which statistics bin each coefficient bit is coded under, and how DC differences condition the next one.
 */
module ArithBinarization {
  import opened Words
  import opened ArithModel
  import opened Coefficients

  const NUM_ARITH_TBLS := 16
  const DC_STAT_BINS := 64
  const AC_STAT_BINS := 256
  const AC_AREA := NUM_ARITH_TBLS * DC_STAT_BINS
  /** The one bin with the fixed estimate; it follows the sixteen DC and the sixteen AC areas. */
  const FIXED_BIN := AC_AREA + NUM_ARITH_TBLS * AC_STAT_BINS
  const ALL_BINS := FIXED_BIN + 1

  /** Table selectors and conditioning of one component of a scan. */
  datatype Component = Component(dcTbl: nat, acTbl: nat, dcL: nat, dcU: nat, acK: nat)

  /** order maps zigzag positions to positions in a block; limSe is the last position coded. */
  datatype Scan = Scan(components: seq<Component>, membership: seq<nat>, limSe: nat, order: seq<nat>)

  predicate ValidScan(scan: Scan) {
    && (forall i :: 0 <= i < |scan.components| ==>
          scan.components[i].dcTbl < NUM_ARITH_TBLS && scan.components[i].acTbl < NUM_ARITH_TBLS)
    && (forall b :: 0 <= b < |scan.membership| ==> scan.membership[b] < |scan.components|)
    && scan.limSe < DCTSIZE2 && IsOrder(scan.order)
  }

  /** DC prediction and conditioning state, one entry per component of the scan. */
  datatype DcState = DcState(last: seq<Coef>, context: seq<nat>)

  predicate IsContext(c: nat) {
    c == 0 || c == 4 || c == 8 || c == 12 || c == 16
  }

  predicate ValidDc(scan: Scan, s: DcState) {
    && |s.last| == |s.context| == |scan.components|
    && forall i :: 0 <= i < |s.context| ==> IsContext(s.context[i])
  }

  // ---------------------------------------------------------------------------------------------
  // Magnitudes
  // ---------------------------------------------------------------------------------------------

  /** The highest power of two in w, 0 for 0. */
  function TopBit(w: nat): (m: nat)
    ensures w > 0 ==> m <= w < 2 * m
    ensures w == 0 ==> m == 0
  {
    if w < 2 then w else 2 * TopBit(w / 2)
  }

  /** Unary code of the magnitude category: a 1 for every further bit of w2, then a 0 (Figure F.8). */
  function Category(st: nat, w2: nat): (ds: seq<Decision>)
    ensures ds != []
    decreases w2
  {
    if w2 == 0 then [Decision(st, 0)] else [Decision(st, 1)] + Category(st + 1, w2 / 2)
  }

  function CategoryEnd(st: nat, w2: nat): (end: nat)
    ensures end >= st
    decreases w2
  {
    if w2 == 0 then st else CategoryEnd(st + 1, w2 / 2)
  }

  /** The weight reached when a category that starts at weight m has been read. */
  function CategoryWeight(m: nat, w2: nat): (r: nat)
    ensures r >= m
    decreases w2
  {
    if w2 == 0 then m else CategoryWeight(2 * m, w2 / 2)
  }

  /** The bit of w of weight m, a power of two. */
  function BitAt(w: nat, m: nat): bit
    requires m > 0
  {
    w / m % 2
  }

  /** The bits of w below the one of weight m, most significant first (Figure F.9). */
  function Pattern(st: nat, m: nat, w: nat): (ds: seq<Decision>)
  {
    if m < 2 then [] else [Decision(st, BitAt(w, m / 2))] + Pattern(st, m / 2, w)
  }

  function SignBit(v: int): bit {
    if v < 0 then 1 else 0
  }

  // ---------------------------------------------------------------------------------------------
  // DC differences
  // ---------------------------------------------------------------------------------------------

  /** The magnitude category of a DC difference with w = |v| - 1: st is SP or SN, x1 is bin X1 of the table. */
  function DcCategory(st: nat, x1: nat, w: nat): (ds: seq<Decision>)
  {
    if w == 0 then [Decision(st, 0)] else [Decision(st, 1)] + Category(x1, w / 2)
  }

  function DcCategoryEnd(st: nat, x1: nat, w: nat): (end: nat)
  {
    if w == 0 then st else CategoryEnd(x1, w / 2)
  }

  function DcMagnitude(st: nat, x1: nat, w: nat): (ds: seq<Decision>)
  {
    DcCategory(st, x1, w) + Pattern(DcCategoryEnd(st, x1, w) + 14, TopBit(w), w)
  }

  function DcDecisions(area: nat, context: nat, v: int): (ds: seq<Decision>)
  {
    var st := area + context;
    if v == 0 then
      [Decision(st, 0)]
    else
      [Decision(st, 1), Decision(st + 1, SignBit(v))]
      + DcMagnitude(st + 2 + SignBit(v), area + 20, Magnitude(v) - 1)
  }

  /** Section F.1.4.4.1.2: the conditioning category a difference establishes for the next one. */
  function DcContext(comp: Component, v: int): (c: nat)
    ensures IsContext(c)
  {
    if v == 0 then 0
    else
      var m := TopBit(Magnitude(v) - 1);
      if m < Pow2(comp.dcL) / 2 then 0
      else if m > Pow2(comp.dcU) / 2 then 12 + 4 * SignBit(v)
      else 4 + 4 * SignBit(v)
  }

  /** A power of two is above the top bit of w exactly if it is above w. */
  lemma {:induction false} TopBitBelow(w: nat, n: nat)
    ensures TopBit(w) < Pow2(n) <==> w < Pow2(n)
    ensures TopBit(w) > Pow2(n) / 2 <==> w >= Pow2(n)
    decreases n
  {
    if n == 0 {
      assert Pow2(0) == 1;
    } else {
      Pow2Step(n - 1);
      if w >= 2 {
        TopBitBelow(w / 2, n - 1);
        if n == 1 {
          assert Pow2(0) == 1;
        } else {
          Pow2Step(n - 2);
        }
      }
    }
  }

  /**
   * The conditioning in terms of the difference: category 0 up to half of 2^L, the large ones above 2^U, and in the
   * others the sign decides (T.81, section F.1.4.4.1.2).
   */
  lemma ContextIs(comp: Component, v: int)
    ensures var c, size := DcContext(comp, v), if v < 0 then -v else v;
            && (c == 0 <==> v == 0 || 2 * size <= Pow2(comp.dcL))
            && (c != 0 ==> (c == 12 || c == 16 <==> size > Pow2(comp.dcU)) && (c == 8 || c == 16 <==> v < 0))
  {
    hide Pow2, TopBit;
    if v != 0 {
      var w := Magnitude(v) - 1;
      TopBitBelow(w, comp.dcU);
      if comp.dcL > 0 {
        Pow2Step(comp.dcL - 1);
        TopBitBelow(w, comp.dcL - 1);
      } else {
        Pow2Step(0);
      }
    }
  }

  // ---------------------------------------------------------------------------------------------
  // AC coefficients
  // ---------------------------------------------------------------------------------------------

  /** The magnitude category of a coefficient with w = |v| - 1: st is its bin S0 + 2, x2 is bin X2 for its position. */
  function AcCategory(st: nat, x2: nat, w: nat): (ds: seq<Decision>)
  {
    if w == 0 then [Decision(st, 0)]
    else if w == 1 then [Decision(st, 1), Decision(st, 0)]
    else [Decision(st, 1), Decision(st, 1)] + Category(x2, w / 2 / 2)
  }

  function AcCategoryEnd(st: nat, x2: nat, w: nat): (end: nat)
  {
    if w < 2 then st else CategoryEnd(x2, w / 2 / 2)
  }

  function AcMagnitude(st: nat, x2: nat, w: nat): (ds: seq<Decision>)
  {
    AcCategory(st, x2, w) + Pattern(AcCategoryEnd(st, x2, w) + 14, TopBit(w), w)
  }

  function X2(area: nat, acK: nat, k: nat): nat {
    area + if k <= acK then 189 else 217
  }

  /** Coefficients in zigzag order. */
  function Zigzag(scan: Scan, b: Block): (z: seq<Coef>)
    requires ValidScan(scan)
    ensures |z| == scan.limSe + 1
  {
    ZigzagOf(scan.order, scan.limSe, b)
  }

  /** Index of the last nonzero AC coefficient, 0 if there is none. */
  function EndOfBlock(z: seq<Coef>, ke: nat): (e: nat)
    requires ke < |z|
    ensures e <= ke && (e > 0 ==> z[e] != 0)
    ensures forall k :: e < k <= ke ==> z[k] == 0
  {
    if ke == 0 || z[ke] != 0 then ke else EndOfBlock(z, ke - 1)
  }

  /** From the end-of-block decision at position k on (Figure F.5). */
  function AcFrom(area: nat, acK: nat, z: seq<Coef>, k: nat, ke: nat): (ds: seq<Decision>)
    requires k <= ke < |z| && (ke > 0 ==> z[ke] != 0)
    decreases ke - k, 0
  {
    if k < ke then [Decision(area + 3 * k, 0)] + AcScan(area, acK, z, k + 1, ke)
    else if k < |z| - 1 then [Decision(area + 3 * k, 1)]
    else []
  }

  /** From the zero decision of position k on. */
  function AcScan(area: nat, acK: nat, z: seq<Coef>, k: nat, ke: nat): (ds: seq<Decision>)
    requires 1 <= k <= ke < |z| && z[ke] != 0
    decreases ke - k, 1
  {
    var st := area + 3 * (k - 1);
    if z[k] == 0 then
      [Decision(st + 1, 0)] + AcScan(area, acK, z, k + 1, ke)
    else
      [Decision(st + 1, 1), Decision(FIXED_BIN, SignBit(z[k]))]
      + AcMagnitude(st + 2, X2(area, acK, k), Magnitude(z[k]) - 1)
      + AcFrom(area, acK, z, k, ke)
  }

  // ---------------------------------------------------------------------------------------------
  // Blocks and MCUs
  // ---------------------------------------------------------------------------------------------

  function DcArea(comp: Component): nat {
    comp.dcTbl * DC_STAT_BINS
  }

  function AcArea(comp: Component): nat {
    AC_AREA + comp.acTbl * AC_STAT_BINS
  }

  function AcDecisions(scan: Scan, comp: Component, b: Block): (ds: seq<Decision>)
    requires ValidScan(scan)
  {
    var z := Zigzag(scan, b);
    if scan.limSe == 0 then [] else AcFrom(AcArea(comp), comp.acK, z, 0, EndOfBlock(z, scan.limSe))
  }

  function BlockDecisions(scan: Scan, s: DcState, ci: nat, b: Block): (ds: seq<Decision>)
    requires ValidScan(scan) && ValidDc(scan, s) && ci < |scan.components|
  {
    var comp := scan.components[ci];
    DcDecisions(DcArea(comp), s.context[ci], Difference(b[0], s.last[ci])) + AcDecisions(scan, comp, b)
  }

  function NextDc(scan: Scan, s: DcState, ci: nat, b: Block): (s': DcState)
    requires ValidScan(scan) && ValidDc(scan, s) && ci < |scan.components|
    ensures ValidDc(scan, s')
  {
    DcState(s.last[ci := b[0]], s.context[ci := DcContext(scan.components[ci], Difference(b[0], s.last[ci]))])
  }

  predicate IsMcu(scan: Scan, mcu: seq<Block>) {
    |mcu| == |scan.membership|
  }

  /** The decisions of the blocks of an MCU from block number n on. */
  function McuDecisions(scan: Scan, s: DcState, mcu: seq<Block>, n: nat): (ds: seq<Decision>)
    requires ValidScan(scan) && ValidDc(scan, s) && IsMcu(scan, mcu) && n <= |mcu|
    decreases |mcu| - n
  {
    if n == |mcu| then []
    else
      var ci := scan.membership[n];
      BlockDecisions(scan, s, ci, mcu[n]) + McuDecisions(scan, NextDc(scan, s, ci, mcu[n]), mcu, n + 1)
  }

  function McuDc(scan: Scan, s: DcState, mcu: seq<Block>, n: nat): (s': DcState)
    requires ValidScan(scan) && ValidDc(scan, s) && IsMcu(scan, mcu) && n <= |mcu|
    ensures ValidDc(scan, s')
    decreases |mcu| - n
  {
    if n == |mcu| then s else McuDc(scan, NextDc(scan, s, scan.membership[n], mcu[n]), mcu, n + 1)
  }

  predicate AreMcus(scan: Scan, mcus: seq<seq<Block>>) {
    forall i :: 0 <= i < |mcus| ==> IsMcu(scan, mcus[i])
  }

  function ScanDecisions(scan: Scan, s: DcState, mcus: seq<seq<Block>>): (ds: seq<Decision>)
    requires ValidScan(scan) && ValidDc(scan, s) && AreMcus(scan, mcus)
    decreases mcus
  {
    if mcus == [] then []
    else McuDecisions(scan, s, mcus[0], 0) + ScanDecisions(scan, McuDc(scan, s, mcus[0], 0), mcus[1..])
  }

  function StartDc(scan: Scan): (s: DcState)
    ensures ValidDc(scan, s) && forall ci :: 0 <= ci < |scan.components| ==> s.last[ci] == 0 && s.context[ci] == 0
  {
    DcState(seq(|scan.components|, _ => 0), seq(|scan.components|, _ => 0))
  }

  // ---------------------------------------------------------------------------------------------
  // Arithmetic of magnitudes
  // ---------------------------------------------------------------------------------------------

  lemma CategoryUnroll(st: nat, m: nat, w2: nat)
    ensures w2 == 0 ==>
            Category(st, 0) == [Decision(st, 0)] && CategoryEnd(st, 0) == st && CategoryWeight(m, 0) == m
    ensures w2 > 0 ==>
            && Category(st, w2) == [Decision(st, 1)] + Category(st + 1, w2 / 2)
            && CategoryEnd(st, w2) == CategoryEnd(st + 1, w2 / 2)
            && CategoryWeight(m, w2) == CategoryWeight(2 * m, w2 / 2)
  {
  }

  lemma PatternUnroll(st: nat, m: nat, w: nat)
    ensures Pattern(st, m, w) == Pattern(st, 2 * (m / 2), w)
    ensures m > 0 ==> Pattern(st, 2 * m, w) == [Decision(st, BitAt(w, m))] + Pattern(st, m, w)
    ensures m < 2 ==> Pattern(st, m, w) == []
  {
    hide BitAt;
    var h := m / 2;
    assert 2 * m / 2 == m && 2 * h / 2 == h;
  }

  lemma AcUnroll(area: nat, acK: nat, z: seq<Coef>, k: nat, ke: nat)
    requires k <= ke < |z| && (ke > 0 ==> z[ke] != 0)
    ensures k < ke ==> AcFrom(area, acK, z, k, ke) == [Decision(area + 3 * k, 0)] + AcScan(area, acK, z, k + 1, ke)
    ensures k == ke ==> AcFrom(area, acK, z, k, ke) == if k < |z| - 1 then [Decision(area + 3 * k, 1)] else []
    ensures 0 < k && z[k] == 0 ==>
            k < ke && AcScan(area, acK, z, k, ke)
                   == [Decision(area + 3 * (k - 1) + 1, 0)] + AcScan(area, acK, z, k + 1, ke)
    ensures 0 < k && z[k] != 0 ==>
            AcScan(area, acK, z, k, ke)
            == [Decision(area + 3 * (k - 1) + 1, 1), Decision(FIXED_BIN, SignBit(z[k]))]
               + AcMagnitude(area + 3 * (k - 1) + 2, X2(area, acK, k), Magnitude(z[k]) - 1)
               + AcFrom(area, acK, z, k, ke)
  {
    hide AcMagnitude, X2, SignBit;
  }

  lemma {:induction false} WeightIsTopBit(m: nat, w: nat)
    requires w > 0
    ensures CategoryWeight(m, w / 2) == m * TopBit(w)
    decreases w
  {
    if w / 2 > 0 {
      WeightIsTopBit(2 * m, w / 2);
    }
  }

  /** A category ends as many bins further as w2 has bits. */
  lemma {:induction false} CategoryReach(st: nat, w2: nat, bits: nat)
    requires w2 < Pow2(bits)
    ensures CategoryEnd(st, w2) <= st + bits
    ensures forall i :: 0 <= i < |Category(st, w2)| ==> st <= Category(st, w2)[i].bin <= st + bits
    decreases w2
  {
    if w2 > 0 {
      assert bits > 0;
      CategoryReach(st + 1, w2 / 2, bits - 1);
    }
  }

  /** The bins of a DC difference lie within the 64 bins of its table. */
  lemma DcReach(st: nat, x1: nat, w: nat)
    requires w < 0x1_0000
    ensures DcCategoryEnd(st, x1, w) <= if w == 0 then st else x1 + 15
    ensures w > 0 ==> CategoryWeight(1, w / 2) == TopBit(w)
    ensures w == 0 ==> TopBit(w) == 0
  {
    if w > 0 {
      Pow2Constants();
      CategoryReach(x1, w / 2, 15);
      WeightIsTopBit(1, w);
    }
  }

  /** The bins of an AC coefficient lie within the 256 bins of its table. */
  lemma AcReach(st: nat, x2: nat, w: nat)
    requires w < 0x8000
    ensures AcCategoryEnd(st, x2, w) <= if w < 2 then st else x2 + 13
    ensures w >= 2 ==> CategoryWeight(2, w / 2 / 2) == TopBit(w)
    ensures w < 2 ==> TopBit(w) == w
  {
    if w >= 2 {
      assert Pow2(13) == 0x2000;
      CategoryReach(x2, w / 2 / 2, 13);
      WeightIsTopBit(2, w / 2);
    }
  }

  lemma {:induction false} TopBitRange(w: nat, n: nat)
    ensures TopBit(w) < Pow2(n) <==> w < Pow2(n)
    decreases n
  {
    if n > 0 && w >= 2 {
      TopBitRange(w / 2, n - 1);
    }
  }

  /** Differences of magnitude over 32768 do not fit the decoder's magnitude register. */
  predicate Codable(v: int) {
    -0x8000 <= v <= 0x8000
  }

  predicate McuCodable(scan: Scan, s: DcState, mcu: seq<Block>, n: nat)
    requires ValidScan(scan) && ValidDc(scan, s) && IsMcu(scan, mcu) && n <= |mcu|
    decreases |mcu| - n
  {
    n == |mcu| ||
    (var ci := scan.membership[n];
     Codable(Difference(mcu[n][0], s.last[ci])) && McuCodable(scan, NextDc(scan, s, ci, mcu[n]), mcu, n + 1))
  }
}
