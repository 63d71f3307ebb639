/** What Figures F.4 to F.9 of T.81 and its Tables F.4 and F.5 say of a block, decision by decision. */
module ArithFigures {
  import opened Words
  import opened Coefficients
  import opened ArithModel
  import opened ArithBinarization

  /** Ones under n bins from st on. */
  function Ones(st: nat, n: nat): (ds: seq<Decision>)
    ensures |ds| == n && forall j :: 0 <= j < n ==> ds[j] == Decision(st + j, 1)
  {
    seq(n, j requires 0 <= j < n => Decision(st + j, 1))
  }

  /** The low n bits of w, most significant first, all under one bin. */
  function LowBits(st: nat, w: nat, n: nat): (ds: seq<Decision>)
    ensures |ds| == n && forall j :: 0 <= j < n ==> ds[j] == Decision(st, BitAt(w, Pow2(n - 1 - j)))
  {
    hide BitAt;
    if n == 0 then [] else [Decision(st, BitAt(w, Pow2(n - 1)))] + LowBits(st, w, n - 1)
  }

  /** The zero decisions of coefficients k..j-1. */
  function Zeros(area: nat, k: nat, j: nat): (ds: seq<Decision>)
    requires 0 < k <= j
    ensures |ds| == j - k && forall i :: 0 <= i < j - k ==> ds[i] == Decision(area + 3 * (k + i - 1) + 1, 0)
  {
    seq(j - k, i requires 0 <= i < j - k => Decision(area + 3 * (k + i - 1) + 1, 0))
  }

  /** A number of n bits takes n ones and a zero, each under the next bin. */
  lemma {:induction false} CategoryIs(st: nat, w: nat, n: nat)
    requires w < Pow2(n) && (n > 0 ==> w >= Pow2(n - 1))
    ensures Category(st, w) == Ones(st, n) + [Decision(st + n, 0)]
    ensures CategoryEnd(st, w) == st + n
    decreases n
  {
    if n == 0 {
      assert Pow2(0) == 1;
    } else {
      Pow2Step(n - 1);
      if n > 1 {
        Pow2Step(n - 2);
      } else {
        assert Pow2(0) == 1;
      }
      CategoryIs(st + 1, w / 2, n - 1);
      assert Ones(st, n) == [Decision(st, 1)] + Ones(st + 1, n - 1);
    }
  }

  /** The bits below the top bit come most significant first, all under one bin. */
  lemma {:induction false} PatternIs(st: nat, w: nat, n: nat)
    ensures Pattern(st, Pow2(n), w) == LowBits(st, w, n)
    decreases n
  {
    hide Pow2, BitAt;
    Pow2Step(0);
    if n > 0 {
      Pow2Step(n - 1);
      PatternUnroll(st, Pow2(n - 1), w);
      PatternIs(st, w, n - 1);
      assert LowBits(st, w, n) == [Decision(st, BitAt(w, Pow2(n - 1)))] + LowBits(st, w, n - 1);
    } else {
      PatternUnroll(st, 1, w);
    }
  }

  lemma {:induction false} TopBitIs(w: nat, n: nat)
    requires Pow2(n) <= w < Pow2(n + 1)
    ensures TopBit(w) == Pow2(n)
    decreases n
  {
    Pow2Step(n);
    if n > 0 {
      Pow2Step(n - 1);
      TopBitIs(w / 2, n - 1);
    }
  }

  lemma HalfRange(w: nat, n: nat)
    requires Pow2(n) <= w < Pow2(n + 1)
    ensures w / 2 < Pow2(n) && (n > 0 ==> w / 2 >= Pow2(n - 1)) && w >= 1
  {
    Pow2Step(n);
    if n > 0 {
      Pow2Step(n - 1);
    }
  }

  /** Table F.4 and Figures F.6 to F.9: one DC difference whose magnitude less one has n + 1 bits, or is zero. */
  lemma DcFigure(area: nat, context: nat, v: int, n: nat)
    requires var w := (if v < 0 then -v else v) - 1; w > 0 ==> Pow2(n) <= w < Pow2(n + 1)
    ensures var ds, w, sign := DcDecisions(area, context, v), (if v < 0 then -v else v) - 1, if v < 0 then 1 else 0;
            && (w < 0 ==> ds == [Decision(area + context, 0)])
            && (w == 0 ==> ds == [Decision(area + context, 1), Decision(area + context + 1, sign),
                                  Decision(area + context + 2 + sign, 0)])
            && (w > 0 ==> ds == [Decision(area + context, 1), Decision(area + context + 1, sign),
                                 Decision(area + context + 2 + sign, 1)]
                                + Ones(area + 20, n)
                                + [Decision(area + 20 + n, 0)]
                                + LowBits(area + 34 + n, w, n))
  {
    hide Pow2, TopBit, Category, CategoryEnd, Pattern, BitAt, Ones, LowBits, DcMagnitude;
    var w := (if v < 0 then -v else v) - 1;
    if w >= 0 {
      DcMagnitudeFigure(area + context + 2 + SignBit(v), area + 20, w, n);
      HeadJoins(Decision(area + context, 1), Decision(area + context + 1, SignBit(v)),
                Decision(area + context + 2 + SignBit(v), 1), Ones(area + 20, n), [Decision(area + 20 + n, 0)],
                LowBits(area + 34 + n, w, n));
    }
  }

  lemma HeadJoins(a: Decision, b: Decision, c: Decision, x: seq<Decision>, y: seq<Decision>, z: seq<Decision>)
    ensures [a, b] + ([c] + x + y + z) == [a, b, c] + x + y + z
  {
  }

  lemma DcMagnitudeFigure(st: nat, x1: nat, w: nat, n: nat)
    requires w > 0 ==> Pow2(n) <= w < Pow2(n + 1)
    ensures DcMagnitude(st, x1, w) == if w == 0 then [Decision(st, 0)]
                                      else [Decision(st, 1)] + Ones(x1, n) + [Decision(x1 + n, 0)]
                                           + LowBits(x1 + n + 14, w, n)
  {
    hide Pow2, TopBit, Category, CategoryEnd, Pattern, BitAt, Ones, LowBits;
    if w > 0 {
      HalfRange(w, n);
      TopBitIs(w, n);
      CategoryIs(x1, w / 2, n);
      PatternIs(x1 + n + 14, w, n);
    } else {
      NoPattern(st + 14);
    }
  }

  lemma NoPattern(st: nat)
    ensures Pattern(st, TopBit(0), 0) == [] && Pattern(st, TopBit(1), 1) == []
  {
  }

  /** Table F.5 and Figures F.8 and F.9: the magnitude of an AC coefficient, less one; st is its bin S0 + 2. */
  lemma AcMagnitudeFigure(st: nat, x2: nat, w: nat, n: nat)
    requires w > 1 ==> n > 0 && Pow2(n) <= w < Pow2(n + 1)
    ensures var ds := AcMagnitude(st, x2, w);
            && (w == 0 ==> ds == [Decision(st, 0)])
            && (w == 1 ==> ds == [Decision(st, 1), Decision(st, 0)])
            && (w > 1 ==> ds == [Decision(st, 1), Decision(st, 1)]
                                + Ones(x2, n - 1)
                                + [Decision(x2 + n - 1, 0)]
                                + LowBits(x2 + n + 13, w, n))
  {
    hide Pow2, TopBit, Category, CategoryEnd, Pattern, BitAt, Ones, LowBits;
    NoPattern(st + 14);
    if w > 1 {
      HalfRange(w, n);
      HalfRange(w / 2, n - 1);
      TopBitIs(w, n);
      CategoryIs(x2, w / 2 / 2, n - 1);
      PatternIs(x2 + n + 13, w, n);
    }
  }

  /**
   * Figure F.5 from coefficient k on, if the next nonzero one is j: not the end of the block, a zero decision for each
   * coefficient between, then the sign under the fixed bin and the magnitude; the bins of coefficient j are 3 (j - 1)
   * and the next two, and from 189 or 217 on for larger magnitudes.
   */
  lemma {:induction false} AcFigure(area: nat, acK: nat, z: seq<Coef>, k: nat, ke: nat, j: nat)
    requires k < j <= ke < |z| && z[ke] != 0 && z[j] != 0 && forall i :: k < i < j ==> z[i] == 0
    ensures AcFrom(area, acK, z, k, ke)
         == [Decision(area + 3 * k, 0)]
            + Zeros(area, k + 1, j)
            + [Decision(area + 3 * (j - 1) + 1, 1), Decision(FIXED_BIN, if z[j] < 0 then 1 else 0)]
            + AcMagnitude(area + 3 * (j - 1) + 2, area + (if j <= acK then 189 else 217),
                          if z[j] < 0 then -1 - z[j] else z[j] - 1)
            + AcFrom(area, acK, z, j, ke)
  {
    hide AcMagnitude, AcFrom, AcScan;
    AcUnroll(area, acK, z, k, ke);
    ZerosFigure(area, acK, z, k + 1, ke, j);
    AcUnroll(area, acK, z, j, ke);
  }

  lemma {:induction false} ZerosFigure(area: nat, acK: nat, z: seq<Coef>, k: nat, ke: nat, j: nat)
    requires 0 < k <= j <= ke < |z| && z[ke] != 0 && z[j] != 0 && forall i :: k <= i < j ==> z[i] == 0
    ensures AcScan(area, acK, z, k, ke)
         == Zeros(area, k, j)
            + AcScan(area, acK, z, j, ke)
    decreases j - k
  {
    hide AcMagnitude, AcFrom, AcScan;
    if k < j {
      AcUnroll(area, acK, z, k, ke);
      ZerosFigure(area, acK, z, k + 1, ke, j);
      assert Zeros(area, k, j) == [Decision(area + 3 * (k - 1) + 1, 0)] + Zeros(area, k + 1, j);
    }
  }

  /** Behind the last nonzero coefficient the end-of-block decision is a one, or is left out at the last position. */
  lemma AcFigureEnd(area: nat, acK: nat, z: seq<Coef>, ke: nat)
    requires ke < |z| && (ke > 0 ==> z[ke] != 0)
    ensures AcFrom(area, acK, z, ke, ke) == if ke < |z| - 1 then [Decision(area + 3 * ke, 1)] else []
  {
  }

  /** The areas of a block's bins: 64 for each of the sixteen DC tables, then 256 for each of the sixteen AC tables. */
  lemma BlockFigure(scan: Scan, s: DcState, ci: nat, b: Block)
    requires ValidScan(scan) && ValidDc(scan, s) && ci < |scan.components| && scan.limSe > 0
    ensures var comp, z := scan.components[ci],
      seq(scan.limSe + 1, k requires 0 <= k <= scan.limSe => b[scan.order[k]]);
            var ke := EndOfBlock(z, scan.limSe);
            BlockDecisions(scan, s, ci, b)
            == DcDecisions(64 * comp.dcTbl, s.context[ci], b[0] as int - s.last[ci])
               + AcFrom(16 * 64 + 256 * comp.acTbl, comp.acK, z, 0, ke)
  {
    hide AcFrom, DcDecisions, EndOfBlock;
    assert Zigzag(scan, b) == seq(scan.limSe + 1, k requires 0 <= k <= scan.limSe => b[scan.order[k]]);
  }

  /** A block leaves its DC coefficient as the prediction, and its difference as the conditioning, of its component. */
  lemma NextFigure(scan: Scan, s: DcState, ci: nat, b: Block, other: nat)
    requires ValidScan(scan) && ValidDc(scan, s) && ci < |scan.components| && other < |scan.components|
    ensures var next := NextDc(scan, s, ci, b);
            && next.last[other] == (if other == ci then b[0] else s.last[other])
            && next.context[other] == if other == ci then DcContext(scan.components[ci], b[0] as int - s.last[ci])
                                      else s.context[other]
  {
    hide DcContext;
  }

  /** After an MCU each component's prediction is its last DC coefficient there. */
  lemma {:induction false} PredictionIs(scan: Scan, s: DcState, mcu: seq<Block>, n: nat, ci: nat)
    requires ValidScan(scan) && ValidDc(scan, s) && IsMcu(scan, mcu) && n <= |mcu| && ci < |scan.components|
    ensures forall b :: n <= b < |mcu| && scan.membership[b] == ci
                        && (forall later :: b < later < |mcu| ==> scan.membership[later] != ci) ==>
                          McuDc(scan, s, mcu, n).last[ci] == mcu[b][0]
    ensures (forall b :: n <= b < |mcu| ==> scan.membership[b] != ci) ==>
              McuDc(scan, s, mcu, n).last[ci] == s.last[ci]
    decreases |mcu| - n
  {
    hide DcContext, IsOrder;
    if n < |mcu| {
      PredictionIs(scan, NextDc(scan, s, scan.membership[n], mcu[n]), mcu, n + 1, ci);
    }
  }
}
