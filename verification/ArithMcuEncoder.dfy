/** Arithmetic coding of sequential MCUs: the decisions each coefficient block is turned into. */
module ArithMcuEncoder {
  import opened Words
  import opened ArithModel
  import opened ArithEncoder
  import opened ArithBinarization
  import opened Coefficients

  class McuEncoder {
    const enc: Encoder
    const scan: Scan
    var last: seq<Coef>    // last DC coefficient of each component
    var context: seq<nat>  // DC conditioning context of each component

    ghost predicate Ready()
      reads enc
    {
      enc.Valid() && |enc.stats| == ALL_BINS
    }

    ghost predicate Valid()
      reads this, enc
    {
      Ready() && ValidScan(scan) && ValidDc(scan, DcState(last, context))
    }

    constructor (enc: Encoder, scan: Scan)
      requires enc.Valid() && |enc.stats| == ALL_BINS && ValidScan(scan)
      ensures Valid() && this.enc == enc && this.scan == scan && DcState(last, context) == StartDc(scan)
    {
      hide Encoder.Valid, ValidScan;
      this.enc, this.scan := enc, scan;
      last, context := seq(|scan.components|, _ => 0), seq(|scan.components|, _ => 0);
    }

    /** Encodes a category of w2 further bits that starts at bin st0 and weight m0. */
    method EncodeCategory(st0: nat, m0: nat, w2: nat) returns (m: nat, st: nat)
      requires Ready() && CategoryEnd(st0, w2) < ALL_BINS
      modifies enc
      ensures Ready()
      ensures enc.trace == old(enc.trace) + Category(st0, w2)
      ensures st == CategoryEnd(st0, w2) && m == CategoryWeight(m0, w2)
    {
      hide Encoder.Valid, Pow2, Run, Category, CategoryEnd, CategoryWeight;
      m, st := m0, st0;
      var v2 := w2;
      while v2 != 0
        invariant Ready()
        invariant CategoryWeight(m, v2) == CategoryWeight(m0, w2)
        invariant CategoryEnd(st, v2) == CategoryEnd(st0, w2)
        invariant enc.trace + Category(st, v2) == old(enc.trace) + Category(st0, w2)
      {
        CategoryUnroll(st, m, v2);
        ghost var t := enc.trace;
        enc.Encode(st, 1);
        assert t + Category(st, v2) == enc.trace + Category(st + 1, v2 / 2);
        m, st := 2 * m, st + 1;
        v2 := v2 / 2;
      }
      CategoryUnroll(st, m, v2);
      enc.Encode(st, 0);
    }

    /** Encodes the bits of w below the one of weight m0. */
    method EncodePattern(st: nat, m0: nat, w: nat)
      requires Ready() && st < ALL_BINS
      modifies enc
      ensures Ready()
      ensures enc.trace == old(enc.trace) + Pattern(st, m0, w)
    {
      hide Encoder.Valid, Pow2, Run, BitAt, Pattern;
      PatternUnroll(st, m0, w);
      var m: nat := m0 / 2;
      while m != 0
        invariant Ready()
        invariant enc.trace + Pattern(st, 2 * m, w) == old(enc.trace) + Pattern(st, m0, w)
      {
        PatternUnroll(st, m, w);
        ghost var t := enc.trace;
        enc.Encode(st, BitAt(w, m));  // the bit of v that the power of two m masks
        assert t + Pattern(st, 2 * m, w) == enc.trace + Pattern(st, m, w);
        m := m / 2;
      }
      PatternUnroll(st, m, w);
    }

    /** Encodes the magnitude category of a DC difference; returns its weight and last bin. */
    method EncodeDcCategory(sp: nat, x1: nat, w: nat) returns (m: nat, st: nat)
      requires Ready() && sp < ALL_BINS && x1 + 15 < ALL_BINS && w < 0x1_0000
      modifies enc
      ensures Ready()
      ensures enc.trace == old(enc.trace) + DcCategory(sp, x1, w)
      ensures st == DcCategoryEnd(sp, x1, w) && m == TopBit(w)
    {
      hide Encoder.Valid, Pow2, Run, Category, CategoryEnd, CategoryWeight, TopBit;
      DcReach(sp, x1, w);
      m, st := 0, sp;
      if w != 0 {
        enc.Encode(st, 1);
        m, st := EncodeCategory(x1, 1, w / 2);
      } else {
        enc.Encode(st, 0);
      }
    }

    /** Encodes w; returns the weight of its highest bit. */
    method EncodeDcMagnitude(sp: nat, x1: nat, w: nat) returns (m: nat)
      requires Ready() && sp + 14 < ALL_BINS && x1 + 29 < ALL_BINS && w < 0x1_0000
      modifies enc
      ensures Ready()
      ensures enc.trace == old(enc.trace) + DcMagnitude(sp, x1, w) && m == TopBit(w)
    {
      hide Encoder.Valid, Pow2, Run, Pattern, TopBit, DcCategory, DcCategoryEnd;
      DcReach(sp, x1, w);
      var st;
      m, st := EncodeDcCategory(sp, x1, w);
      EncodePattern(st + 14, m, w);
    }

    /** Encodes the sign and the magnitude of a nonzero difference; returns the context it establishes. */
    method EncodeDcNonzero(st0: nat, area: nat, comp: Component, v0: int) returns (c: nat)
      requires Ready() && st0 + 17 < ALL_BINS && area + DC_STAT_BINS < ALL_BINS
      requires v0 != 0 && -0x1_0000 <= v0 <= 0x1_0000
      modifies enc
      ensures Ready()
      ensures enc.trace == old(enc.trace) + ([Decision(st0 + 1, SignBit(v0))]
           + DcMagnitude(st0 + 2 + SignBit(v0), area + 20, Magnitude(v0) - 1))
      ensures c == DcContext(comp, v0)
    {
      hide Encoder.Valid, Pow2, Run, Pattern, TopBit, DcMagnitude;
      var st, v := st0, v0;
      if v > 0 {
        enc.Encode(st + 1, 0);
        st := st + 2;
        c := 4;
      } else {
        v := -v;
        enc.Encode(st + 1, 1);
        st := st + 3;
        c := 8;
      }
      v := v - 1;
      var m := EncodeDcMagnitude(st, area + 20, v);
      if m < Pow2(comp.dcL) / 2 {
        c := 0;
      } else if m > Pow2(comp.dcU) / 2 {
        c := c + 8;
      }
    }

    /** Encodes the difference of a DC coefficient from its prediction. */
    method EncodeDc(ci: nat, dc: Coef)
      requires Valid() && ci < |scan.components|
      modifies this, enc
      ensures Valid()
      ensures enc.trace == old(enc.trace)
           + DcDecisions(DcArea(scan.components[ci]), old(context)[ci], Difference(dc, old(last)[ci]))
      ensures last == old(last)[ci := dc]
      ensures context == old(context)[ci := DcContext(scan.components[ci], Difference(dc, old(last)[ci]))]
    {
      hide Encoder.Valid, Pow2, Run, Pattern, TopBit, DcMagnitude;
      var comp := scan.components[ci];
      var area := comp.dcTbl * DC_STAT_BINS;
      var st := area + context[ci];
      var v := Difference(dc, last[ci]);
      assert area + DC_STAT_BINS <= AC_AREA && IsContext(context[ci]);
      hide ValidScan;
      var c := 0;
      if v == 0 {
        enc.Encode(st, 0);
        assert last == last[ci := dc];
      } else {
        last := last[ci := dc];
        enc.Encode(st, 1);
        c := EncodeDcNonzero(st, area, comp, v);
      }
      hide DcDecisions;
      context := context[ci := c];
    }

    /** Encodes the magnitude of an AC coefficient, w = |v| - 1. */
    method EncodeAcMagnitude(sp: nat, x2: nat, w: nat)
      requires Ready() && sp + 14 < ALL_BINS && x2 + 27 < ALL_BINS && w < 0x8000
      modifies enc
      ensures Ready()
      ensures enc.trace == old(enc.trace) + AcMagnitude(sp, x2, w)
    {
      hide Encoder.Valid, Pow2, Run, Pattern, TopBit, Category, CategoryEnd, CategoryWeight;
      AcReach(sp, x2, w);
      var m, st := 0, sp;
      ghost var t := enc.trace;
      if w != 0 {
        enc.Encode(st, 1);
        m := 1;
        var v2 := w / 2;
        if v2 != 0 {
          enc.Encode(st, 1);
          m, st := EncodeCategory(x2, 2, v2 / 2);
        } else {
          enc.Encode(st, 0);
        }
      } else {
        enc.Encode(st, 0);
      }
      assert enc.trace == t + AcCategory(sp, x2, w);
      assert st == AcCategoryEnd(sp, x2, w);
      hide AcCategory, AcCategoryEnd;
      EncodePattern(st + 14, m, w);
    }

    /** Encodes the sign and the magnitude of the nonzero coefficient v at zigzag position k. */
    method EncodeAcCoefficient(st: nat, area: nat, acK: nat, k: nat, v: Coef)
      requires Ready() && v != 0 && st + 17 < ALL_BINS && area + AC_STAT_BINS <= ALL_BINS
      modifies enc
      ensures Ready()
      ensures enc.trace == old(enc.trace)
           + ([Decision(st + 1, 1), Decision(FIXED_BIN, SignBit(v))]
              + AcMagnitude(st + 2, X2(area, acK, k), Magnitude(v) - 1))
    {
      hide Encoder.Valid, Run, AcMagnitude;
      enc.Encode(st + 1, 1);
      if v > 0 {
        enc.Encode(FIXED_BIN, 0);
      } else {
        enc.Encode(FIXED_BIN, 1);
      }
      EncodeAcMagnitude(st + 2, if k <= acK then area + 189 else area + 217, Magnitude(v) - 1);
    }

    /** The end-of-block index of a block. */
    method FindEnd(b: Block) returns (ke: nat)
      requires ValidScan(scan) && scan.limSe > 0
      ensures ke == EndOfBlock(Zigzag(scan, b), scan.limSe)
    {
      ghost var z := Zigzag(scan, b);
      ke := scan.limSe;
      while ke > 0 && b[scan.order[ke]] == 0
        invariant ke <= scan.limSe && EndOfBlock(z, ke) == EndOfBlock(z, scan.limSe)
      {
        assert z[ke] == b[scan.order[ke]];
        ke := ke - 1;
      }
      assert ke > 0 ==> z[ke] == b[scan.order[ke]] != 0;
    }

    /** The coefficient at zigzag position k. */
    function Coefficient(b: Block, k: nat): (v: Coef)
      requires ValidScan(scan) && k <= scan.limSe
      ensures v == Zigzag(scan, b)[k]
    {
      b[scan.order[k]]
    }

    /** Position k of a block with end-of-block index ke > 0, in zigzag order z. */
    ghost predicate AcPosition(b: Block, z: seq<Coef>, k: nat, ke: nat) {
      ValidScan(scan) && z == Zigzag(scan, b) && 1 <= k <= ke < |z| && z[ke] != 0
    }

    /** The decisions from the zero decision of position k on. */
    ghost function FromZero(area: nat, acK: nat, z: seq<Coef>, k: nat, ke: nat): seq<Decision> {
      if 1 <= k <= ke < |z| && z[ke] != 0 then AcScan(area, acK, z, k, ke) else []
    }

    /** The decisions from the end-of-block decision of position k on. */
    ghost function FromEnd(area: nat, acK: nat, z: seq<Coef>, k: nat, ke: nat): seq<Decision> {
      if k <= ke < |z| && (ke > 0 ==> z[ke] != 0) then AcFrom(area, acK, z, k, ke) else []
    }

    /** Codes the zero decisions up to the next nonzero coefficient. */
    method EncodeZeroRun(area: nat, acK: nat, b: Block, k0: nat, ke: nat, ghost z: seq<Coef>) returns (k: nat)
      requires Ready() && area + AC_STAT_BINS <= FIXED_BIN && AcPosition(b, z, k0, ke)
      modifies enc
      ensures Ready() && k0 <= k && AcPosition(b, z, k, ke) && z[k] != 0
      ensures enc.trace + FromZero(area, acK, z, k, ke) == old(enc.trace) + FromZero(area, acK, z, k0, ke)
    {
      hide Encoder.Valid, Run, AcFrom, AcScan, ValidScan, AcMagnitude;
      k := k0;
      while Coefficient(b, k) == 0
        invariant k0 <= k && AcPosition(b, z, k, ke) && Ready()
        invariant enc.trace + FromZero(area, acK, z, k, ke) == old(enc.trace) + FromZero(area, acK, z, k0, ke)
        decreases ke - k
      {
        AcUnroll(area, acK, z, k, ke);
        SmallPosition(k);
        ghost var t := enc.trace;
        enc.Encode(area + 3 * (k - 1) + 1, 0);
        assert t + FromZero(area, acK, z, k, ke) == enc.trace + FromZero(area, acK, z, k + 1, ke);
        k := k + 1;
      }
    }

    lemma AreaFits(ci: nat)
      requires ValidScan(scan) && ci < |scan.components|
      ensures AcArea(scan.components[ci]) + AC_STAT_BINS <= FIXED_BIN
    {
      hide IsOrder;
    }

    lemma SmallPosition(k: nat)
      requires ValidScan(scan)
      ensures k <= scan.limSe ==> k < DCTSIZE2
    {
    }

    /** Codes the end-of-block decision of position k0 and the next nonzero coefficient. */
    method EncodeNextAc(area: nat, acK: nat, b: Block, k0: nat, ke: nat, ghost z: seq<Coef>) returns (k: nat)
      requires Ready() && area + AC_STAT_BINS <= FIXED_BIN && k0 < ke && AcPosition(b, z, k0 + 1, ke)
      modifies enc
      ensures Ready() && k0 < k <= ke
      ensures enc.trace + FromEnd(area, acK, z, k, ke) == old(enc.trace) + FromEnd(area, acK, z, k0, ke)
    {
      hide Encoder.Valid, Run, AcMagnitude, X2, AcFrom, AcScan, SignBit, ValidScan;
      AcUnroll(area, acK, z, k0, ke);
      SmallPosition(k0);
      ghost var t := enc.trace;
      enc.Encode(area + 3 * k0, 0);
      assert t + AcFrom(area, acK, z, k0, ke) == enc.trace + FromZero(area, acK, z, k0 + 1, ke);
      k := EncodeZeroRun(area, acK, b, k0 + 1, ke, z);
      AcUnroll(area, acK, z, k, ke);
      SmallPosition(k);
      ghost var u := enc.trace;
      EncodeAcCoefficient(area + 3 * (k - 1), area, acK, k, Coefficient(b, k));
      assert u + FromZero(area, acK, z, k, ke) == enc.trace + AcFrom(area, acK, z, k, ke);
    }

    /** Encodes the AC coefficients of a block. */
    method EncodeAc(ci: nat, b: Block)
      requires Ready() && ValidScan(scan) && ci < |scan.components|
      modifies enc
      ensures Ready()
      ensures enc.trace == old(enc.trace) + AcDecisions(scan, scan.components[ci], b)
    {
      hide Encoder.Valid, Run, EndOfBlock, AcFrom, ValidScan, AcArea;
      if scan.limSe == 0 {
        return;
      }
      ghost var z := Zigzag(scan, b);
      var ke := FindEnd(b);
      var acK := scan.components[ci].acK;
      var area := AcArea(scan.components[ci]);
      AreaFits(ci);
      SmallPosition(scan.limSe);
      ghost var goal := enc.trace + AcFrom(area, acK, z, 0, ke);
      var k: nat := 0;
      while k < ke
        invariant k <= ke && Ready() && enc.trace + AcFrom(area, acK, z, k, ke) == goal
      {
        k := EncodeNextAc(area, acK, b, k, ke, z);
      }
      AcUnroll(area, acK, z, k, ke);
      if k < scan.limSe {
        enc.Encode(area + 3 * k, 1);
      }
    }

    /** Encodes one MCU: its blocks' decisions, in order, under the predictions left by the blocks before. */
    method EncodeMcu(mcu: seq<Block>)
      requires Valid() && IsMcu(scan, mcu)
      modifies this, enc
      ensures Valid()
      ensures enc.trace == old(enc.trace) + McuDecisions(scan, old(DcState(last, context)), mcu, 0)
      ensures DcState(last, context) == McuDc(scan, old(DcState(last, context)), mcu, 0)
    {
      hide Encoder.Valid, Run, DcDecisions, AcDecisions, DcContext;
      ghost var s := DcState(last, context);
      ghost var goal := enc.trace + McuDecisions(scan, s, mcu, 0);
      for n := 0 to |mcu|
        invariant Valid()
        invariant enc.trace + McuDecisions(scan, DcState(last, context), mcu, n) == goal
        invariant McuDc(scan, DcState(last, context), mcu, n) == McuDc(scan, s, mcu, 0)
      {
        var ci := scan.membership[n];
        ghost var before, t := DcState(last, context), enc.trace;
        EncodeDc(ci, mcu[n][0]);
        EncodeAc(ci, mcu[n]);
        assert enc.trace == t + BlockDecisions(scan, before, ci, mcu[n]);
        assert DcState(last, context) == NextDc(scan, before, ci, mcu[n]);
      }
    }
  }
}
