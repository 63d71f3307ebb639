/** Arithmetic decoding of sequential MCUs into coefficient blocks. */
module ArithMcuDecoder {
  import opened Integers
  import opened Words
  import opened ByteStuffing
  import opened ArithModel
  import opened ArithDecoder
  import opened ArithBinarization
  import opened ArithAreas
  import opened Coefficients

  class McuDecoder {
    const dec: Decoder
    const scan: Scan
    var last: seq<int>     // last DC coefficient of each component
    var context: seq<nat>  // DC conditioning context of each component

    ghost predicate Ready()
      reads dec
    {
      dec.Valid() && |dec.stats| == ALL_BINS
    }

    ghost predicate Valid()
      reads this
    {
      && ValidScan(scan) && |last| == |context| == |scan.components|
      && forall i :: 0 <= i < |context| ==> IsContext(context[i])
    }

    constructor (dec: Decoder, scan: Scan)
      requires dec.Valid() && |dec.stats| == ALL_BINS && ValidScan(scan)
      ensures Ready() && Valid() && this.dec == dec && this.scan == scan
      ensures last == StartDc(scan).last && context == StartDc(scan).context
    {
      hide Decoder.Valid, ValidScan;
      this.dec, this.scan := dec, scan;
      last, context := seq(|scan.components|, _ => 0), seq(|scan.components|, _ => 0);
    }

    /**
     * Decodes a magnitude category from bin st0 and weight m0 on; w2 and rest are what the segment may be coding.
     * Fails exactly when the weight would reach 0x8000.
     */
    method DecodeCategory(st0: nat, m0: nat, ghost i0: nat, ghost w2: nat, ghost rest: seq<Decision>)
      returns (ok: bool, m: nat, st: nat)
      requires Ready() && st0 + 14 < ALL_BINS && i0 <= 1 && m0 == Pow2(i0)
      modifies dec
      ensures Ready()
      ensures ok ==> m0 <= m < 0x8000 && st0 <= st <= st0 + 14
      ensures Grows(old(dec.trace), dec.trace, st0, 15)
      ensures old(dec.Expects(Category(st0, w2) + rest)) ==>
              && (ok <==> CategoryWeight(m0, w2) < 0x8000)
              && (ok ==> m == CategoryWeight(m0, w2) && st == CategoryEnd(st0, w2) && dec.Expects(rest))
    {
      hide Decoder.Valid, Decoder.Expects, Run, Category, CategoryEnd, CategoryWeight, Pow2, Grows;
      ghost var synced := dec.Expects(Category(st0, w2) + rest);
      GrowsNot(dec.trace, st0, 15);
      ghost var i, v2, ds := i0, w2, Category(st0, w2) + rest;
      m, st := m0, st0;
      CategoryUnroll(st, m, v2);
      var more := dec.Next(st, ds);
      GrowsOn(old(dec.trace), old(dec.trace), Decision(st, more), st0, 15);
      ds := Tail(ds);
      while more == 1
        invariant Ready() && Grows(old(dec.trace), dec.trace, st0, 15)
        invariant i0 <= i <= 14 && m0 <= m == Pow2(i) && st == st0 + (i - i0)
        invariant synced ==>
                  && CategoryWeight(m, v2) == CategoryWeight(m0, w2) && CategoryEnd(st, v2) == CategoryEnd(st0, w2)
                  && dec.Expects(ds) && if v2 == 0 then more == 0 && ds == rest
                                        else more == 1 && ds == Category(st + 1, v2 / 2) + rest
        decreases 15 - i
      {
        CategoryUnroll(st, m, v2);
        m, i := 2 * m, i + 1;
        PowersBelow(i);
        if m == 0x8000 {
          return false, 0, 0;
        }
        st := st + 1;
        v2 := v2 / 2;
        CategoryUnroll(st, m, v2);
        ghost var t := dec.trace;
        more := dec.Next(st, ds);
        GrowsOn(old(dec.trace), t, Decision(st, more), st0, 15);
        ds := Tail(ds);
      }
      CategoryUnroll(st, m, v2);
      PowersBelow(i);
      ok := true;
    }

    /** The segment codes the bits of w below its highest one, of weight m0, then rest. */
    ghost predicate ExpectsPattern(st: nat, m0: nat, w: nat, rest: seq<Decision>)
      reads dec
    {
      TopBit(w) == m0 && dec.Expects(Pattern(st, m0, w) + rest)
    }

    /** Decodes the bits of w below the one of weight m0. */
    method DecodePattern(st: nat, m0: nat, ghost w: nat, ghost rest: seq<Decision>) returns (v: nat)
      requires Ready() && st < ALL_BINS
      modifies dec
      ensures Ready()
      ensures v < 2 * m0 || v == m0 == 0
      ensures Grows(old(dec.trace), dec.trace, st, 1)
      ensures old(ExpectsPattern(st, m0, w, rest)) ==> v == w && dec.Expects(rest)
    {
      hide Decoder.Valid, Decoder.Expects, Run, Pattern, BitAt, Halving, TopBit, FloorTo, Grows;
      GrowsNot(dec.trace, st, 1);
      ghost var synced := ExpectsPattern(st, m0, w, rest);
      ghost var ds, q := Pattern(st, m0, w) + rest, m0;
      v := m0;
      PatternUnroll(st, m0, w);
      FloorTopBit(w);
      var m: nat := m0 / 2;
      while m != 0
        invariant Ready() && Grows(old(dec.trace), dec.trace, st, 1)
        invariant v + (if m == 0 then 1 else 2 * m) <= 2 * m0 || v == m == m0 == 0
        invariant synced ==> Halving(q) && m == q / 2 && v == FloorTo(w, q)
        invariant synced ==> dec.Expects(ds) && ds == Pattern(st, 2 * m, w) + rest
      {
        PatternUnroll(st, m, w);
        ghost var t := dec.trace;
        var one := dec.Next(st, ds);
        GrowsOn(old(dec.trace), t, Decision(st, one), st, 1);
        ds := Tail(ds);
        if synced {
          assert ds == Pattern(st, m, w) + rest && one == BitAt(w, m);
          FloorHalf(w, q);
          q := q / 2;
        }
        if one == 1 {
          v := v + m;  // the bit of weight m is still clear in v
        }
        m := m / 2;
      }
      PatternUnroll(st, 2 * m, w);
      assert [] + rest == rest;
      FloorEnd(w, q);
    }

    /** Decodes a DC magnitude w; fails exactly when w has more than 15 bits. */
    method DecodeDcMagnitude(sp: nat, x1: nat, ghost area: nat, ghost w: nat, ghost rest: seq<Decision>)
      returns (ok: bool, m: nat, v: nat)
      requires Ready() && area <= sp <= area + 19 && x1 == area + 20 && area + DC_STAT_BINS < ALL_BINS
      modifies dec
      ensures Ready()
      ensures ok ==> v < 0x1_0000
      ensures Grows(old(dec.trace), dec.trace, area, DC_STAT_BINS)
      ensures old(dec.Expects(DcMagnitude(sp, x1, w) + rest)) && w < 0x1_0000 ==>
              && (ok <==> w < 0x8000)
              && (ok ==> m == TopBit(w) && v == w && dec.Expects(rest))
    {
      hide Decoder.Valid, Decoder.Expects, Run, Pattern, Category, CategoryEnd, CategoryWeight, Pow2, Grows;
      ghost var start := dec.trace;
      GrowsNot(start, area, DC_STAT_BINS);
      ghost var p := Pattern(DcCategoryEnd(sp, x1, w) + 14, TopBit(w), w) + rest;
      assert DcMagnitude(sp, x1, w) + rest == DcCategory(sp, x1, w) + p;
      assert DcCategory(sp, x1, w) + p
          == if w == 0 then [Decision(sp, 0)] + p else [Decision(sp, 1)] + (Category(x1, w / 2) + p);
      if w < 0x1_0000 {
        DcReach(sp, x1, w);
      }
      TopBitRange(w, 15);
      PowersBelow(0);
      assert Pow2(0) == 1 by { Pow2Constants(); }
      m := dec.Next(sp, DcCategory(sp, x1, w) + p);
      GrowsOn(start, start, Decision(sp, m), area, DC_STAT_BINS);
      var st := sp;
      if m != 0 {
        ghost var t := dec.trace;
        ok, m, st := DecodeCategory(x1, 1, 0, w / 2, p);
        GrowsTwice(start, t, dec.trace, area, DC_STAT_BINS, x1, 15);
        if !ok {
          return false, 0, 0;
        }
      }
      ghost var u := dec.trace;
      v := DecodePattern(st + 14, m, w, rest);
      GrowsTwice(start, u, dec.trace, area, DC_STAT_BINS, st + 14, 1);
      ok := true;
    }

    /** Decodes an AC magnitude w; fails exactly when w has more than 15 bits. */
    method DecodeAcMagnitude(sp: nat, x2: nat, ghost area: nat, ghost w: nat, ghost rest: seq<Decision>)
      returns (ok: bool, v: nat)
      requires Ready() && area <= sp <= area + 188 && area + 189 <= x2 <= area + 217 && area + AC_STAT_BINS <= FIXED_BIN
      modifies dec
      ensures Ready()
      ensures ok ==> v < 0x1_0000
      ensures Grows(old(dec.trace), dec.trace, area, AC_STAT_BINS)
      ensures old(dec.Expects(AcMagnitude(sp, x2, w) + rest)) && w < 0x8000 ==>
              ok && v == w && dec.Expects(rest)
    {
      hide Decoder.Valid, Decoder.Expects, Run, Pattern, Category, CategoryEnd, CategoryWeight, Pow2;
      hide AcMagnitude, AcCategory, Grows;
      ghost var start := dec.trace;
      GrowsNot(start, area, AC_STAT_BINS);
      ghost var p := Pattern(AcCategoryEnd(sp, x2, w) + 14, TopBit(w), w) + rest;
      ghost var ds := AcMagnitude(sp, x2, w) + rest;
      AcMagnitudeHead(sp, x2, w, rest);
      if w < 0x8000 {
        AcReach(sp, x2, w);
      }
      TopBitRange(w, 15);
      PowersBelow(1);
      assert Pow2(1) == 2 by { Pow2Constants(); }
      var m: nat := dec.Next(sp, ds);
      GrowsOn(start, start, Decision(sp, m), area, AC_STAT_BINS);
      var st := sp;
      if m != 0 {
        ghost var t := dec.trace;
        var more := dec.Next(st, Tail(ds));
        GrowsOn(start, t, Decision(st, more), area, AC_STAT_BINS);
        if more != 0 {
          t := dec.trace;
          ok, m, st := DecodeCategory(x2, 2, 1, w / 2 / 2, p);
          GrowsTwice(start, t, dec.trace, area, AC_STAT_BINS, x2, 15);
          if !ok {
            return false, 0;
          }
        }
      }
      ghost var u := dec.trace;
      v := DecodePattern(st + 14, m, w, rest);
      GrowsTwice(start, u, dec.trace, area, AC_STAT_BINS, st + 14, 1);
      ok := true;
    }

    /** Decodes sign and magnitude of a nonzero DC difference, and the context it establishes. */
    method DecodeDcNonzero(st: nat, area: nat, comp: Component, ghost diff: int, ghost rest: seq<Decision>)
      returns (ok: bool, v: int, c: nat)
      requires Ready() && area <= st <= area + 16 && area + DC_STAT_BINS < ALL_BINS
      modifies dec
      ensures Ready() && Grows(old(dec.trace), dec.trace, area, DC_STAT_BINS)
      ensures ok ==> IsContext(c)
      ensures diff != 0 && -0x1_0000 <= diff <= 0x1_0000 && old(dec.Expects(NonzeroDc(st, area, diff, rest))) ==>
              && (ok <==> Codable(diff))
              && (ok ==> v == diff && c == DcContext(comp, diff) && dec.Expects(rest))
    {
      hide Decoder.Valid, Decoder.Expects, Run, DcMagnitude, Pow2, TopBit, Grows;
      ghost var start := dec.trace;
      GrowsNot(start, area, DC_STAT_BINS);
      ghost var w: nat := if diff == 0 then 0 else Magnitude(diff) - 1;
      var sign: nat := dec.Next(st + 1, [Decision(st + 1, SignBit(diff))]
                                        + (DcMagnitude(st + 2 + SignBit(diff), area + 20, w) + rest));
      GrowsOn(start, start, Decision(st + 1, sign), area, DC_STAT_BINS);
      ghost var t := dec.trace;
      var m;
      ok, m, v := DecodeDcMagnitude(st + 2 + sign, area + 20, area, w, rest);
      GrowsTwice(start, t, dec.trace, area, DC_STAT_BINS, area, DC_STAT_BINS);
      if !ok {
        return false, 0, 0;
      }
      c := if m < Pow2(comp.dcL) / 2 then 0
           else if m > Pow2(comp.dcU) / 2 then 12 + sign * 4
           else 4 + sign * 4;
      v := v + 1;
      if sign == 1 {
        v := -v;
      }
    }

    /** The segment codes the difference v of component ci, then rest. */
    ghost predicate ExpectsDc(ci: nat, v: int, rest: seq<Decision>)
      requires ci < |scan.components| == |context|
      reads this, dec
    {
      dec.Expects(DcDecisions(DcArea(scan.components[ci]), context[ci], v) + rest)
    }

    /** Decodes a DC difference and updates prediction and context; v is the difference the segment may be coding. */
    method DecodeDc(ci: nat, ghost v: int, ghost rest: seq<Decision>) returns (ok: bool)
      requires Ready() && Valid() && ci < |scan.components|
      modifies this, dec
      ensures Ready() && Valid()
      ensures Grows(old(dec.trace), dec.trace, DcArea(scan.components[ci]), DC_STAT_BINS)
      ensures old(ExpectsDc(ci, v, rest)) && -0x1_0000 <= v <= 0x1_0000 ==>
              && (ok <==> Codable(v))
              && (ok ==> && last == old(last)[ci := old(last)[ci] + v]
                         && context == old(context)[ci := DcContext(scan.components[ci], v)]
                         && dec.Expects(rest))
    {
      hide Decoder.Valid, Decoder.Expects, Run, DcDecisions, DcMagnitude, NonzeroDc, Pow2, TopBit, Grows;
      var comp := scan.components[ci];
      var area := comp.dcTbl * DC_STAT_BINS;
      var st := area + context[ci];
      assert area + DC_STAT_BINS <= AC_AREA && IsContext(context[ci]);
      hide ValidScan;
      ghost var ds := DcDecisions(area, context[ci], v) + rest;
      DcHead(area, context[ci], v, rest);
      ghost var start := dec.trace;
      GrowsNot(start, area, DC_STAT_BINS);
      var nonzero := dec.Next(st, ds);
      GrowsOn(start, start, Decision(st, nonzero), area, DC_STAT_BINS);
      var diff, c := 0, 0;
      if nonzero != 0 {
        ghost var t := dec.trace;
        ok, diff, c := DecodeDcNonzero(st, area, comp, v, rest);
        GrowsTwice(start, t, dec.trace, area, DC_STAT_BINS, area, DC_STAT_BINS);
        if !ok {
          return false;
        }
      }
      last := last[ci := last[ci] + diff];
      context := context[ci := c];
      ok := true;
    }

    /** Decodes sign and magnitude of the nonzero coefficient at position k; v is what the segment may be coding. */
    method DecodeAcCoefficient(sp: nat, area: nat, acK: nat, k: nat, ghost v: Coef, ghost rest: seq<Decision>)
      returns (ok: bool, val: Coef)
      requires Ready() && area <= sp <= area + 188 && area + AC_STAT_BINS <= FIXED_BIN
      modifies dec
      ensures Ready() && GrowsAc(old(dec.trace), dec.trace, area)
      ensures v != 0
              && old(dec.Expects([Decision(FIXED_BIN, SignBit(v))]
                                 + (AcMagnitude(sp, X2(area, acK, k), Magnitude(v) - 1) + rest))) ==>
              ok && val == v && dec.Expects(rest)
    {
      hide Decoder.Valid, Decoder.Expects, Run, AcMagnitude, Grows, GrowsAc;
      ghost var start := dec.trace;
      GrowsAcNot(start, area);
      ghost var w: nat := if v == 0 then 0 else Magnitude(v) - 1;
      var x2 := if k <= acK then area + 189 else area + 217;
      var sign := dec.Next(FIXED_BIN, [Decision(FIXED_BIN, SignBit(v))] + (AcMagnitude(sp, x2, w) + rest));
      GrowsAcOn(start, start, Decision(FIXED_BIN, sign), area);
      ghost var t := dec.trace;
      var m;
      ok, m := DecodeAcMagnitude(sp, x2, area, w, rest);
      GrowsAcInside(start, t, dec.trace, area);
      m := m + 1;
      val := ToCoef(if sign == 1 then -(m as int) else m);
    }

    /** The segment goes on with the coefficients of z behind position k0, then rest. */
    ghost predicate ExpectsZeros(area: nat, acK: nat, z: seq<Coef>, k0: nat, ke: nat, rest: seq<Decision>)
      reads dec
    {
      && k0 < ke < |z| == scan.limSe + 1 && z[ke] != 0
      && dec.Expects(AcScan(area, acK, z, k0 + 1, ke) + rest)
    }

    /** Between k0 and k there are only zeros, and the last nonzero coefficient of z, at ke, is not before k. */
    predicate Gap(z: seq<Coef>, k0: nat, k: nat, ke: nat) {
      k0 < k <= ke < |z| && z[ke] != 0 && forall j :: k0 < j < k ==> z[j] == 0
    }

    /** The next nonzero coefficient of z behind k0 stands at k, and the segment goes on with its sign. */
    ghost predicate ZerosRead(area: nat, acK: nat, z: seq<Coef>, k0: nat, k: nat, ke: nat, rest: seq<Decision>)
      reads dec
    {
      && Gap(z, k0, k, ke) && z[k] != 0 && dec.Expects(Coefficient(area, acK, z, k, ke, rest))
    }

    /** The decision found has been read at position k. */
    ghost predicate AtZero(area: nat, acK: nat, z: seq<Coef>, k0: nat, k: nat, ke: nat, rest: seq<Decision>, found: bit)
      reads dec
    {
      && Gap(z, k0, k, ke) && dec.Expects(AfterScan(area, acK, z, k, ke, rest))
      && (found == 0 <==> z[k] == 0) && (z[k] == 0 ==> k < ke)
    }

    /** Reads the zero decision of position k. */
    method NextZero(area: nat, k: nat, ghost acK: nat, ghost z: seq<Coef>, ghost k0: nat, ghost ke: nat,
        ghost rest: seq<Decision>, ghost synced: bool)
      returns (found: bit)
      requires Ready() && 1 <= k < DCTSIZE2 && area + AC_STAT_BINS <= FIXED_BIN
      requires synced ==> Gap(z, k0, k, ke) && dec.Expects(AcScan(area, acK, z, k, ke) + rest)
      modifies dec
      ensures Ready() && Grows(old(dec.trace), dec.trace, area, AC_STAT_BINS)
      ensures synced ==> AtZero(area, acK, z, k0, k, ke, rest, found)
    {
      hide Decoder.Valid, Decoder.Expects, Run, AcScan, Coefficient, AfterScan, Grows;
      ghost var start := dec.trace;
      GrowsNot(start, area, AC_STAT_BINS);
      if synced {
        AcScanHead(area, acK, z, k, ke, rest);
      }
      found := dec.Next(area + 3 * (k - 1) + 1, if synced then AcScan(area, acK, z, k, ke) + rest else []);
      GrowsOn(start, start, Decision(area + 3 * (k - 1) + 1, found), area, AC_STAT_BINS);
    }

    /** Decodes zero decisions from position k0 + 1 on; fails when they run past the end of the block. */
    method DecodeZeroRun(area: nat, k0: nat, ghost acK: nat, ghost z: seq<Coef>, ghost ke: nat,
        ghost rest: seq<Decision>)
      returns (ok: bool, k: nat)
      requires Ready() && k0 < scan.limSe < DCTSIZE2 && area + AC_STAT_BINS <= FIXED_BIN
      modifies dec
      ensures Ready() && Grows(old(dec.trace), dec.trace, area, AC_STAT_BINS)
      ensures ok ==> k0 < k <= scan.limSe
      ensures old(ExpectsZeros(area, acK, z, k0, ke, rest)) ==> ok && ZerosRead(area, acK, z, k0, k, ke, rest)
    {
      hide Decoder.Valid, Decoder.Expects, Run, AcScan, Coefficient, AfterScan, Grows;
      ghost var start := dec.trace;
      ghost var synced := ExpectsZeros(area, acK, z, k0, ke, rest);
      k := k0 + 1;
      var found := NextZero(area, k, acK, z, k0, ke, rest, synced);
      while found == 0
        invariant Ready() && Grows(start, dec.trace, area, AC_STAT_BINS) && k0 < k <= scan.limSe
        invariant synced ==> ke <= scan.limSe && AtZero(area, acK, z, k0, k, ke, rest, found)
        decreases scan.limSe - k
      {
        if k >= scan.limSe {
          return false, 0;
        }
        if synced {
          AfterZero(area, acK, z, k, ke, rest);
        }
        k := k + 1;
        ghost var t := dec.trace;
        found := NextZero(area, k, acK, z, k0, ke, rest, synced);
        GrowsTwice(start, t, dec.trace, area, AC_STAT_BINS, area, AC_STAT_BINS);
      }
      if synced {
        AfterNonzero(area, acK, z, k, ke, rest);
      }
      ok := true;
    }

    /** The AC positions of a block up to k hold the coefficients z, later ones are still zero. */
    ghost predicate FilledTo(blk: array<Coef>, z: seq<Coef>, k: nat)
      requires ValidScan(scan) && blk.Length == DCTSIZE2 && k < |z| <= DCTSIZE2
      reads blk
    {
      forall j :: 1 <= j < DCTSIZE2 ==> blk[scan.order[j]] == if j <= k then z[j] else 0
    }

    /** Stores the coefficient of zigzag position k in natural order. */
    method Store(blk: array<Coef>, k: nat, v: Coef, ghost z: seq<Coef>, ghost k0: nat, ghost synced: bool)
      requires ValidScan(scan) && blk.Length == DCTSIZE2 && k0 < k <= scan.limSe
      requires synced ==> |z| == scan.limSe + 1 && FilledTo(blk, z, k0) && v == z[k] && forall j :: k0 < j < k ==>
        z[j] == 0
      modifies blk
      ensures blk[0] == old(blk[0])
      ensures synced ==> FilledTo(blk, z, k)
    {
      blk[scan.order[k]] := v;
    }

    /** The block has ended: its AC positions up to ke hold z, and the segment goes on with rest. */
    ghost predicate Ended(blk: array<Coef>, z: seq<Coef>, ke: nat, rest: seq<Decision>)
      reads dec, blk
    {
      ValidScan(scan) && blk.Length == DCTSIZE2 && ke < |z| == scan.limSe + 1 && FilledTo(blk, z, ke)
        && dec.Expects(rest)
    }

    /** Decodes up to the next coefficient, or finds that there is none. */
    method DecodeNextAc(blk: array<Coef>, area: nat, acK: nat, k0: nat, ghost z: seq<Coef>, ghost ke: nat,
                        ghost rest: seq<Decision>, ghost synced: bool)
      returns (ok: bool, eob: bool, k: nat)
      requires Ready() && ValidScan(scan) && blk.Length == DCTSIZE2 && k0 < scan.limSe
        && area + AC_STAT_BINS <= FIXED_BIN
      requires synced ==> AcUpTo(blk, area, acK, z, k0, ke, rest)
      modifies dec, blk
      ensures Ready() && blk[0] == old(blk[0]) && GrowsAc(old(dec.trace), dec.trace, area)
      ensures k0 <= k <= scan.limSe && (ok && !eob ==> k0 < k)
      ensures synced ==> ok && if eob then Ended(blk, z, ke, rest) else AcUpTo(blk, area, acK, z, k, ke, rest)
    {
      hide Decoder.Valid, Decoder.Expects, Run, AcFrom, AcScan, Coefficient, AcMagnitude, X2, SignBit, Grows, GrowsAc,
        FilledTo, IsOrder;
      ghost var start := dec.trace;
      k := k0;
      GrowsAcNot(start, area);
      if synced {
        AcFromHead(area, acK, z, k, ke, rest);
      }
      var end := dec.Next(area + 3 * k, if synced then AcFrom(area, acK, z, k, ke) + rest else []);
      GrowsAcOn(start, start, Decision(area + 3 * k, end), area);
      if end == 1 {
        return true, true, k;
      }
      ghost var t := dec.trace;
      var next;
      ok, next := DecodeZeroRun(area, k, acK, z, ke, rest);
      GrowsAcInside(start, t, dec.trace, area);
      if !ok {
        return false, false, k;
      }
      k := next;
      if synced {
        CoefficientParts(area, acK, z, k, ke, rest);
      }
      t := dec.trace;
      var v;
      ok, v := DecodeAcCoefficient(area + 3 * (k - 1) + 2, area, acK, k, if synced then z[k] else 0,
                                   if synced then AcFrom(area, acK, z, k, ke) + rest else []);
      GrowsAcTwice(start, t, dec.trace, area);
      if ok {
        Store(blk, k, v, z, k0, synced);
      }
      eob := false;
    }

    /** The AC coefficients of a block are zero. */
    ghost predicate NoAc(blk: array<Coef>)
      reads blk
    {
      ValidScan(scan) && blk.Length == DCTSIZE2 && FilledTo(blk, [0], 0)
    }

    /** The AC coefficients of a block are those of want that the scan codes. */
    ghost predicate HoldsAc(blk: array<Coef>, want: Block)
      reads blk
    {
      ValidScan(scan) && blk.Length == DCTSIZE2 && FilledTo(blk, Zigzag(scan, want), scan.limSe)
    }

    ghost predicate ExpectsAc(ci: nat, want: Block, rest: seq<Decision>)
      reads dec
    {
      hide ValidScan;
      ValidScan(scan) && ci < |scan.components| && dec.Expects(AcDecisions(scan, scan.components[ci], want) + rest)
    }

    /** The AC positions up to k have been decoded, and the segment goes on behind them. */
    ghost predicate AcUpTo(blk: array<Coef>, area: nat, acK: nat, z: seq<Coef>, k: nat, ke: nat, rest: seq<Decision>)
      reads dec, blk
    {
      && ExpectsEnd(area, acK, z, k, ke, rest)
      && ValidScan(scan) && blk.Length == DCTSIZE2 && |z| == scan.limSe + 1 && FilledTo(blk, z, k)
    }

    /** The segment goes on with the end-of-block decision of position k. */
    ghost predicate ExpectsEnd(area: nat, acK: nat, z: seq<Coef>, k: nat, ke: nat, rest: seq<Decision>)
      reads dec
    {
      k <= ke < |z| && (ke > 0 ==> z[ke] != 0) && dec.Expects(AcFrom(area, acK, z, k, ke) + rest)
    }

    /** Decodes the AC coefficients into a block that is zero there; want is what the segment may be coding. */
    method DecodeAc(ci: nat, blk: array<Coef>, ghost want: Block, ghost rest: seq<Decision>) returns (ok: bool)
      requires Ready() && Valid() && ci < |scan.components| && NoAc(blk)
      modifies dec, blk
      ensures Ready() && blk[0] == old(blk[0]) && GrowsAc(old(dec.trace), dec.trace, AcArea(scan.components[ci]))
      ensures old(ExpectsAc(ci, want, rest)) ==> ok && HoldsAc(blk, want) && dec.Expects(rest)
    {
      hide Decoder.Valid, Decoder.Expects, Run, AcFrom, EndOfBlock, GrowsAc, FilledTo, AcDecisions, AcUpTo, Ended,
        IsOrder;
      ghost var start, z := dec.trace, Zigzag(scan, want);
      ghost var synced := ExpectsAc(ci, want, rest);
      GrowsAcNot(start, AcArea(scan.components[ci]));
      if scan.limSe == 0 {
        NothingToDecode(ci, blk, want, rest);
        return true;
      }
      ghost var ke := EndOfBlock(z, scan.limSe);
      var acK := scan.components[ci].acK;
      var area := AC_AREA + scan.components[ci].acTbl * AC_STAT_BINS;
      assert area + AC_STAT_BINS <= FIXED_BIN;
      StartAc(ci, blk, want, rest);
      var k: nat, eob := 0, false;
      while k < scan.limSe
        invariant Ready() && blk[0] == old(blk[0]) && GrowsAc(start, dec.trace, area) && k <= scan.limSe
        invariant synced ==> AcUpTo(blk, area, acK, z, k, ke, rest)
      {
        ghost var t := dec.trace;
        ok, eob, k := DecodeNextAc(blk, area, acK, k, z, ke, rest, synced);
        GrowsAcTwice(start, t, dec.trace, area);
        if !ok || eob {
          EndedHolds(blk, want, rest);
          return;
        }
      }
      if synced {
        LastIsEnd(blk, area, acK, z, ke, rest);
      }
      EndedHolds(blk, want, rest);
      ok := true;
    }

    lemma NothingToDecode(ci: nat, blk: array<Coef>, want: Block, rest: seq<Decision>)
      requires scan.limSe == 0 && NoAc(blk) && ci < |scan.components|
      ensures ExpectsAc(ci, want, rest) ==> HoldsAc(blk, want) && dec.Expects(rest)
    {
      hide Decoder.Expects;
      assert AcDecisions(scan, scan.components[ci], want) + rest == rest;
    }

    lemma StartAc(ci: nat, blk: array<Coef>, want: Block, rest: seq<Decision>)
      requires scan.limSe > 0 && NoAc(blk) && ci < |scan.components|
      ensures ExpectsAc(ci, want, rest) ==>
                AcUpTo(blk, AcArea(scan.components[ci]), scan.components[ci].acK, Zigzag(scan, want), 0,
                       EndOfBlock(Zigzag(scan, want), scan.limSe), rest)
    {
      hide Decoder.Expects, AcFrom;
    }

    /** Behind the last nonzero coefficient there are only zeros. */
    lemma EndedHolds(blk: array<Coef>, want: Block, rest: seq<Decision>)
      requires ValidScan(scan)
      ensures Ended(blk, Zigzag(scan, want), EndOfBlock(Zigzag(scan, want), scan.limSe), rest) ==>
                HoldsAc(blk, want) && dec.Expects(rest)
    {
      hide Decoder.Expects;
    }

    /** A coefficient at the last position ends the block. */
    lemma LastIsEnd(blk: array<Coef>, area: nat, acK: nat, z: seq<Coef>, ke: nat, rest: seq<Decision>)
      requires AcUpTo(blk, area, acK, z, scan.limSe, ke, rest)
      ensures Ended(blk, z, ke, rest)
    {
      hide Decoder.Expects, AcFrom;
      AcFromHead(area, acK, z, scan.limSe, ke, rest);
    }

    /** The decoder has given up on the segment. */
    ghost predicate Failed()
      reads dec
    {
      dec.ct == -1 && OnCourse(dec.src, dec.first, dec.pos, dec.unreadMarker)
    }

    ghost predicate At(s: DcState)
      reads this
    {
      last == s.last && context == s.context
    }

    ghost predicate IsZeroed(blk: array<Coef>)
      requires ValidScan(scan)
      reads blk
    {
      blk.Length == DCTSIZE2 && FilledTo(blk, [0], 0)
    }

    /** A block holds the coefficients of want that the scan codes, and zeros elsewhere. */
    ghost predicate Holds(blk: array<Coef>, want: Block)
      requires ValidScan(scan)
      reads blk
    {
      blk.Length == DCTSIZE2 && blk[0] == want[0] && FilledTo(blk, Zigzag(scan, want), scan.limSe)
    }

    ghost predicate ExpectsBlock(s: DcState, ci: nat, want: Block, rest: seq<Decision>)
      requires ValidScan(scan) && ValidDc(scan, s) && ci < |scan.components|
      reads dec
    {
      dec.Expects(BlockDecisions(scan, s, ci, want) + rest)
    }

    /** Decodes one block; want is what the segment may be coding. */
    method DecodeBlock(ci: nat, blk: array<Coef>, ghost s: DcState, ghost want: Block, ghost rest: seq<Decision>)
      returns (ok: bool)
      requires Ready() && Valid() && ValidDc(scan, s) && ci < |scan.components| && IsZeroed(blk)
      modifies this, dec, blk
      ensures Ready() && Valid() && GrowsIn(scan, old(dec.trace), dec.trace)
      ensures old(At(s)) && old(ExpectsBlock(s, ci, want, rest)) ==>
              && (ok <==> Codable(Difference(want[0], s.last[ci])))
              && (ok ==> Holds(blk, want) && At(NextDc(scan, s, ci, want)) && dec.Expects(rest))
    {
      hide Decoder.Valid, Decoder.Expects, Run, AcDecisions, DcDecisions, DcContext, ValidScan, Grows, GrowsAc, GrowsIn,
        FilledTo;
      ghost var start := dec.trace;
      ghost var v := Difference(want[0], s.last[ci]);
      ghost var ac := AcDecisions(scan, scan.components[ci], want) + rest;
      assert BlockDecisions(scan, s, ci, want) + rest
          == DcDecisions(DcArea(scan.components[ci]), s.context[ci], v) + ac;
      ok := DecodeDc(ci, v, ac);
      GrowsInDc(scan, ci, start, dec.trace);
      if !ok {
        return;
      }
      SetDc(blk, last[ci]);
      ghost var t := dec.trace;
      ok := DecodeAc(ci, blk, want, rest);
      GrowsInAc(scan, ci, t, dec.trace);
      GrowsInTwice(scan, start, t, dec.trace);
    }

    method SetDc(blk: array<Coef>, v: int)
      requires ValidScan(scan) && IsZeroed(blk)
      modifies blk
      ensures IsZeroed(blk) && blk[0] == ToCoef(v)
    {
      blk[0] := ToCoef(v);
    }

    ghost predicate Blocks(mcu: seq<array<Coef>>)
      requires ValidScan(scan)
    {
      && |mcu| == |scan.membership|
      && (forall n :: 0 <= n < |mcu| ==> mcu[n].Length == DCTSIZE2)
      && forall m, n :: 0 <= m < n < |mcu| ==> mcu[m] != mcu[n]
    }

    /** The blocks are zeroed, and s and want have the shape of the scan. */
    ghost predicate Prepared(mcu: seq<array<Coef>>, s: DcState, want: seq<Block>)
      reads this, mcu
    {
      && Valid() && ValidDc(scan, s) && Blocks(mcu) && IsMcu(scan, want)
      && forall n :: 0 <= n < |mcu| ==> IsZeroed(mcu[n])
    }

    /** The state is s and the segment codes the MCU want under it from block n on, then rest. */
    ghost predicate Synced(s: DcState, want: seq<Block>, n: nat, rest: seq<Decision>)
      requires ValidScan(scan) && ValidDc(scan, s) && IsMcu(scan, want) && n <= |want|
      reads this, dec
    {
      Ready() && At(s) && dec.Expects(McuDecisions(scan, s, want, n) + rest)
    }

    predicate Shaped(s: DcState, want: seq<Block>) {
      ValidScan(scan) && ValidDc(scan, s) && IsMcu(scan, want)
    }

    ghost predicate AllHold(mcu: seq<array<Coef>>, want: seq<Block>)
      requires ValidScan(scan)
      reads mcu
    {
      |mcu| == |want| && forall n :: 0 <= n < |mcu| ==> Holds(mcu[n], want[n])
    }

    /** The MCU want has come out and the segment codes rest from here on. */
    ghost predicate Decoded(mcu: seq<array<Coef>>, s: DcState, want: seq<Block>, rest: seq<Decision>)
      requires Shaped(s, want)
      reads this, dec, mcu
    {
      Ready() && At(McuDc(scan, s, want, 0)) && dec.Expects(rest) && AllHold(mcu, want)
    }

    /** The state is s and the segment codes the MCU want, then rest. */
    ghost predicate ExpectsMcu(s: DcState, want: seq<Block>, rest: seq<Decision>)
      reads this, dec
    {
      Shaped(s, want) && Synced(s, want, 0, rest)
    }

    /** An MCU with every DC difference in reach has come out; at any other the decoder has given up. */
    ghost predicate CameOut(mcu: seq<array<Coef>>, s: DcState, want: seq<Block>, rest: seq<Decision>)
      reads this, dec, mcu
    {
      && Shaped(s, want) && |mcu| == |want|
      && if McuCodable(scan, s, want, 0) then Decoded(mcu, s, want, rest) else Failed()
    }

    /**
     * Decodes one MCU into zeroed blocks.  Of an MCU the segment codes, exactly those with every DC difference
     * within 32768 in magnitude come out, and they come out unchanged; the others make the decoder give up.
     * A decoder that has given up does nothing. Whatever the data, only bins of the tables of the scan's components are
     * read.
     */
    method DecodeMcu(mcu: seq<array<Coef>>, ghost s: DcState, ghost want: seq<Block>, ghost rest: seq<Decision>)
      requires Prepared(mcu, s, want) && (Ready() || Failed())
      modifies this, dec, mcu
      ensures Valid() && (Ready() || Failed()) && GrowsIn(scan, old(dec.trace), dec.trace)
      ensures old(Failed()) ==> Failed() && forall n :: 0 <= n < |mcu| ==> mcu[n][..] == old(mcu[n][..])
      ensures old(ExpectsMcu(s, want, rest)) ==> CameOut(mcu, s, want, rest)
    {
      hide Decoder.Valid, Decoder.Expects, Run, GrowsIn, OnCourse;
      GrowsInNot(scan, dec.trace);
      if dec.ct == -1 {
        FailedIsNotReady();
      } else {
        DecodeBlocks(mcu, s, want, rest);
      }
    }

    /** Blocks before n have come out as in want and the segment codes the others under state now, then rest. */
    ghost predicate Tracks(mcu: seq<array<Coef>>, s: DcState, now: DcState, want: seq<Block>, n: nat,
        rest: seq<Decision>)
      requires ValidScan(scan) && ValidDc(scan, s) && ValidDc(scan, now) && IsMcu(scan, want) && n <= |mcu| == |want|
      reads this, dec, mcu
    {
      && Synced(now, want, n, rest)
      && McuDc(scan, now, want, n) == McuDc(scan, s, want, 0)
      && McuCodable(scan, now, want, n) == McuCodable(scan, s, want, 0)
      && forall m :: 0 <= m < n ==> Holds(mcu[m], want[m])
    }

    method DecodeNext(mcu: seq<array<Coef>>, n: nat, ghost s: DcState, ghost now: DcState, ghost want: seq<Block>,
                      ghost rest: seq<Decision>) returns (ok: bool, ghost next: DcState)
      requires Valid() && ValidDc(scan, s) && ValidDc(scan, now) && Blocks(mcu) && IsMcu(scan, want)
      requires n < |mcu| && IsZeroed(mcu[n]) && Ready()
      modifies this, dec, mcu[n]
      ensures Ready() && Valid() && ValidDc(scan, next) && GrowsIn(scan, old(dec.trace), dec.trace)
      ensures old(Tracks(mcu, s, now, want, n, rest)) ==>
              if ok then Tracks(mcu, s, next, want, n + 1, rest) else !McuCodable(scan, s, want, 0)
    {
      hide Decoder.Valid, Decoder.Expects, Run, Renorm, BlockDecisions, NextDc, Ready, At, Codable, Difference;
      hide McuDecisions, McuDc, McuCodable, Holds, FilledTo, GrowsIn;
      var ci := scan.membership[n];
      assert ValidScan(scan) && ci < |scan.components|;
      hide ValidScan, ValidDc, Valid;
      next := NextDc(scan, now, ci, want[n]);
      ghost var after := McuDecisions(scan, next, want, n + 1) + rest;
      McuUnroll(scan, now, want, n, rest);
      ok := DecodeBlock(ci, mcu[n], now, want[n], after);
    }

    method DecodeBlocks(mcu: seq<array<Coef>>, ghost s: DcState, ghost want: seq<Block>, ghost rest: seq<Decision>)
      requires Prepared(mcu, s, want) && Ready()
      modifies this, dec, mcu
      ensures Valid() && (Ready() || Failed()) && GrowsIn(scan, old(dec.trace), dec.trace)
      ensures old(ExpectsMcu(s, want, rest)) ==> CameOut(mcu, s, want, rest)
    {
      hide Decoder.Valid, Decoder.Expects, Run, BlockDecisions, NextDc, Ready, At, Codable, Difference, FilledTo,
        GrowsIn;
      ghost var start := dec.trace;
      GrowsInNot(scan, start);
      ghost var synced := Synced(s, want, 0, rest);
      ghost var now := s;
      for n := 0 to |mcu|
        invariant Ready() && Valid() && ValidDc(scan, now) && GrowsIn(scan, start, dec.trace)
        invariant forall m :: n <= m < |mcu| ==> IsZeroed(mcu[m])
        invariant synced ==> Tracks(mcu, s, now, want, n, rest)
      {
        hide Tracks, ValidDc, ValidScan;
        ghost var t := dec.trace;
        var ok;
        ok, now := DecodeNext(mcu, n, s, now, want, rest);
        GrowsInTwice(scan, start, t, dec.trace);
        if !ok {
          ReadyIsOnCourse();
          dec.ct := -1;
          return;
        }
      }
      assert synced ==> McuDecisions(scan, now, want, |mcu|) + rest == rest;
    }

    lemma FailedIsNotReady()
      requires dec.ct == -1
      ensures !Ready()
    {
      hide Run, Segment, OnCourse;
    }

    /** Whatever happens, the next marker is the one that ends the segment. */
    lemma ReadyIsOnCourse()
      requires Ready()
      ensures OnCourse(dec.src, dec.first, dec.pos, dec.unreadMarker) && dec.ct != -1
    {
      hide Run, Segment, OnCourse;
    }
  }

  lemma McuUnroll(scan: Scan, s: DcState, mcu: seq<Block>, n: nat, rest: seq<Decision>)
    requires ValidScan(scan) && ValidDc(scan, s) && IsMcu(scan, mcu) && n < |mcu|
    ensures var ci := scan.membership[n];
            var next := NextDc(scan, s, ci, mcu[n]);
            && McuDecisions(scan, s, mcu, n) + rest
               == BlockDecisions(scan, s, ci, mcu[n]) + (McuDecisions(scan, next, mcu, n + 1) + rest)
            && McuDc(scan, s, mcu, n) == McuDc(scan, next, mcu, n + 1)
            && (McuCodable(scan, s, mcu, n)
                <==> Codable(Difference(mcu[n][0], s.last[ci])) && McuCodable(scan, next, mcu, n + 1))
  {
    hide BlockDecisions, NextDc, Codable, Difference;
  }

  lemma AcFromHead(area: nat, acK: nat, z: seq<Coef>, k: nat, ke: nat, rest: seq<Decision>)
    requires k <= ke < |z| && (ke > 0 ==> z[ke] != 0)
    ensures var ds := AcFrom(area, acK, z, k, ke) + rest;
            && (k == |z| - 1 ==> ds == rest)
            && (k < |z| - 1 ==> ds != [] && ds[0] == Decision(area + 3 * k, if k < ke then 0 else 1)
                                && Tail(ds) == if k < ke then AcScan(area, acK, z, k + 1, ke) + rest else rest)
  {
    hide AcScan, AcFrom;
    AcUnroll(area, acK, z, k, ke);
    if k < ke {
      assert AcFrom(area, acK, z, k, ke) + rest
        == [Decision(area + 3 * k, 0)] + (AcScan(area, acK, z, k + 1, ke) + rest);
    } else if k < |z| - 1 {
      assert AcFrom(area, acK, z, k, ke) + rest == [Decision(area + 3 * k, 1)] + rest;
    } else {
      assert AcFrom(area, acK, z, k, ke) + rest == rest;
    }
  }

  lemma CoefficientParts(area: nat, acK: nat, z: seq<Coef>, k: nat, ke: nat, rest: seq<Decision>)
    requires 1 <= k <= ke < |z| && z[ke] != 0 && z[k] != 0
    ensures Coefficient(area, acK, z, k, ke, rest)
         == [Decision(FIXED_BIN, SignBit(z[k]))]
            + (AcMagnitude(area + 3 * (k - 1) + 2, X2(area, acK, k), Magnitude(z[k]) - 1)
               + (AcFrom(area, acK, z, k, ke) + rest))
  {
  }

  /** Sign and magnitude of the coefficient at position k, and what follows it. */
  ghost function Coefficient(area: nat, acK: nat, z: seq<Coef>, k: nat, ke: nat, rest: seq<Decision>): seq<Decision>
    requires 1 <= k <= ke < |z| && z[ke] != 0 && z[k] != 0
  {
    [Decision(FIXED_BIN, SignBit(z[k]))]
    + (AcMagnitude(area + 3 * (k - 1) + 2, X2(area, acK, k), Magnitude(z[k]) - 1)
       + (AcFrom(area, acK, z, k, ke) + rest))
  }

  /** What follows the zero decision of position k. */
  ghost function AfterScan(area: nat, acK: nat, z: seq<Coef>, k: nat, ke: nat, rest: seq<Decision>): seq<Decision>
    requires 1 <= k <= ke < |z| && z[ke] != 0
  {
    if z[k] == 0 then AcScan(area, acK, z, k + 1, ke) + rest else Coefficient(area, acK, z, k, ke, rest)
  }

  lemma AfterZero(area: nat, acK: nat, z: seq<Coef>, k: nat, ke: nat, rest: seq<Decision>)
    requires 1 <= k < ke < |z| && z[ke] != 0 && z[k] == 0
    ensures AfterScan(area, acK, z, k, ke, rest) == AcScan(area, acK, z, k + 1, ke) + rest
  {
  }

  lemma AfterNonzero(area: nat, acK: nat, z: seq<Coef>, k: nat, ke: nat, rest: seq<Decision>)
    requires 1 <= k <= ke < |z| && z[ke] != 0 && z[k] != 0
    ensures AfterScan(area, acK, z, k, ke, rest) == Coefficient(area, acK, z, k, ke, rest)
  {
  }

  lemma AcScanHead(area: nat, acK: nat, z: seq<Coef>, k: nat, ke: nat, rest: seq<Decision>)
    requires 1 <= k <= ke < |z| && z[ke] != 0
    ensures var ds := AcScan(area, acK, z, k, ke) + rest;
            && ds != [] && ds[0] == Decision(area + 3 * (k - 1) + 1, if z[k] == 0 then 0 else 1)
            && Tail(ds) == AfterScan(area, acK, z, k, ke, rest)
    ensures z[k] == 0 ==> k < ke
  {
    hide AcScan, AcFrom, AcMagnitude, X2, SignBit;
    AcUnroll(area, acK, z, k, ke);
    var st := area + 3 * (k - 1);
    if z[k] == 0 {
      assert AcScan(area, acK, z, k, ke) + rest
          == [Decision(st + 1, 0)] + (AcScan(area, acK, z, k + 1, ke) + rest);
    } else {
      assert AcScan(area, acK, z, k, ke) + rest
          == [Decision(st + 1, 1)] + Coefficient(area, acK, z, k, ke, rest);
    }
  }

  lemma AcMagnitudeHead(sp: nat, x2: nat, w: nat, rest: seq<Decision>)
    ensures var ds := AcMagnitude(sp, x2, w) + rest;
            var p := Pattern(AcCategoryEnd(sp, x2, w) + 14, TopBit(w), w) + rest;
            && ds != [] && ds[0] == Decision(sp, if w == 0 then 0 else 1)
            && (w == 0 ==> Tail(ds) == p)
            && (w > 0 ==> Tail(ds) != [] && Tail(ds)[0] == Decision(sp, if w == 1 then 0 else 1))
            && (w == 1 ==> Tail(Tail(ds)) == p)
            && (w > 1 ==> Tail(Tail(ds)) == Category(x2, w / 2 / 2) + p)
  {
    hide Pattern, Category, CategoryEnd, TopBit;
    var p := Pattern(AcCategoryEnd(sp, x2, w) + 14, TopBit(w), w) + rest;
    var ds := AcMagnitude(sp, x2, w) + rest;
    if w == 0 {
      assert ds == [Decision(sp, 0)] + p;
    } else if w == 1 {
      assert ds == [Decision(sp, 1)] + ([Decision(sp, 0)] + p);
    } else {
      assert ds == [Decision(sp, 1)] + ([Decision(sp, 1)] + (Category(x2, w / 2 / 2) + p));
    }
  }

  /** Sign and magnitude of a nonzero difference, and what follows it. */
  ghost function NonzeroDc(st: nat, area: nat, v: int, rest: seq<Decision>): seq<Decision>
    requires v != 0
  {
    [Decision(st + 1, SignBit(v))] + (DcMagnitude(st + 2 + SignBit(v), area + 20, Magnitude(v) - 1) + rest)
  }

  lemma DcHead(area: nat, context: nat, v: int, rest: seq<Decision>)
    ensures var ds := DcDecisions(area, context, v) + rest;
            && ds != [] && ds[0] == Decision(area + context, if v == 0 then 0 else 1)
            && Tail(ds) == if v == 0 then rest else NonzeroDc(area + context, area, v, rest)
  {
    hide DcDecisions, NonzeroDc, Tail;
    if v == 0 {
      DcZero(area, context, rest);
    } else {
      DcNonzero(area, context, v, rest);
    }
  }

  lemma DcZero(area: nat, context: nat, rest: seq<Decision>)
    ensures var ds := DcDecisions(area, context, 0) + rest;
            ds != [] && ds[0] == Decision(area + context, 0) && Tail(ds) == rest
  {
    hide DcMagnitude;
  }

  lemma DcNonzero(area: nat, context: nat, v: int, rest: seq<Decision>)
    requires v != 0
    ensures var ds := DcDecisions(area, context, v) + rest;
            ds != [] && ds[0] == Decision(area + context, 1) && Tail(ds) == NonzeroDc(area + context, area, v, rest)
  {
    hide DcMagnitude, Tail;
    var st := area + context;
    Regrouped(Decision(st, 1), Decision(st + 1, SignBit(v)),
              DcMagnitude(st + 2 + SignBit(v), area + 20, Magnitude(v) - 1), rest);
  }

  lemma Regrouped(a: Decision, b: Decision, ds: seq<Decision>, rest: seq<Decision>)
    ensures var all := [a, b] + ds + rest; all != [] && all[0] == a && Tail(all) == [b] + (ds + rest)
  {
  }

  /** A power of two, or the 0 that repeated halving ends in. */
  ghost predicate Halving(q: nat) {
    q == 0 || exists i: nat :: q == Pow2(i)
  }

  /** w with the bits below the one of weight q cleared. */
  function FloorTo(w: nat, q: nat): nat {
    if q == 0 then w else w / q * q
  }

  lemma FloorHalf(w: nat, q: nat)
    requires q >= 2 && Halving(q)
    ensures Halving(q / 2)
    ensures FloorTo(w, q / 2) == FloorTo(w, q) + BitAt(w, q / 2) * (q / 2)
  {
    var i: nat :| q == Pow2(i);
    assert q == 2 * Pow2(i - 1);
    HalveQuotient(w, q / 2);
  }

  lemma FloorEnd(w: nat, q: nat)
    ensures q < 2 ==> FloorTo(w, q) == w
  {
  }

  lemma FloorTopBit(w: nat)
    ensures Halving(TopBit(w)) && FloorTo(w, TopBit(w)) == TopBit(w)
  {
    TopBitPower(w);
    var m := TopBit(w);
    if w > 0 {
      QuotientOf(w, m, 1, w - m);
    }
  }

  lemma {:induction false} TopBitPower(w: nat)
    ensures Halving(TopBit(w))
  {
    if w == 1 {
      assert 1 == Pow2(0);
    } else if w > 1 {
      TopBitPower(w / 2);
      var i: nat :| TopBit(w / 2) == Pow2(i);
      assert TopBit(w) == Pow2(i + 1);
    }
  }

  lemma PowersBelow(i: nat)
    ensures i > 0 ==> Pow2(i) == 2 * Pow2(i - 1)
    ensures i <= 14 ==> Pow2(i) < 0x8000
    ensures Pow2(15) == 0x8000
  {
    Pow2Constants();
    assert Pow2(15) == 2 * Pow2(14);
    if i <= 14 {
      Pow2Monotone(i, 14);
    }
  }
}
