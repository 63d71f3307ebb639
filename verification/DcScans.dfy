/**
 * The DC scans of a progressive image (T.81, section G.1.2.1). The first one shifts the coefficients down by al and
 * codes them as a sequential scan without AC coefficients would; each further one adds a bit.
 */
module DcScans {
  import opened Integers
  import opened Words
  import opened Coefficients
  import opened HuffBitReader
  import opened HuffTokens
  import opened HuffBlocks
  import opened HuffSink
  import opened HuffReader
  import opened RefineDecoding

  // ---------------------------------------------------------------------------------------------
  // Coefficients without their low bits
  // ---------------------------------------------------------------------------------------------

  /** Arithmetic right shift. */
  function DcShifted(v: Coef, al: nat): (q: Coef)
    requires al <= 13
  {
    ShiftRange(v, al);
    v / Pow2(al)
  }

  /** A DC coefficient without its al low bits. */
  function DcAt(v: Coef, al: nat): (w: Coef)
    requires al <= 13
  {
    ShiftRange(v, al);
    v / Pow2(al) * Pow2(al)
  }

  lemma ShiftRange(v: Coef, al: nat)
    requires al <= 13
    ensures -0x8000 <= v / Pow2(al) < 0x8000 && -0x8000 <= v / Pow2(al) * Pow2(al) < 0x8000
  {
    hide Pow2;
    var p := Pow2(al);
    var q := v / p;
    assert v == p * q + v % p;
    UnitsInWord(al);
    var u := Pow2(15 - al);
    LowerMultiple(q, u, p);
    if q >= 1 {
      AtLeast(q, p);
    } else {
      AtLeast(0 - q, p);
    }
  }

  lemma LowerMultiple(q: int, u: int, p: int)
    requires p > 0 && u * p == 0x8000 && q * p > -0x8000 - p
    ensures q * p >= -0x8000
  {
    assert (q + u + 1) * p == q * p + u * p + p;
    PositiveFactor(q + u + 1, p);
    AtLeast(q + u, p);
    assert (q + u) * p == q * p + u * p;
  }

  lemma PositiveFactor(a: int, p: int)
    requires p > 0 && a * p > 0
    ensures a > 0
  {
  }

  lemma AtLeast(a: int, p: int)
    requires a >= 0 && p > 0
    ensures a * p >= a
  {
  }

  /** With no bits cut off, nothing is lost. */
  lemma DcExact(v: Coef)
    ensures DcAt(v, 0) == v
  {
  }

  /** One more bit of a DC coefficient: the two's complement number gets it whatever its sign. */
  lemma DcNextBit(v: Coef, al: nat)
    requires al <= 12
    ensures BitOf(DcAt(v, al + 1), al) == 0
    ensures DcAt(v, al) as int == DcAt(v, al + 1) + (v / Pow2(al) % 2) * Pow2(al)
  {
    hide Pow2;
    var p := Pow2(al);
    assert Pow2(al + 1) == 2 * p by { Pow2Step(al); }
    var q := v / p;
    HalveQuotient(v, p);
    var h := q / 2;
    assert q == 2 * h + q % 2;
    assert h * (2 * p) == 2 * h * p;
    QuotientShift(0, 2 * h, p);
    QuotientOfZero(p);
    Distribute(1, 2 * h, q % 2, p);
  }

  // ---------------------------------------------------------------------------------------------
  // What is sent
  // ---------------------------------------------------------------------------------------------

  function DcBlock(b: Block, al: nat): (c: Block)
    requires al <= 13
  {
    b[0 := DcShifted(b[0], al)]
  }

  function DcMcu(mcu: seq<Block>, al: nat): (c: seq<Block>)
    requires al <= 13
    ensures |c| == |mcu| && forall n :: 0 <= n < |mcu| ==> c[n] == DcBlock(mcu[n], al)
  {
    seq(|mcu|, n requires 0 <= n < |mcu| => DcBlock(mcu[n], al))
  }

  function DcMcus(mcus: seq<seq<Block>>, al: nat): (c: seq<seq<Block>>)
    requires al <= 13
    ensures |c| == |mcus| && forall i :: 0 <= i < |mcus| ==> c[i] == DcMcu(mcus[i], al)
  {
    seq(|mcus|, i requires 0 <= i < |mcus| => DcMcu(mcus[i], al))
  }

  predicate IsDcScan(scan: Scan, books: Books) {
    ValidScan(scan, books) && scan.limSe == 0
  }

  lemma OnlyDc(scan: Scan, books: Books, ci: nat, last: Coef, b: Block)
    requires IsDcScan(scan, books) && ci < |scan.components|
    ensures scan.precision <= 12
    ensures BlockTokens(scan, books, ci, last, b)
      == DcTokens(scan.components[ci].dcTbl, Difference(b[0], last), scan.precision + 3)
  {
    hide DcTokens, NumBits;
    var z := Zigzag(scan, b);
    AcUnroll(scan.components[ci].acTbl, scan.precision + 3, z, 1, 0);
  }

  /** The correction bits of an MCU's blocks from n on. */
  function RefineBits(mcu: seq<Block>, al: nat, n: nat): (toks: seq<Token>)
    requires al <= 13 && n <= |mcu|
    decreases |mcu| - n
  {
    if n == |mcu| then [] else [Bits(DcShifted(mcu[n][0], al), 1)] + RefineBits(mcu, al, n + 1)
  }

  function RefineScanBits(mcus: seq<seq<Block>>, al: nat): (toks: seq<Token>)
    requires al <= 13
  {
    if mcus == [] then [] else RefineBits(mcus[0], al, 0) + RefineScanBits(mcus[1..], al)
  }

  lemma RefineUnroll(mcu: seq<Block>, al: nat, n: nat, rest: seq<Token>)
    requires al <= 13 && n <= |mcu|
    ensures n == |mcu| ==> RefineBits(mcu, al, n) + rest == rest
    ensures n < |mcu| ==>
              RefineBits(mcu, al, n) + rest == [Bits(DcShifted(mcu[n][0], al), 1)] + (RefineBits(mcu, al, n + 1) + rest)
  {
    hide DcShifted;
  }

  // ---------------------------------------------------------------------------------------------
  // Encoding
  // ---------------------------------------------------------------------------------------------

  class DcEncoder {
    const sink: TokenSink
    const scan: Scan
    const al: nat
    var lastDcVal: seq<Coef>

    ghost predicate Set() {
      IsDcScan(scan, sink.books) && sink.Set() && al <= 13
    }

    constructor (sink: TokenSink, scan: Scan, al: nat)
      requires IsDcScan(scan, sink.books) && sink.Set() && al <= 13
      ensures Set() && this.sink == sink && this.scan == scan && this.al == al
      ensures lastDcVal == seq(|scan.components|, _ => 0)
    {
      this.sink, this.scan, this.al := sink, scan, al;
      lastDcVal := seq(|scan.components|, _ => 0);
    }

    /** Sends a difference; fails only if it is too large or its category has no code. */
    method SendDifference(tbl: nat, diff: int, ghost rest: seq<Token>, ghost goal: seq<Token>) returns (ok: bool)
      requires sink.Set() && scan.precision <= 12 && Has(sink.books, true, tbl)
      requires sink.Owes(DcTokens(tbl, diff, scan.precision + 3) + rest, goal)
      modifies sink, sink.bw
      ensures if ok then sink.Owes(rest, goal) else !sink.TakesAll(goal)
    {
      hide TokenSink.Set, TokenSink.Owes, TokenSink.TakesAll, NumBits, DcTokens;
      DcUnroll(tbl, diff, scan.precision + 3, rest);
      if diff == 0 {
        ok := sink.OweSymbol(true, tbl, 0, rest, goal);
        return;
      }
      var nbits := CountBits(Magnitude(diff));
      if nbits > scan.precision + 3 {
        sink.FaultRefused(rest, goal);
        return false;
      }
      ok := sink.OweSymbol(true, tbl, nbits, [Bits(Appended(diff), nbits)] + rest, goal);
      if ok {
        sink.OweBits(Appended(diff), nbits, rest, goal);
      }
    }

    /** Encodes one MCU of a first scan. */
    method EncodeMcuFirst(mcu: seq<Block>, ghost rest: seq<Token>, ghost goal: seq<Token>) returns (ok: bool)
      requires Set() && |lastDcVal| == |scan.components| && |mcu| == |scan.membership|
      requires sink.Owes(McuTokens(scan, sink.books, lastDcVal, DcMcu(mcu, al), 0) + rest, goal)
      modifies this, sink, sink.bw
      ensures |old(lastDcVal)| == |scan.components|
      ensures if ok then
                sink.Owes(rest, goal) && lastDcVal == McuLast(scan, sink.books, old(lastDcVal), DcMcu(mcu, al), 0)
              else !sink.TakesAll(goal)
    {
      hide TokenSink.Set, TokenSink.Owes, TokenSink.TakesAll, DcTokens, McuTokens, McuLast, IsOrder, BlockTokens,
        DcShifted;
      ghost var books, want := sink.books, DcMcu(mcu, al);
      for n := 0 to |mcu|
        invariant |lastDcVal| == |scan.components|
        invariant sink.Owes(McuTokens(scan, books, lastDcVal, want, n) + rest, goal)
        invariant McuLast(scan, books, old(lastDcVal), want, 0) == McuLast(scan, books, lastDcVal, want, n)
      {
        McuUnroll(scan, books, lastDcVal, want, n);
        var ci := scan.membership[n];
        OnlyDc(scan, books, ci, lastDcVal[ci], want[n]);
        var temp := DcShifted(mcu[n][0], al);
        ghost var more := McuTokens(scan, books, lastDcVal[ci := temp], want, n + 1) + rest;
        assert McuTokens(scan, books, lastDcVal, want, n) + rest
          == BlockTokens(scan, books, ci, lastDcVal[ci], want[n]) + more;
        ok := SendDifference(scan.components[ci].dcTbl, Difference(temp, lastDcVal[ci]), more, goal);
        if !ok {
          return;
        }
        lastDcVal := lastDcVal[ci := temp];
      }
      McuUnroll(scan, books, lastDcVal, want, |mcu|);
      assert [] + rest == rest;
      ok := true;
    }
  }

  /** Encodes one MCU of a refinement scan. */
  method EncodeMcuRefine(sink: TokenSink, al: nat, mcu: seq<Block>, ghost rest: seq<Token>, ghost goal: seq<Token>)
    requires al <= 13 && sink.Owes(RefineBits(mcu, al, 0) + rest, goal)
    modifies sink, sink.bw
    ensures sink.Owes(rest, goal)
  {
    hide TokenSink.Owes, DcShifted, RefineBits;
    for n := 0 to |mcu|
      invariant sink.Owes(RefineBits(mcu, al, n) + rest, goal)
    {
      RefineUnroll(mcu, al, n, rest);
      sink.OweBits(DcShifted(mcu[n][0], al), 1, RefineBits(mcu, al, n + 1) + rest, goal);
    }
    RefineUnroll(mcu, al, |mcu|, rest);
  }

  // ---------------------------------------------------------------------------------------------
  // Decoding
  // ---------------------------------------------------------------------------------------------

  /**
   * Distinct arrays for the blocks of an MCU, the first n of which have got the DC coefficients to; the rest is as
   * before.
   */
  ghost predicate DcOut(mcu: seq<array<Coef>>, before: seq<seq<Coef>>, to: seq<Coef>, n: nat)
    requires AreBlocks(mcu)
    reads mcu
  {
    && |mcu| == |before| == |to|
    && (forall m :: 0 <= m < |mcu| ==> |before[m]| == DCTSIZE2)
    && forall m :: 0 <= m < |mcu| ==> mcu[m][..] == if m < n then before[m][0 := to[m]] else before[m]
  }

  /** The DC coefficients without their low bits. */
  function DcsAt(want: seq<Block>, al: nat): (to: seq<Coef>)
    requires al <= 13
    ensures |to| == |want| && forall n :: 0 <= n < |want| ==> to[n] == DcAt(want[n][0], al)
  {
    seq(|want|, n requires 0 <= n < |want| => DcAt(want[n][0], al))
  }

  /** Coefficient w when bit al of v has been entered into it. */
  function Entered(w: Coef, v: Coef, al: nat): (e: Coef)
    requires al <= 13
  {
    ToCoef(if DcShifted(v, al) % 2 == 1 && BitOf(w, al) == 0 then w + Pow2(al) else w)
  }

  /** The DC coefficients with one more bit entered. */
  function DcsEntered(before: seq<seq<Coef>>, want: seq<Block>, al: nat): (to: seq<Coef>)
    requires al <= 13 && |before| == |want| && forall n :: 0 <= n < |before| ==> |before[n]| == DCTSIZE2
    ensures |to| == |want| && forall n :: 0 <= n < |want| ==> to[n] == Entered(before[n][0], want[n][0], al)
  {
    seq(|want|, n requires 0 <= n < |want| => Entered(before[n][0], want[n][0], al))
  }

  /** To a coefficient known without its al + 1 low bits that adds the next one. */
  lemma EnteredNext(v: Coef, al: nat)
    requires al <= 12
    ensures Entered(DcAt(v, al + 1), v, al) == DcAt(v, al)
  {
    hide DcAt, BitOf;
    DcNextBit(v, al);
    assert 0 * Pow2(al) == 0 && 1 * Pow2(al) == Pow2(al);
  }

  class DcDecoder {
    const rd: SymbolReader
    const scan: Scan
    const al: nat
    var lastDcVal: seq<int>

    ghost predicate Set() {
      IsDcScan(scan, rd.books) && rd.Set() && al <= 13
    }

    ghost predicate Valid()
      reads this, rd.br
    {
      Set() && rd.br.Valid() && |lastDcVal| == |scan.components|
    }

    constructor (rd: SymbolReader, scan: Scan, al: nat)
      requires IsDcScan(scan, rd.books) && rd.Set() && rd.br.Valid() && al <= 13
      ensures Valid() && this.rd == rd && this.scan == scan && this.al == al
      ensures lastDcVal == seq(|scan.components|, _ => 0)
    {
      this.rd, this.scan, this.al := rd, scan, al;
      lastDcVal := seq(|scan.components|, _ => 0);
    }

    /** The predictions are those of last. */
    ghost predicate At(last: seq<Coef>)
      reads this
    {
      |lastDcVal| == |last| && forall ci :: 0 <= ci < |last| ==> lastDcVal[ci] == last[ci]
    }

    /** Decodes the DC coefficient of block n of an MCU. */
    method DecodeDcOf(mcu: seq<array<Coef>>, n: nat, ghost now: seq<Coef>, ghost before: seq<seq<Coef>>,
        ghost want: seq<Block>, ghost more: seq<Token>, ghost end: nat, ghost synced: bool)
      requires Valid() && AreBlocks(mcu) && n < |mcu| == |want| == |scan.membership| && |now| == |scan.components|
      requires synced ==> At(now) && DcOut(mcu, before, DcsAt(want, al), n)
      requires synced ==> rd.Expects(BlockTokens(scan, rd.books, scan.membership[n], now[scan.membership[n]],
                                                 DcBlock(want[n], al)) + more, end)
      modifies this, rd, rd.br, mcu[n]
      ensures Valid() && rd.Moved(old(rd.br.insufficientData), old(rd.br.at))
      ensures synced ==> At(now[scan.membership[n] := DcShifted(want[n][0], al)])
                         && DcOut(mcu, before, DcsAt(want, al), n + 1)
      ensures synced ==> rd.Expects(more, end) && rd.badCodes == old(rd.badCodes)
    {
      hide BitReader.Valid, SymbolReader.Expects, SymbolReader.Set, IsOrder, BlockTokens, DcTokens, DcShifted, DcAt,
        DcOut, Pow2;
      var ci := scan.membership[n];
      ghost var q := DcShifted(want[n][0], al);
      OnlyDc(scan, rd.books, ci, now[ci], DcBlock(want[n], al));
      var s := rd.DecodeDc(scan.components[ci].dcTbl, scan.precision + 3, true, Difference(q, now[ci]), more, end);
      s := s + lastDcVal[ci];
      lastDcVal := lastDcVal[ci := s];
      BackInPlace(want[n][0], al);
      StoreDc(mcu, n, s * Pow2(al), before, DcsAt(want, al), synced);
    }

    /** Decodes one MCU of a first scan; if the data has run out the blocks are left as they are. */
    method DecodeMcuFirst(mcu: seq<array<Coef>>, ghost last: seq<Coef>, ghost want: seq<Block>, ghost rest: seq<Token>,
                          ghost end: nat)
      requires Valid() && AreBlocks(mcu) && |mcu| == |want| == |scan.membership| && |last| == |scan.components|
      modifies this, rd, rd.br, mcu
      ensures Valid() && rd.Moved(old(rd.br.insufficientData), old(rd.br.at))
      ensures old(!rd.br.insufficientData && At(last)
                  && rd.Expects(McuTokens(scan, rd.books, last, DcMcu(want, al), 0) + rest, end)) ==>
                && At(McuLast(scan, rd.books, last, DcMcu(want, al), 0)) && rd.Expects(rest, end)
                && rd.badCodes == old(rd.badCodes) && DcOut(mcu, old(Contents(mcu)), DcsAt(want, al), |mcu|)
    {
      hide BitReader.Valid, SymbolReader.Expects, SymbolReader.Set, IsOrder, McuTokens, McuLast, BlockTokens, DcTokens,
        DcShifted, DcAt, DcOut, Pow2;
      rd.StandsStill();
      if rd.br.insufficientData {
        return;
      }
      ghost var before, sent, now := Contents(mcu), DcMcu(want, al), last;
      ghost var synced := At(last) && rd.Expects(McuTokens(scan, rd.books, last, sent, 0) + rest, end);
      NothingOut(mcu, DcsAt(want, al));
      for n := 0 to |mcu|
        invariant Valid() && rd.Moved(old(rd.br.insufficientData), old(rd.br.at)) && |now| == |last|
        invariant synced ==> At(now) && rd.Expects(McuTokens(scan, rd.books, now, sent, n) + rest, end)
        invariant synced ==> McuLast(scan, rd.books, last, sent, 0) == McuLast(scan, rd.books, now, sent, n)
        invariant synced ==> rd.badCodes == old(rd.badCodes) && DcOut(mcu, before, DcsAt(want, al), n)
      {
        McuUnroll(scan, rd.books, now, sent, n);
        var ci := scan.membership[n];
        ghost var next := now[ci := sent[n][0]];
        ghost var more := McuTokens(scan, rd.books, next, sent, n + 1) + rest;
        assert McuTokens(scan, rd.books, now, sent, n) + rest
          == BlockTokens(scan, rd.books, ci, now[ci], sent[n]) + more;
        DecodeDcOf(mcu, n, now, before, want, more, end, synced);
        now := next;
      }
      McuUnroll(scan, rd.books, now, sent, |mcu|);
      assert [] + rest == rest;
    }
  }

  /** Stores a DC coefficient. */
  method StoreDc(mcu: seq<array<Coef>>, n: nat, v: int, ghost before: seq<seq<Coef>>, ghost to: seq<Coef>,
      ghost synced: bool)
    requires AreBlocks(mcu) && n < |mcu| == |to|
    requires synced ==> DcOut(mcu, before, to, n) && ToCoef(v) == to[n]
    modifies mcu[n]
    ensures synced ==> DcOut(mcu, before, to, n + 1)
  {
    hide ToCoef;
    mcu[n][0] := ToCoef(v);
    if synced {
      assert mcu[n][..] == before[n][0 := to[n]];
    }
  }

  /** Decodes one MCU of a refinement scan; whatever the DC coefficients were, their next bit is entered. */
  method DecodeMcuRefine(rd: SymbolReader, al: nat, mcu: seq<array<Coef>>, ghost want: seq<Block>,
      ghost rest: seq<Token>, ghost end: nat)
    requires rd.Set() && rd.br.Valid() && al <= 13 && AreBlocks(mcu) && |mcu| == |want|
    modifies rd.br, mcu
    ensures rd.Moved(old(rd.br.insufficientData), old(rd.br.at))
    ensures old(rd.Expects(RefineBits(want, al, 0) + rest, end)) ==>
              rd.Expects(rest, end) && DcOut(mcu, old(Contents(mcu)), DcsEntered(old(Contents(mcu)), want, al), |mcu|)
  {
    hide BitReader.Valid, SymbolReader.Expects, SymbolReader.Set, RefineBits, DcShifted, DcOut, Pow2, BitOf, Entered;
    rd.StandsStill();
    ghost var before := Contents(mcu);
    ghost var synced, to := rd.Expects(RefineBits(want, al, 0) + rest, end), DcsEntered(before, want, al);
    NothingOut(mcu, to);
    for n := 0 to |mcu|
      invariant rd.Set() && rd.Moved(old(rd.br.insufficientData), old(rd.br.at))
      invariant synced ==> rd.Expects(RefineBits(want, al, n) + rest, end) && DcOut(mcu, before, to, n)
    {
      RefineUnroll(want, al, n, rest);
      var bit := rd.NextBits(1, DcShifted(want[n][0], al), RefineBits(want, al, n + 1) + rest, end);
      if synced {
        StillBefore(mcu, before, to, n);
      }
      RefineDc(mcu, n, bit, al, before, want[n], to, synced);
    }
    RefineUnroll(want, al, |mcu|, rest);
  }

  /** Enters bit al of a DC coefficient. */
  method RefineDc(mcu: seq<array<Coef>>, n: nat, b: nat, al: nat, ghost before: seq<seq<Coef>>, ghost want: Block,
                  ghost to: seq<Coef>, ghost synced: bool)
    requires AreBlocks(mcu) && n < |mcu| == |to| && al <= 13
    requires synced ==> && DcOut(mcu, before, to, n) && to[n] == Entered(mcu[n][0], want[0], al)
                        && b == DcShifted(want[0], al) % Pow2(1)
    modifies mcu[n]
    ensures synced ==> DcOut(mcu, before, to, n + 1)
  {
    hide DcShifted, ToCoef, BitOf, DcOut;
    var v: int := mcu[n][0];
    assert Pow2(1) == 2 * Pow2(0) == 2;
    if b == 1 && BitOf(v, al) == 0 {
      v := v + Pow2(al);
    }
    StoreDc(mcu, n, v, before, to, synced);
  }

  /** A shifted coefficient back in its place. */
  lemma BackInPlace(v: Coef, al: nat)
    requires al <= 13
    ensures ToCoef(DcShifted(v, al) * Pow2(al)) == DcAt(v, al)
  {
    ShiftRange(v, al);
  }

  lemma NothingOut(mcu: seq<array<Coef>>, to: seq<Coef>)
    requires AreBlocks(mcu) && |to| == |mcu|
    ensures DcOut(mcu, Contents(mcu), to, 0)
  {
  }

  lemma StillBefore(mcu: seq<array<Coef>>, before: seq<seq<Coef>>, to: seq<Coef>, n: nat)
    requires AreBlocks(mcu) && n < |mcu| && DcOut(mcu, before, to, n)
    ensures |before| == |mcu| && mcu[n][..] == before[n] && mcu[n][0] == before[n][0]
  {
  }
}
