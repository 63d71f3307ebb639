/** The DC scans of a progressive image (one restart interval) from coefficients to bytes and back. */
module DcRoundTrip {
  import opened Words
  import opened BitStrings
  import opened ByteStuffing
  import opened Coefficients
  import opened HuffTables
  import opened HuffDerived
  import opened HuffBitWriter
  import opened HuffBitReader
  import opened HuffDecode
  import opened HuffTokens
  import opened HuffBlocks
  import opened HuffSink
  import opened HuffReader
  import opened HuffRoundTrip
  import opened DcScans

  /** The symbols and bits of a first scan. */
  function FirstTokens(scan: Scan, books: Books, al: nat, mcus: seq<seq<Block>>): (toks: seq<Token>)
    requires IsDcScan(scan, books) && AreMcus(scan, mcus) && al <= 13
  {
    ScanTokens(scan, books, StartDc(scan), DcMcus(mcus, al))
  }

  /** Sends the MCUs up to a restart or the end of the scan. */
  method SendFirst(enc: DcEncoder, mcus: seq<seq<Block>>) returns (ok: bool)
    requires enc.Set() && AreMcus(enc.scan, mcus) && enc.lastDcVal == StartDc(enc.scan)
    requires enc.sink.Valid() && enc.sink.log == []
    modifies enc, enc.sink, enc.sink.bw
    ensures if ok then enc.sink.Finished() && enc.sink.log == FirstTokens(enc.scan, enc.sink.books, enc.al, mcus)
            else !enc.sink.TakesAll(FirstTokens(enc.scan, enc.sink.books, enc.al, mcus))
  {
    hide TokenSink.Set, TokenSink.Valid, TokenSink.Finished, TokenSink.TakesAll, ScanTokens, McuTokens, McuLast,
      IsOrder, DcBlock;
    ghost var scan, books, sent := enc.scan, enc.sink.books, DcMcus(mcus, enc.al);
    ghost var goal := FirstTokens(scan, books, enc.al, mcus);
    assert sent[0..] == sent && [] + goal == goal;
    for i := 0 to |mcus|
      invariant |enc.lastDcVal| == |scan.components|
      invariant enc.sink.Owes(ScanTokens(scan, books, enc.lastDcVal, sent[i..]), goal)
    {
      ScanUnroll(scan, books, enc.lastDcVal, sent, i);
      ok := enc.EncodeMcuFirst(mcus[i],
        ScanTokens(scan, books, McuLast(scan, books, enc.lastDcVal, sent[i], 0), sent[i + 1..]), goal);
      if !ok {
        return;
      }
    }
    ScanUnroll(scan, books, enc.lastDcVal, sent, |mcus|);
    assert enc.sink.log + [] == enc.sink.log;
    enc.sink.Finish();
    ok := true;
  }

  /** Writes a first scan; fails exactly if a difference is too large or its category has no code. */
  method EncodeFirst(scan: Scan, al: nat, books: Books, dcTbls: seq<EncodeTable>, acTbls: seq<EncodeTable>,
      mcus: seq<seq<Block>>)
    returns (ok: bool, out: seq<byte>, ghost data: seq<byte>)
    requires IsDcScan(scan, books) && AreMcus(scan, mcus) && al <= 13 && Proper(books)
      && EncodersFor(dcTbls, acTbls, books)
    ensures ok <==> AllCoded(books, FirstTokens(scan, books, al, mcus))
    ensures ok ==> out == Stuff(data) && Spell(books, FirstTokens(scan, books, al, mcus)) <= Unpacked(data)
  {
    hide Proper, EncodersFor, BitWriter.Holds, AllCoded, Spell, Unpacked, Stuff, FirstTokens, TokenSink.TakesAll,
      IsDcScan;
    var bw := new BitWriter([]);
    var sink := new TokenSink(bw, dcTbls, acTbls, books);
    var enc := new DcEncoder(sink, scan, al);
    out, data := [], [];
    ok := SendFirst(enc, mcus);
    sink.OutputTakes(FirstTokens(scan, books, al, mcus));
    if ok {
      assert bw.base + Stuff(bw.data) == Stuff(bw.data);
      out, data := bw.out, bw.data;
    }
  }

  /** Blocks of MCUs, one for each in want. */
  predicate Shaped(was: seq<seq<seq<Coef>>>, want: seq<seq<Block>>) {
    && |was| == |want|
    && forall i :: 0 <= i < |was| ==> |was[i]| == |want[i]| && forall n :: 0 <= n < |was[i]| ==> |was[i][n]| == DCTSIZE2
  }

  /** The DC coefficients are those of to; nothing else has changed. */
  ghost predicate DcDone(was: seq<seq<Coef>>, now: seq<seq<Coef>>, to: seq<Coef>) {
    && |was| == |now| == |to|
    && forall n :: 0 <= n < |was| ==> |was[n]| == DCTSIZE2 && now[n] == was[n][0 := to[n]]
  }

  /** All DC coefficients are those of want without their al low bits. */
  ghost predicate AllDcDone(was: seq<seq<seq<Coef>>>, now: seq<seq<seq<Coef>>>, want: seq<seq<Block>>, al: nat)
    requires al <= 13
  {
    |was| == |now| == |want| && forall i :: 0 <= i < |was| ==> DcDone(was[i], now[i], DcsAt(want[i], al))
  }

  /** The next bit of want has been entered into all DC coefficients. */
  ghost predicate AllDcEntered(was: seq<seq<seq<Coef>>>, now: seq<seq<seq<Coef>>>, want: seq<seq<Block>>, al: nat)
    requires al <= 13 && Shaped(was, want)
  {
    |was| == |now| && forall i :: 0 <= i < |was| ==> DcDone(was[i], now[i], DcsEntered(was[i], want[i], al))
  }

  lemma OutIsDone(mcu: seq<array<Coef>>, before: seq<seq<Coef>>, to: seq<Coef>)
    requires AreBlocks(mcu) && DcOut(mcu, before, to, |mcu|)
    ensures DcDone(before, Contents(mcu), to)
  {
  }

  /** Decodes the next MCU of a first scan. */
  method DecodeNextFirst(dec: DcDecoder, was: seq<seq<Coef>>, ghost last: seq<Coef>, ghost mcus: seq<seq<Block>>,
      ghost i: nat, ghost end: nat)
    returns (now: seq<seq<Coef>>, ghost next: seq<Coef>)
    requires dec.Valid() && dec.rd.Moved(false, 0) && !dec.rd.br.insufficientData && dec.rd.badCodes == 0
    requires AreMcus(dec.scan, mcus) && i < |mcus| && |was| == |mcus[i]| && |last| == |dec.scan.components|
    requires forall n :: 0 <= n < |was| ==> |was[n]| == DCTSIZE2
    requires dec.At(last) && dec.rd.Expects(ScanTokens(dec.scan, dec.rd.books, last, DcMcus(mcus, dec.al)[i..]), end)
    requires end <= 8 * |dec.rd.br.data|
    modifies dec, dec.rd, dec.rd.br
    ensures dec.Valid() && dec.rd.Moved(false, 0) && !dec.rd.br.insufficientData && dec.rd.badCodes == 0
    ensures |next| == |last| && DcDone(was, now, DcsAt(mcus[i], dec.al))
    ensures dec.At(next) && dec.rd.Expects(ScanTokens(dec.scan, dec.rd.books, next, DcMcus(mcus, dec.al)[i + 1..]), end)
  {
    hide SymbolReader.Expects, DcDecoder.At, BitReader.Valid, IsOrder, McuTokens, McuLast, ScanTokens, DcOut, DcDone,
      DcBlock;
    ghost var scan, books, sent := dec.scan, dec.rd.books, DcMcus(mcus, dec.al);
    ScanUnroll(scan, books, last, sent, i);
    next := McuLast(scan, books, last, sent[i], 0);
    ghost var later := ScanTokens(scan, books, next, sent[i + 1..]);
    var mcu := BlocksOf(was);
    dec.DecodeMcuFirst(mcu, last, mcus[i], later, end);
    OutIsDone(mcu, was, DcsAt(mcus[i], dec.al));
    StreamEnd(dec.rd, later, end);
    now := Contents(mcu);
  }

  lemma StreamEnd(rd: SymbolReader, toks: seq<Token>, end: nat)
    requires rd.Expects(toks, end)
    ensures rd.br.at <= end
  {
    hide AllCoded, Spell, Proper, DecodersFor;
  }

  lemma StreamStart(rd: SymbolReader, toks: seq<Token>)
    requires rd.Set() && rd.br.Valid() && rd.br.at == 0 && AllCoded(rd.books, toks)
      && Spell(rd.books, toks) <= Unpacked(rd.br.data)
    ensures rd.Expects(toks, |Spell(rd.books, toks)|) && |Spell(rd.books, toks)| <= 8 * |rd.br.data|
  {
    hide AllCoded, Spell, BitAt, Proper, DecodersFor;
    var s, u := Spell(rd.books, toks), Unpacked(rd.br.data);
    assert BitsAt(rd.br.data, 0, |s|) == u[..|s|] == s;
  }

  /** Decodes a first scan. */
  method DecodeFirst(scan: Scan, al: nat, books: Books, dcTbls: seq<DecodeTable>, acTbls: seq<DecodeTable>,
      src: seq<byte>, was: seq<seq<seq<Coef>>>, ghost mcus: seq<seq<Block>>)
    returns (now: seq<seq<seq<Coef>>>, insufficient: bool, badCodes: nat)
    requires IsDcScan(scan, books) && AreMcus(scan, mcus) && al <= 13 && Proper(books)
      && DecodersFor(dcTbls, acTbls, books)
    requires Shaped(was, mcus) && AllCoded(books, FirstTokens(scan, books, al, mcus))
    requires Spell(books, FirstTokens(scan, books, al, mcus)) <= Unpacked(Segment(src, 0))
    ensures AllDcDone(was, now, mcus, al) && !insufficient && badCodes == 0
  {
    hide Proper, DecodersFor, AllCoded, Spell, Unpacked, Segment, ScanTokens, BitReader.Valid, IsOrder, DcDone,
      DcDecoder.At, DcBlock;
    hide SymbolReader.Expects;
    var br := new BitReader(src, 0);
    var rd := new SymbolReader(br, dcTbls, acTbls, books);
    var dec := new DcDecoder(rd, scan, al);
    ghost var last, sent, end := StartDc(scan), DcMcus(mcus, al), |Spell(books, FirstTokens(scan, books, al, mcus))|;
    StreamStart(rd, FirstTokens(scan, books, al, mcus));
    StartsAtZero(dec);
    assert sent[0..] == sent;
    rd.StandsStill();
    now := [];
    for i := 0 to |was|
      invariant fresh(dec) && fresh(rd) && fresh(br) && dec.rd == rd && rd.br == br && dec.scan == scan && dec.al == al
      invariant dec.Valid() && rd.Moved(false, 0) && !br.insufficientData && rd.badCodes == 0 && end <= 8 * |br.data|
      invariant |last| == |scan.components| && dec.At(last) && rd.Expects(ScanTokens(scan, books, last, sent[i..]), end)
      invariant |now| == i && forall k :: 0 <= k < i ==> DcDone(was[k], now[k], DcsAt(mcus[k], al))
    {
      var mcu;
      mcu, last := DecodeNextFirst(dec, was[i], last, mcus, i, end);
      now := now + [mcu];
    }
    insufficient, badCodes := br.insufficientData, rd.badCodes;
  }

  lemma StartsAtZero(dec: DcDecoder)
    requires dec.lastDcVal == seq(|dec.scan.components|, _ => 0)
    ensures dec.At(StartDc(dec.scan))
  {
  }

  /**
   * For every first DC scan of any components: decoding what was encoded gives each DC coefficient without its al low
   * bits, and changes nothing else. Encoding fails exactly if a difference is too large or the tables lack its
   * category.
   */
  method RoundTripFirst(scan: Scan, al: nat, books: Books, mcus: seq<seq<Block>>, was: seq<seq<seq<Coef>>>,
      marker: byte, rest: seq<byte>)
    returns (ok: bool, now: seq<seq<seq<Coef>>>, insufficient: bool, badCodes: nat)
    requires Proper(books) && IsDcScan(scan, books) && AreMcus(scan, mcus) && al <= 13 && Shaped(was, mcus)
    requires marker != 0 && marker != 0xFF
    ensures ok <==> AllCoded(books, FirstTokens(scan, books, al, mcus))
    ensures ok ==> AllDcDone(was, now, mcus, al) && !insufficient && badCodes == 0
    ensures !ok ==> now == was
  {
    hide ProperTable, Encodes, Usable, FirstTokens, AllDcDone, Stuff, Segment, Unpacked, AllCoded, Spell, CountTo,
      IsDcScan;
    AreTablesOf(books);
    var dcOk, dcEnc := MakeEncoders(books.dc, true);
    var acOk, acEnc := MakeEncoders(books.ac, false);
    var out;
    ghost var data;
    ok, out, data := EncodeFirst(scan, al, books, dcEnc, acEnc, mcus);
    now, insufficient, badCodes := was, false, 0;
    if ok {
      var src := out + [0xFF, marker] + rest;
      assert src[0..] == src == (Stuff(data) + [0xFF, marker]) + rest;
      SegmentOfStuffed(src, 0, data, marker);
      var dcDec := MakeDecoders(books.dc, true);
      var acDec := MakeDecoders(books.ac, false);
      now, insufficient, badCodes := DecodeFirst(scan, al, books, dcDec, acDec, src, was, mcus);
    }
  }

  lemma AreTablesOf(books: Books)
    requires Proper(books)
    ensures forall i :: 0 <= i < |books.dc| ==> IsTable(books.dc[i])
    ensures forall i :: 0 <= i < |books.ac| ==> IsTable(books.ac[i])
  {
    hide CountTo, Spare, ProperSymbols;
  }

  // ---------------------------------------------------------------------------------------------
  // Refinement
  // ---------------------------------------------------------------------------------------------

  /** No tables. */
  const NO_BOOKS := Books([], [])

  lemma RefineScanUnroll(mcus: seq<seq<Block>>, al: nat, i: nat)
    requires al <= 13 && i <= |mcus|
    ensures i == |mcus| ==> RefineScanBits(mcus[i..], al) == []
    ensures i < |mcus| ==> RefineScanBits(mcus[i..], al)
                           == RefineBits(mcus[i], al, 0) + RefineScanBits(mcus[i + 1..], al)
  {
    hide RefineBits;
    if i < |mcus| {
      assert mcus[i..][1..] == mcus[i + 1..];
    }
  }

  lemma {:induction false} BitsHaveCodes(mcu: seq<Block>, al: nat, n: nat)
    requires al <= 13 && n <= |mcu|
    ensures AllCoded(NO_BOOKS, RefineBits(mcu, al, n))
    decreases |mcu| - n
  {
    hide DcShifted;
    if n < |mcu| {
      BitsHaveCodes(mcu, al, n + 1);
      SpellHead(NO_BOOKS, Bits(DcShifted(mcu[n][0], al), 1), RefineBits(mcu, al, n + 1));
    }
  }

  lemma {:induction false} ScanBitsHaveCodes(mcus: seq<seq<Block>>, al: nat)
    requires al <= 13
    ensures AllCoded(NO_BOOKS, RefineScanBits(mcus, al))
  {
    hide RefineBits;
    if mcus != [] {
      ScanBitsHaveCodes(mcus[1..], al);
      BitsHaveCodes(mcus[0], al, 0);
      SpellConcat(NO_BOOKS, RefineBits(mcus[0], al, 0), RefineScanBits(mcus[1..], al));
    }
  }

  /** Writes a refinement scan; it cannot fail. */
  method EncodeRefine(al: nat, mcus: seq<seq<Block>>) returns (out: seq<byte>, ghost data: seq<byte>)
    requires al <= 13
    ensures out == Stuff(data) && Spell(NO_BOOKS, RefineScanBits(mcus, al)) <= Unpacked(data)
  {
    hide BitWriter.Holds, AllCoded, Spell, Unpacked, Stuff, RefineScanBits, RefineBits, TokenSink.Set;
    var bw := new BitWriter([]);
    NothingSpelled(NO_BOOKS);
    var sink := new TokenSink(bw, [], [], NO_BOOKS);
    ghost var goal := RefineScanBits(mcus, al);
    assert mcus[0..] == mcus && [] + goal == goal;
    for i := 0 to |mcus|
      invariant fresh(sink) && fresh(bw) && sink.bw == bw
      invariant sink.Owes(RefineScanBits(mcus[i..], al), goal)
    {
      RefineScanUnroll(mcus, al, i);
      EncodeMcuRefine(sink, al, mcus[i], RefineScanBits(mcus[i + 1..], al), goal);
    }
    RefineScanUnroll(mcus, al, |mcus|);
    assert sink.log + [] == sink.log;
    sink.Finish();
    assert bw.base + Stuff(bw.data) == Stuff(bw.data);
    out, data := bw.out, bw.data;
  }

  /**
   * For every DC refinement scan, whatever was known of the DC coefficients: decoding what was encoded enters their
   * next bit, and changes nothing else.
   */
  method RoundTripRefine(al: nat, mcus: seq<seq<Block>>, was: seq<seq<seq<Coef>>>, marker: byte, rest: seq<byte>)
    returns (now: seq<seq<seq<Coef>>>, insufficient: bool)
    requires al <= 13 && Shaped(was, mcus)
    requires marker != 0 && marker != 0xFF
    ensures AllDcEntered(was, now, mcus, al) && !insufficient
  {
    hide AllCoded, Spell, Unpacked, Segment, Stuff, RefineScanBits, BitReader.Valid, DcDone, DcAt, SymbolReader.Expects,
      SymbolReader.Set;
    var out;
    ghost var data;
    out, data := EncodeRefine(al, mcus);
    var src := out + [0xFF, marker] + rest;
    assert src[0..] == src == (Stuff(data) + [0xFF, marker]) + rest;
    SegmentOfStuffed(src, 0, data, marker);
    var br := new BitReader(src, 0);
    var rd := new SymbolReader(br, [], [], NO_BOOKS);
    ghost var end := |Spell(NO_BOOKS, RefineScanBits(mcus, al))|;
    ScanBitsHaveCodes(mcus, al);
    StreamStart(rd, RefineScanBits(mcus, al));
    assert mcus[0..] == mcus;
    rd.StandsStill();
    now := [];
    for i := 0 to |was|
      invariant fresh(rd) && fresh(br) && rd.br == br && rd.Set()
      invariant rd.Moved(false, 0) && !br.insufficientData && end <= 8 * |br.data|
      invariant rd.Expects(RefineScanBits(mcus[i..], al), end)
      invariant |now| == i && forall k :: 0 <= k < i ==> DcDone(was[k], now[k], DcsEntered(was[k], mcus[k], al))
    {
      var mcu := DecodeNextRefine(rd, al, was[i], mcus, i, end);
      now := now + [mcu];
    }
    insufficient := br.insufficientData;
  }

  /** Decodes the next MCU of a refinement scan. */
  method DecodeNextRefine(rd: SymbolReader, al: nat, was: seq<seq<Coef>>, ghost mcus: seq<seq<Block>>, ghost i: nat,
      ghost end: nat)
    returns (now: seq<seq<Coef>>)
    requires rd.Set() && al <= 13 && rd.Moved(false, 0) && !rd.br.insufficientData
    requires i < |mcus| && |was| == |mcus[i]| && forall n :: 0 <= n < |was| ==> |was[n]| == DCTSIZE2
    requires rd.Expects(RefineScanBits(mcus[i..], al), end) && end <= 8 * |rd.br.data|
    modifies rd.br
    ensures rd.Moved(false, 0) && !rd.br.insufficientData
    ensures DcDone(was, now, DcsEntered(was, mcus[i], al)) && rd.Expects(RefineScanBits(mcus[i + 1..], al), end)
  {
    hide SymbolReader.Expects, BitReader.Valid, RefineBits, RefineScanBits, DcOut, DcDone, DcAt, SymbolReader.Set;
    RefineScanUnroll(mcus, al, i);
    var mcu := BlocksOf(was);
    DecodeMcuRefine(rd, al, mcu, mcus[i], RefineScanBits(mcus[i + 1..], al), end);
    OutIsDone(mcu, was, DcsEntered(was, mcus[i], al));
    StreamEnd(rd, RefineScanBits(mcus[i + 1..], al), end);
    now := Contents(mcu);
  }
}
