/** First AC scans of a band (one restart interval) from coefficients to bytes and back. */
module AcFirstRoundTrip {
  import opened Words
  import opened BitStrings
  import opened ByteStuffing
  import opened Coefficients
  import opened HuffTables
  import opened HuffDerived
  import opened HuffBitWriter
  import opened HuffBitReader
  import opened HuffDecode
  import opened HuffTokens
  import opened HuffSink
  import opened HuffReader
  import opened RefineDecoding
  import opened RefineEncoding
  import opened RefineRoundTrip
  import opened AcFirst
  import opened AcFirstEncoder
  import opened AcFirstDecoder

  /** Sends the blocks up to a restart or the end of the scan. */
  method SendBlocks(enc: FirstEncoder, blocks: seq<Block>) returns (ok: bool)
    requires enc.Set() && enc.eobrun == 0 && enc.sink.Valid() && enc.sink.log == []
    modifies enc, enc.sink, enc.sink.bw
    ensures if ok then enc.sink.Finished() && enc.sink.log == Tokens(enc.band, enc.maxBits, blocks, 0)
            else !enc.sink.TakesAll(Tokens(enc.band, enc.maxBits, blocks, 0))
  {
    hide FirstEncoder.Set, TokenSink.Set, TokenSink.Valid, TokenSink.Finished, TokenSink.TakesAll, Tokens, IsBand;
    enc.Facts();
    ghost var goal := Tokens(enc.band, enc.maxBits, blocks, 0);
    assert blocks[0..] == blocks && [] + goal == goal;
    for i := 0 to |blocks|
      invariant enc.eobrun < 0x7FFF && enc.sink.Owes(Tokens(enc.band, enc.maxBits, blocks[i..], enc.eobrun), goal)
    {
      assert blocks[i..] == [blocks[i]] + blocks[i + 1..];
      ok := enc.EncodeMcu(blocks[i], blocks[i + 1..], goal);
      if !ok {
        return;
      }
    }
    ok := enc.FinishPass(goal);
  }

  /** Writes a first scan; fails exactly if a coefficient of it is too large or a symbol it needs has no code. */
  method EncodeBlocks(band: Band, maxBits: nat, t: Table, tbl: EncodeTable, blocks: seq<Block>)
    returns (ok: bool, out: seq<byte>, ghost data: seq<byte>)
    requires IsBand(band) && maxBits <= 15 && ProperTable(t, false) && Encodes(tbl, t, Symbols(t))
    ensures Proper(OneBook(t)) && (ok <==> AllCoded(OneBook(t), Tokens(band, maxBits, blocks, 0)))
    ensures ok ==> out == Stuff(data) && Spell(OneBook(t), Tokens(band, maxBits, blocks, 0)) <= Unpacked(data)
  {
    hide ProperTable, Encodes, IsBand, BitWriter.Holds, AllCoded, Spell, Unpacked, Stuff, Proper, Tokens,
      TokenSink.TakesAll;
    BookIsProper(t);
    var bw := new BitWriter([]);
    var sink := new TokenSink(bw, [], [tbl], OneBook(t));
    var enc := new FirstEncoder(sink, band, maxBits);
    out, data := [], [];
    ok := SendBlocks(enc, blocks);
    sink.OutputTakes(Tokens(band, maxBits, blocks, 0));
    if ok {
      assert bw.base + Stuff(bw.data) == Stuff(bw.data);
      out, data := bw.out, bw.data;
    }
  }

  /** The band of every block below n has been decoded, that of the others is zero; nothing else has changed. */
  ghost predicate FirstUpTo(band: Band, cur: seq<seq<Coef>>, before: seq<seq<Coef>>, blocks: seq<Block>, n: nat)
    requires IsBand(band)
  {
    && |cur| == |blocks| == |before|
    && (forall i :: 0 <= i < |cur| ==> Partly(band, cur[i], blocks[i], if i < n then band.se + 1 else band.ss))
    && (forall i :: 0 <= i < |cur| ==> SameElsewhere(band, before[i], cur[i]))
  }

  /** One more block decoded. */
  lemma FirstStep(band: Band, cur: seq<seq<Coef>>, before: seq<seq<Coef>>, blocks: seq<Block>, n: nat, b: seq<Coef>)
    requires IsBand(band) && FirstUpTo(band, cur, before, blocks, n) && n < |cur|
    requires Partly(band, b, blocks[n], band.se + 1) && SameElsewhere(band, before[n], b)
    ensures FirstUpTo(band, cur[n := b], before, blocks, n + 1)
  {
    hide Partly, SameElsewhere;
  }

  lemma NextFirst(band: Band, cur: seq<seq<Coef>>, before: seq<seq<Coef>>, blocks: seq<Block>, n: nat)
    requires IsBand(band) && FirstUpTo(band, cur, before, blocks, n) && n < |cur|
    ensures |blocks| == |before| == |cur| && Partly(band, cur[n], blocks[n], band.ss)
      && SameElsewhere(band, before[n], cur[n])
  {
    hide Partly, SameElsewhere;
  }

  /** Decodes the next block of a scan. */
  method DecodeNext(dec: FirstDecoder, blk: array<Coef>, ghost before: seq<Coef>, ghost blocks: seq<Block>,
      ghost i: nat, ghost end: nat)
    requires dec.Valid() && IsBand(dec.band) && dec.rd.Moved(false, 0) && !dec.rd.br.insufficientData
      && dec.rd.badCodes == 0
    requires i < |blocks| && dec.Awaits(blocks[i..], dec.eobrun, end) && end <= 8 * |dec.rd.br.data|
    requires blk.Length == DCTSIZE2 && Partly(dec.band, blk[..], blocks[i], dec.band.ss)
      && SameElsewhere(dec.band, before, blk[..])
    modifies dec, dec.rd, dec.rd.br, blk
    ensures dec.Valid() && dec.rd.Moved(false, 0) && !dec.rd.br.insufficientData && dec.rd.badCodes == 0
    ensures dec.Awaits(blocks[i + 1..], dec.eobrun, end)
    ensures Partly(dec.band, blk[..], blocks[i], dec.band.se + 1) && SameElsewhere(dec.band, before, blk[..])
  {
    hide IsBand, Partly, SameElsewhere, BitReader.Valid, FirstDecoder.Awaits, FirstDecoder.Set;
    assert blocks[i..] == [blocks[i]] + blocks[i + 1..];
    dec.DecodeMcu(blk, blocks[i], blocks[i + 1..], end);
    AwaitsEnd(dec, blocks[i + 1..], dec.eobrun, end);
    SameTwice(dec.band, before, old(blk[..]), blk[..]);
  }

  /** Decodes the blocks of a scan in place. */
  method DecodeBlocks(band: Band, ghost maxBits: nat, t: Table, tbl: DecodeTable, src: seq<byte>,
      blks: seq<array<Coef>>, ghost before: seq<seq<Coef>>, ghost blocks: seq<Block>)
    returns (insufficient: bool, badCodes: nat)
    requires IsBand(band) && maxBits <= 15 && ProperTable(t, false) && Proper(OneBook(t)) && Usable(tbl, t)
    requires AllCoded(OneBook(t), Tokens(band, maxBits, blocks, 0))
    requires Spell(OneBook(t), Tokens(band, maxBits, blocks, 0)) <= Unpacked(Segment(src, 0))
    requires AreBlocks(blks) && |blks| == |blocks| && FirstUpTo(band, Contents(blks), before, blocks, 0)
    modifies blks
    ensures FirstUpTo(band, Contents(blks), before, blocks, |blocks|) && !insufficient && badCodes == 0
  {
    hide ProperTable, Proper, Usable, IsBand, AllCoded, Spell, Unpacked, Segment, Tokens, Partly, SameElsewhere,
      FirstUpTo;
    hide BitReader.Valid, FirstDecoder.Awaits, FirstDecoder.Set, SymbolReader.Set, SymbolReader.Moved;
    var br := new BitReader(src, 0);
    var rd := NewReader(br, t, tbl);
    var dec := new FirstDecoder(rd, band, maxBits);
    ghost var end, cur := |Spell(OneBook(t), Tokens(band, maxBits, blocks, 0))|, Contents(blks);
    StartAwaits(dec, blocks);
    assert blocks[0..] == blocks;
    rd.StandsStill();
    for i := 0 to |blks|
      invariant fresh(dec) && fresh(rd) && fresh(br) && dec.rd == rd && rd.br == br && dec.band == band && dec.Valid()
      invariant rd.Moved(false, 0) && !br.insufficientData && rd.badCodes == 0
      invariant dec.Awaits(blocks[i..], dec.eobrun, end) && end <= 8 * |br.data|
      invariant |cur| == |blks| && FirstUpTo(band, cur, before, blocks, i) && cur == Contents(blks)
    {
      NextFirst(band, cur, before, blocks, i);
      DecodeNext(dec, blks[i], before[i], blocks, i, end);
      FirstStep(band, cur, before, blocks, i, blks[i][..]);
      cur := cur[i := blks[i][..]];
    }
    insufficient, badCodes := br.insufficientData, rd.badCodes;
  }

  method NewReader(br: BitReader, t: Table, tbl: DecodeTable) returns (rd: SymbolReader)
    requires br.Valid() && ProperTable(t, false) && Proper(OneBook(t)) && Usable(tbl, t)
    ensures fresh(rd) && rd.Set() && rd.br == br && rd.books == OneBook(t) && rd.badCodes == 0
  {
    hide ProperTable, Proper, Usable, BitReader.Valid;
    rd := new SymbolReader(br, [], [tbl], OneBook(t));
  }

  lemma StartAwaits(dec: FirstDecoder, blocks: seq<Block>)
    requires dec.Valid() && dec.eobrun == 0 && dec.rd.br.at == 0
    requires AllCoded(dec.rd.books, Tokens(dec.band, dec.maxBits, blocks, 0))
    requires Spell(dec.rd.books, Tokens(dec.band, dec.maxBits, blocks, 0)) <= Unpacked(dec.rd.br.data)
    ensures dec.Awaits(blocks, 0, |Spell(dec.rd.books, Tokens(dec.band, dec.maxBits, blocks, 0))|)
    ensures |Spell(dec.rd.books, Tokens(dec.band, dec.maxBits, blocks, 0))| <= 8 * |dec.rd.br.data|
  {
    hide AllCoded, Spell, Tokens, BitAt, Proper, IsBand;
    assert blocks[0..] == blocks;
    var s, u := Spell(dec.rd.books, Tokens(dec.band, dec.maxBits, blocks, 0)), Unpacked(dec.rd.br.data);
    assert BitsAt(dec.rd.br.data, 0, |s|) == u[..|s|] == s;
  }

  lemma AwaitsEnd(dec: FirstDecoder, blocks: seq<Block>, run: nat, end: nat)
    requires dec.Awaits(blocks, run, end)
    ensures dec.rd.br.at <= end
  {
    hide AllCoded, Spell, Tokens, Proper, IsBand;
  }

  /**
   * For every table, every band and every number of blocks: if the band is still zero, decoding what the encoder wrote
   * gives every coefficient of it cut down to bit al, and changes no other one; no shortage of data and no bad code is
   * reported.  Encoding fails exactly if a coefficient is too large or the table lacks a symbol of the scan.
   */
  method RoundTripFirst(band: Band, maxBits: nat, t: Table, blocks: seq<Block>, blks: seq<array<Coef>>, marker: byte,
                        rest: seq<byte>)
    returns (ok: bool, insufficient: bool, badCodes: nat)
    requires IsBand(band) && maxBits <= 15 && ProperTable(t, false) && marker != 0 && marker != 0xFF
    requires AreBlocks(blks) && |blks| == |blocks| && FirstUpTo(band, Contents(blks), Contents(blks), blocks, 0)
    modifies blks
    ensures ok ==> FirstUpTo(band, Contents(blks), old(Contents(blks)), blocks, |blocks|) && !insufficient
                   && badCodes == 0
    ensures !ok ==> Contents(blks) == old(Contents(blks))
    ensures Proper(OneBook(t)) && (ok <==> AllCoded(OneBook(t), Tokens(band, maxBits, blocks, 0)))
  {
    hide Encodes, Decodes, IsBand, FirstUpTo, Stuff, Segment, Unpacked, Tokens, AllCoded, Spell, Proper;
    hide CountTo, ProperSymbols, Spare, Coded;
    var ok1, e := MakeEncodeTable(t, false);
    var out;
    ghost var data;
    insufficient, badCodes := false, 0;
    ok, out, data := EncodeBlocks(band, maxBits, t, e, blocks);
    if ok {
      var src := out + [0xFF, marker] + rest;
      assert src[0..] == src == (Stuff(data) + [0xFF, marker]) + rest;
      SegmentOfStuffed(src, 0, data, marker);
      var ok2, d := MakeDecodeTable(t, false);
      insufficient, badCodes := DecodeBlocks(band, maxBits, t, d, src, blks, Contents(blks), blocks);
    }
  }
}
