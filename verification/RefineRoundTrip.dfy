/**
 * AC refinement scans (one restart interval) from coefficients to bytes and back, under any schedule of suspensions.
 */
module RefineRoundTrip {
  import opened Words
  import opened BitStrings
  import opened ByteStuffing
  import opened Coefficients
  import opened HuffTables
  import opened HuffDerived
  import opened HuffBitWriter
  import opened HuffBitReader
  import opened HuffDecode
  import opened HuffTokens
  import opened HuffSink
  import opened RefineDecoding
  import opened RefineEncoding
  import opened RefineStream
  import opened RefineEncoder
  import opened RefineDecoder

  /** What an output pass lacks has no code. */
  lemma LacksMeans(enc: RefineEncoder, some: seq<Token>, all: seq<Token>)
    requires enc.Lacks(some) && PartOf(some, all) && !enc.sink.gather
    ensures Proper(enc.sink.books) && !AllCoded(enc.sink.books, all)
  {
    hide Coded, Proper, EncodersFor;
    var s: byte :| Symbol(false, 0, s) in some && !enc.sink.Takes(Symbol(false, 0, s));
    enc.sink.Refuses(Symbol(false, 0, s), all);
    enc.sink.OutputTakes(all);
  }

  /** Sends the blocks up to a restart or the end of the scan. */
  method SendBlocks(enc: RefineEncoder, blocks: seq<Block>) returns (ok: bool)
    requires enc.Valid() && enc.Now() == Cut([], [])
    modifies enc, enc.sink, enc.sink.bw, enc.bitBuffer
    ensures IsBand(enc.band)
    ensures if ok then enc.sink.Finished() && enc.sink.log == RefineTokens(enc.band, blocks)
            else exists some :: PartOf(some, RefineTokens(enc.band, blocks)) && enc.Lacks(some)
  {
    hide IsBand, Flat, AreGroups, StreamTokens, IsCut, RefineEncoder.Sending, RefineEncoder.Held, RefineEncoder.Written;
    hide RefineEncoder.Lacks, Step, Shown, TokenSink.Finished, TokenSink.Set, PartOf, Cuts, RefineTokens;
    enc.InSetUpNow();
    ghost var band := enc.band;
    NoBlocks(band);
    GroupsAre(band, blocks);
    for i := 0 to |blocks|
      invariant enc.Valid() && enc.Now() == Cuts(band, blocks[..i])
    {
      assert blocks[..i + 1] == blocks[..i] + [blocks[i]];
      CutsAppend(band, blocks[..i], blocks[i]);
      ok := enc.EncodeMcu(blocks[i]);
      if !ok {
        ShownInScan(band, blocks, i + 1);
        return;
      }
    }
    assert blocks[..|blocks|] == blocks;
    ok := enc.FinishPass();
    if !ok {
      PartOfItself(RefineTokens(band, blocks));
    }
  }

  lemma PartOfItself(toks: seq<Token>)
    ensures PartOf(toks, toks)
  {
  }

  lemma NoBlocks(band: Band)
    requires IsBand(band)
    ensures Cuts(band, []) == Cut([], [])
  {
  }

  /** Writes a refinement scan; fails exactly if a symbol it needs has no code. */
  method EncodeBlocks(band: Band, t: Table, tbl: EncodeTable, blocks: seq<Block>)
    returns (ok: bool, out: seq<byte>, ghost data: seq<byte>)
    requires IsBand(band) && ProperTable(t, false) && Encodes(tbl, t, Symbols(t))
    ensures Proper(OneBook(t)) && (ok <==> AllCoded(OneBook(t), RefineTokens(band, blocks)))
    ensures ok ==> out == Stuff(data) && Spell(OneBook(t), RefineTokens(band, blocks)) <= Unpacked(data)
  {
    hide ProperTable, Encodes, IsBand, BitWriter.Holds, AllCoded, Spell, Unpacked, Stuff, Proper, RefineTokens;
    hide RefineEncoder.Held, RefineEncoder.Written, RefineEncoder.Lacks, PartOf;
    BookIsProper(t);
    var bw := new BitWriter([]);
    var sink := new TokenSink(bw, [], [tbl], OneBook(t));
    var enc := new RefineEncoder(sink, band);
    out, data := [], [];
    ok := SendBlocks(enc, blocks);
    if ok {
      assert bw.base + Stuff(bw.data) == Stuff(bw.data);
      out, data := bw.out, bw.data;
    } else {
      ghost var some :| PartOf(some, RefineTokens(band, blocks)) && enc.Lacks(some);
      LacksMeans(enc, some, RefineTokens(band, blocks));
    }
  }

  lemma BookIsProper(t: Table)
    requires ProperTable(t, false)
    ensures Proper(OneBook(t))
  {
    hide ProperTable;
  }

  /**
   * The band of every block is known to bit al + 1 before its turn and to bit al afterwards; nothing else has changed.
   */
  ghost predicate UpTo(band: Band, cur: seq<seq<Coef>>, before: seq<seq<Coef>>, blocks: seq<Block>, n: nat)
    requires IsBand(band)
  {
    && |cur| == |blocks| == |before|
    && forall i :: 0 <= i < |cur| ==>
       Progress(band, before[i], cur[i], blocks[i], if i < n then band.se + 1 else band.ss)
  }

  /** One more block decoded. */
  lemma UpToStep(band: Band, cur: seq<seq<Coef>>, before: seq<seq<Coef>>, blocks: seq<Block>, n: nat, b: seq<Coef>)
    requires IsBand(band) && UpTo(band, cur, before, blocks, n) && n < |cur|
    requires Progress(band, before[n], b, blocks[n], band.se + 1)
    ensures UpTo(band, cur[n := b], before, blocks, n + 1)
  {
    hide Progress;
  }

  lemma NextIs(band: Band, cur: seq<seq<Coef>>, before: seq<seq<Coef>>, blocks: seq<Block>, n: nat)
    requires IsBand(band) && UpTo(band, cur, before, blocks, n) && n < |cur|
    ensures |blocks| == |before| == |cur| && Progress(band, before[n], cur[n], blocks[n], band.ss)
  {
    hide Progress;
  }

  /** Schedules under which the source serves enough in the end. */
  predicate Served(schedule: seq<int>) {
    exists i :: 0 <= i < |schedule| && schedule[i] < 0
  }

  /** Decodes the next block of a scan. */
  method DecodeNext(dec: RefineDecoder, blk: array<Coef>, schedule: seq<int>, ghost base: seq<Coef>, ghost b: Block,
                    ghost follow: seq<Block>, ghost groups: seq<seq<Block>>, ghost end: nat)
    returns (ghost follow1: seq<Block>, ghost groups1: seq<seq<Block>>)
    requires dec.Valid() && IsBand(dec.band) && Proper(OneBook(dec.t)) && !dec.perm.insufficientData && Served(schedule)
    requires Awaits(dec.band, dec.t, follow, groups, dec.eobrun, dec.perm.data, dec.perm.at, end)
    requires follow + Flat(groups) != [] && (follow + Flat(groups))[0] == b
    requires blk.Length == DCTSIZE2 && Progress(dec.band, base, blk[..], b, dec.band.ss)
    modifies dec, blk
    ensures dec.Valid() && dec.perm.data == old(dec.perm.data) && Progress(dec.band, base, blk[..], b, dec.band.se + 1)
    ensures follow1 + Flat(groups1) == (follow + Flat(groups))[1..]
    ensures Awaits(dec.band, dec.t, follow1, groups1, dec.eobrun, dec.perm.data, dec.perm.at, end)
    ensures dec.perm.insufficientData == (dec.perm.at > 8 * |dec.perm.data|)
  {
    hide Proper, Usable, IsBand, Flat, Progress, Awaits, Refined, BitReader.Valid, IsTable, Legal;
    ghost var cur := blk[..];
    follow1, groups1 := BlockDecodes(dec.band, dec.t, base, cur, follow, groups, dec.eobrun, dec.perm.data, dec.perm.at,
      end);
    var done := dec.DecodeUnderSchedule(blk, schedule);
  }

  /** Decodes the blocks of a scan in place. */
  method DecodeBlocks(band: Band, t: Table, tbl: DecodeTable, src: seq<byte>, blks: seq<array<Coef>>,
      schedules: seq<seq<int>>, ghost before: seq<seq<Coef>>, ghost blocks: seq<Block>, ghost groups: seq<seq<Block>>)
    returns (insufficient: bool)
    requires IsBand(band) && Proper(OneBook(t)) && Usable(tbl, t) && AreGroups(band, groups) && Flat(groups) == blocks
    requires AllCoded(OneBook(t), StreamTokens(band, groups))
    requires Spell(OneBook(t), StreamTokens(band, groups)) <= Unpacked(Segment(src, 0))
    requires AreBlocks(blks) && |blks| == |blocks| == |schedules| && UpTo(band, Contents(blks), before, blocks, 0)
    requires forall i :: 0 <= i < |schedules| ==> Served(schedules[i])
    modifies blks
    ensures UpTo(band, Contents(blks), before, blocks, |blocks|) && !insufficient
  {
    hide Proper, Usable, IsBand, AreGroups, Flat, AllCoded, Spell, Unpacked, Segment, StreamTokens, Progress, Awaits,
      Refined;
    hide BitReader.Valid, IsTable, Legal, UpTo, RefineDecoder.Valid;
    var br := new BitReader(src, 0);
    var dec := new RefineDecoder(band, t, tbl, br);
    ghost var data, end := br.data, |Spell(OneBook(t), StreamTokens(band, groups))|;
    ghost var follow: seq<Block>, later, cur := [], groups, Contents(blks);
    StartAwaits(band, t, groups, data);
    assert [] + Flat(later) == blocks[0..];
    dec.StillMoved(br);
    BookIsTable(t);
    for i := 0 to |blks|
      invariant fresh(dec) && dec.Valid() && dec.perm.data == data && dec.band == band && dec.t == t
      invariant dec.perm.insufficientData == (dec.perm.at > 8 * |data|)
      invariant Awaits(band, t, follow, later, dec.eobrun, data, dec.perm.at, end)
        && follow + Flat(later) == blocks[i..]
      invariant |cur| == |blks| && UpTo(band, cur, before, blocks, i) && cur == Contents(blks)
    {
      NextIs(band, cur, before, blocks, i);
      AwaitsEnd(band, t, follow, later, dec.eobrun, data, dec.perm.at, end);
      assert blocks[i..][0] == blocks[i] && blocks[i..][1..] == blocks[i + 1..];
      follow, later := DecodeNext(dec, blks[i], schedules[i], before[i], blocks[i], follow, later, end);
      UpToStep(band, cur, before, blocks, i, blks[i][..]);
      cur := cur[i := blks[i][..]];
    }
    AwaitsEnd(band, t, follow, later, dec.eobrun, data, dec.perm.at, end);
    insufficient := dec.perm.insufficientData;
  }

  lemma StartAwaits(band: Band, t: Table, groups: seq<seq<Block>>, data: seq<byte>)
    requires IsBand(band) && Proper(OneBook(t)) && AreGroups(band, groups)
    requires AllCoded(OneBook(t), StreamTokens(band, groups))
    requires Spell(OneBook(t), StreamTokens(band, groups)) <= Unpacked(data)
    ensures Awaits(band, t, [], groups, 0, data, 0, |Spell(OneBook(t), StreamTokens(band, groups))|)
    ensures |Spell(OneBook(t), StreamTokens(band, groups))| <= 8 * |data|
  {
    hide AllCoded, Spell, StreamTokens, BitAt, Proper, AreGroups;
    assert TokensAhead(band, [], groups) == [] + StreamTokens(band, groups) == StreamTokens(band, groups);
    var s, u := Spell(OneBook(t), StreamTokens(band, groups)), Unpacked(data);
    assert BitsAt(data, 0, |s|) == u[..|s|] == s;
  }

  lemma AwaitsEnd(band: Band, t: Table, follow: seq<Block>, groups: seq<seq<Block>>, run: nat, data: seq<byte>, at: nat,
      end: nat)
    requires IsBand(band) && Proper(OneBook(t)) && Awaits(band, t, follow, groups, run, data, at, end)
    ensures at <= end
  {
    hide AllCoded, Spell, TokensAhead, Carries, Proper, AreGroups, AreFollowers;
  }

  /**
   * For every table, every band and every number of blocks: if the decoder's blocks hold the coefficients cut down to
   * bit al + 1, decoding what the encoder wrote leaves them cut down to bit al and changes no other one, however often
   * the source suspends, and no shortage of data is reported. Encoding fails exactly if the table lacks a symbol of the
   * scan.
   */
  method RoundTripRefinement(band: Band, t: Table, blocks: seq<Block>, blks: seq<array<Coef>>, schedules: seq<seq<int>>,
                             marker: byte, rest: seq<byte>)
    returns (ok: bool, insufficient: bool)
    requires IsBand(band) && ProperTable(t, false) && marker != 0 && marker != 0xFF
    requires AreBlocks(blks) && |blks| == |blocks| == |schedules|
      && UpTo(band, Contents(blks), Contents(blks), blocks, 0)
    requires forall i :: 0 <= i < |schedules| ==> Served(schedules[i])
    modifies blks
    ensures ok ==> UpTo(band, Contents(blks), old(Contents(blks)), blocks, |blocks|) && !insufficient
    ensures !ok ==> Contents(blks) == old(Contents(blks))
    ensures Proper(OneBook(t)) && (ok <==> AllCoded(OneBook(t), RefineTokens(band, blocks)))
  {
    hide Encodes, Decodes, IsBand, UpTo, Stuff, Segment, Unpacked, StreamTokens, Flat, AreGroups, AllCoded, Spell,
      Proper;
    hide CountTo, ProperSymbols, Spare, Coded, IsCut;
    var ok1, e := MakeEncodeTable(t, false);
    var out;
    ghost var data;
    insufficient := false;
    ok, out, data := EncodeBlocks(band, t, e, blocks);
    if ok {
      var src := out + [0xFF, marker] + rest;
      assert src[0..] == src == (Stuff(data) + [0xFF, marker]) + rest;
      SegmentOfStuffed(src, 0, data, marker);
      var ok2, d := MakeDecodeTable(t, false);
      GroupsAre(band, blocks);
      insufficient := DecodeBlocks(band, t, d, src, blks, schedules, Contents(blks), blocks, GroupsOf(band, blocks));
    }
  }

  lemma GroupsAre(band: Band, blocks: seq<Block>)
    requires IsBand(band)
    ensures AreGroups(band, GroupsOf(band, blocks)) && Flat(GroupsOf(band, blocks)) == blocks
    ensures RefineTokens(band, blocks) == StreamTokens(band, GroupsOf(band, blocks))
  {
    hide AreGroups, Flat, Cuts, StreamTokens;
    CutsAre(band, blocks);
    ShownClose(band, Cuts(band, blocks));
  }
}
