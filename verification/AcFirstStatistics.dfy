/** The statistics pass of a first AC scan, with end-of-band runs pending over blocks and with restarts. */
module AcFirstStatistics {
  import opened Words
  import opened ByteStuffing
  import opened Coefficients
  import opened HuffTables
  import opened HuffDerived
  import opened HuffBitWriter
  import opened HuffTokens
  import opened HuffBlocks
  import opened HuffCounts
  import opened HuffSink
  import opened HuffGeneration
  import opened HuffSizes
  import opened RefineDecoding
  import opened RefineEncoding
  import opened AcFirst
  import opened AcFirstEncoder
  import AcFirstRoundTrip
  import HuffStatistics
  import RefineStatistics
  import RefineRoundTrip

  /** What is sent in each restart interval: a run that is held back is closed at its end. */
  function IntervalTokens(band: Band, maxBits: nat, intervals: seq<seq<Block>>): (lists: seq<seq<Token>>)
    requires IsBand(band) && maxBits <= 15
    ensures |lists| == |intervals|
  {
    seq(|intervals|, i requires 0 <= i < |intervals| => Tokens(band, maxBits, intervals[i], 0))
  }

  lemma EobUses(run: nat)
    requires run <= 0x7FFF
    ensures UsesOnly(RefineStatistics.OneTable(), Eob(run))
  {
    if run > 0 {
      RefineStatistics.RunPlain(run);
      RefineStatistics.PlainUses(RunTokens(run));
    }
  }

  lemma {:induction false} ScanUses(band: Band, maxBits: nat, blocks: seq<Block>, run: nat)
    requires IsBand(band) && maxBits <= 15 && run < 0x7FFF
    ensures UsesOnly(RefineStatistics.OneTable(), Tokens(band, maxBits, blocks, run))
    decreases |blocks|
  {
    hide Uses, End, Eob, RefineStatistics.OneTable, AcTokens, Body;
    var sel := RefineStatistics.OneTable();
    EobUses(run);
    if blocks != [] {
      var rest := blocks[1..];
      if End(band, blocks[0]) > band.ss {
        TableSelected();
        HuffStatistics.AcUses(sel, 0, maxBits, Body(band, blocks[0]), band.ss, 0);
        ScanUses(band, maxBits, rest, if End(band, blocks[0]) <= band.se then 1 else 0);
      } else if run + 1 == 0x7FFF {
        EobUses(0x7FFF);
        ScanUses(band, maxBits, rest, 0);
      } else {
        ScanUses(band, maxBits, rest, run + 1);
      }
    }
  }

  lemma TableSelected()
    ensures Selects(RefineStatistics.OneTable(), false, 0)
  {
    assert RefineStatistics.OneTable().ac[0] == 0;
  }

  lemma ListsUse(band: Band, maxBits: nat, intervals: seq<seq<Block>>)
    requires IsBand(band) && maxBits <= 15
    ensures UsesOnly(RefineStatistics.OneTable(), Joined(IntervalTokens(band, maxBits, intervals)))
  {
    hide Tokens, UsesOnly, Joined, RefineStatistics.OneTable;
    var lists := IntervalTokens(band, maxBits, intervals);
    forall i | 0 <= i < |lists|
      ensures UsesOnly(RefineStatistics.OneTable(), lists[i])
    {
      ScanUses(band, maxBits, intervals[i], 0);
    }
    JoinedUses(RefineStatistics.OneTable(), lists);
  }

  lemma EobSymbols(run: nat)
    requires run <= 0x7FFF
    ensures SymbolsIn(Eob(run), false, 0) == if run > 0 then 1 else 0
  {
    hide NumBits, SymbolsIn;
    if run == 0 {
      NoSymbols(false, 0);
    } else {
      RefineStatistics.RunSymbols(run);
    }
  }

  /** The symbols of a run that is pending and of blocks. */
  lemma {:induction false} TokensAtMost(band: Band, maxBits: nat, blocks: seq<Block>, run: nat)
    requires IsBand(band) && maxBits <= 15 && run < 0x7FFF
    ensures SymbolsIn(Tokens(band, maxBits, blocks, run), false, 0)
            <= SYMBOLS_PER_BLOCK * |blocks| + if run > 0 then 1 else 0
    decreases |blocks|
  {
    hide SymbolsIn, Eob, AcTokens, End, Body;
    EobSymbols(run);
    if blocks != [] {
      var b, rest := blocks[0], blocks[1..];
      EobSymbols(0x7FFF);
      if End(band, b) > band.ss {
        var open := if End(band, b) <= band.se then 1 else 0;
        AcAtMost(0, maxBits, Body(band, b), band.ss, 0, false, 0);
        TokensAtMost(band, maxBits, rest, open);
        SymbolsConcat(Head(band, maxBits, b), Tokens(band, maxBits, rest, open), false, 0);
        SymbolsConcat(Eob(run), Head(band, maxBits, b) + Tokens(band, maxBits, rest, open), false, 0);
      } else if run + 1 == 0x7FFF {
        TokensAtMost(band, maxBits, rest, 0);
        SymbolsConcat(Eob(0x7FFF), Tokens(band, maxBits, rest, 0), false, 0);
      } else {
        TokensAtMost(band, maxBits, rest, run + 1);
      }
    }
  }

  lemma {:induction false} TokensAtLeast(band: Band, maxBits: nat, blocks: seq<Block>, run: nat)
    requires IsBand(band) && maxBits <= 15 && run < 0x7FFF && (run > 0 || blocks != [])
    requires Fault !in Tokens(band, maxBits, blocks, run)
    ensures SymbolsIn(Tokens(band, maxBits, blocks, run), false, 0) >= 1
    decreases |blocks|
  {
    hide SymbolsIn, Eob, AcTokens, End, Body;
    EobSymbols(run);
    if blocks != [] {
      var b, rest := blocks[0], blocks[1..];
      EobSymbols(0x7FFF);
      if End(band, b) > band.ss {
        var later := Tokens(band, maxBits, rest, if End(band, b) <= band.se then 1 else 0);
        AcAtLeast(0, maxBits, Body(band, b), band.ss, 0);
        SymbolsConcat(Head(band, maxBits, b), later, false, 0);
        SymbolsConcat(Eob(run), Head(band, maxBits, b) + later, false, 0);
      } else if run + 1 == 0x7FFF {
        SymbolsConcat(Eob(0x7FFF), Tokens(band, maxBits, rest, 0), false, 0);
      } else {
        TokensAtLeast(band, maxBits, rest, run + 1);
      }
    }
  }

  lemma ListsSized(band: Band, maxBits: nat, intervals: seq<seq<Block>>)
    requires IsBand(band) && maxBits <= 15 && Fault !in Joined(IntervalTokens(band, maxBits, intervals))
    ensures Sized(RefineStatistics.OneTable(), IntervalTokens(band, maxBits, intervals),
      RefineStatistics.BlockCounts(intervals))
  {
    hide SymbolsIn, Tokens, Joined;
    var lists, blocks := IntervalTokens(band, maxBits, intervals), RefineStatistics.BlockCounts(intervals);
    forall i | 0 <= i < |lists|
      ensures SymbolsIn(lists[i], false, 0) <= SYMBOLS_PER_BLOCK * blocks[i]
      ensures blocks[i] > 0 ==> SymbolsIn(lists[i], false, 0) >= 1
    {
      FaultFree(lists, i);
      TokensAtMost(band, maxBits, intervals[i], 0);
      if blocks[i] > 0 {
        TokensAtLeast(band, maxBits, intervals[i], 0);
      }
    }
  }

  /** A statistics pass stops only at a coefficient that is too large. */
  lemma GatherTakes(sink: TokenSink, sel: Selection, toks: seq<Token>)
    requires sink.Set() && sink.gather && UsesOnly(sel, toks)
    ensures sink.TakesAll(toks) <==> Fault !in toks
  {
    forall tok | tok in toks
      ensures sink.Takes(tok) <==> tok != Fault
    {
      assert Uses(sel, tok);
    }
  }

  /** The counts are the multiplicities of the symbols that the output pass writes. */
  lemma ScanCountsAre(band: Band, maxBits: nat, t: Table, intervals: seq<seq<Block>>, s: byte)
    requires IsBand(band) && maxBits <= 15
    ensures CountsOf(OneBook(t), Joined(IntervalTokens(band, maxBits, intervals))).ac[0][s]
            == Occurrences(Joined(IntervalTokens(band, maxBits, intervals)), Symbol(false, 0, s))
  {
    hide Tokens, Joined;
    TallyIs(0, 1, Joined(IntervalTokens(band, maxBits, intervals)), false, 0, s);
  }

  /** The statistics pass over the blocks up to a restart or the end of the scan. */
  method GatherBlocks(band: Band, maxBits: nat, blocks: seq<Block>, counts: Tally, ghost t: Table)
      returns (ok: bool, c: Tally)
    requires IsBand(band) && maxBits <= 15 && Matches(counts, OneBook(t))
    ensures ok <==> Fault !in Tokens(band, maxBits, blocks, 0)
    ensures ok ==> c == AddAll(counts, Tokens(band, maxBits, blocks, 0)) && Matches(c, OneBook(t))
  {
    hide IsBand, AddAll, Tokens, UsesOnly, TokenSink.TakesAll, RefineStatistics.OneTable;
    var bw := new BitWriter([]);
    var sink := new TokenSink.Gatherer(bw, counts, OneBook(t));
    var enc := new FirstEncoder(sink, band, maxBits);
    ok := AcFirstRoundTrip.SendBlocks(enc, blocks);
    ScanUses(band, maxBits, blocks, 0);
    GatherTakes(sink, RefineStatistics.OneTable(), Tokens(band, maxBits, blocks, 0));
    c := sink.counts;
  }

  /** The statistics pass over a scan. */
  method GatherScan(band: Band, maxBits: nat, intervals: seq<seq<Block>>, ghost t: Table)
      returns (ok: bool, counts: Tally)
    requires IsBand(band) && maxBits <= 15
    ensures ok <==> Fault !in Joined(IntervalTokens(band, maxBits, intervals))
    ensures ok ==> counts == CountsOf(OneBook(t), Joined(IntervalTokens(band, maxBits, intervals)))
  {
    hide IsBand, Tokens, AddAll, Joined;
    ghost var lists := IntervalTokens(band, maxBits, intervals);
    counts := NoCounts(0, 1);
    RefineStatistics.NothingYet(t, lists);
    JoinedNothing(lists);
    for i := 0 to |intervals|
      invariant counts == CountsOf(OneBook(t), Joined(lists[..i])) && Fault !in Joined(lists[..i])
    {
      JoinedNext(lists, i);
      AddConcat(NoCounts(0, 1), Joined(lists[..i]), lists[i]);
      EachIn(lists, i);
      ok, counts := GatherBlocks(band, maxBits, intervals[i], counts, t);
      if !ok {
        return;
      }
    }
    assert lists[..|lists|] == lists;
    ok := true;
  }

  lemma JoinedNothing(lists: seq<seq<Token>>)
    ensures Joined(lists[..0]) == []
  {
  }

  /**
   * The optimizing encoder for a first AC scan with restarts: statistics, table generation, output. It gives up exactly
   * if a coefficient is too large or an optimal code too long.
   */
  method OptimizeFirst(band: Band, maxBits: nat, htbl: Table, intervals: seq<seq<Block>>) returns (r: Optimized)
    requires IsBand(band) && maxBits <= 15 && ProperTable(htbl, false)
    requires FewEnough(RefineStatistics.BlockCounts(intervals), RefineStatistics.OneTable(),
                       CountsOf(OneBook(htbl), Joined(IntervalTokens(band, maxBits, intervals))))
    ensures IsOptimized(r, OneBook(htbl), RefineStatistics.OneTable(), IntervalTokens(band, maxBits, intervals))
  {
    hide IsBand, Tokens, AddAll, ProperTable, Proper, Joined, AllCountable, AllLimitable, GeneratedFor, Spells,
      UsesOnly, FewEnough, Sized;
    ghost var lists := IntervalTokens(band, maxBits, intervals);
    ListsUse(band, maxBits, intervals);
    RefineRoundTrip.BookIsProper(htbl);
    var ok, counts := GatherScan(band, maxBits, intervals, htbl);
    if !ok {
      return CoefficientTooLarge;
    }
    ListsSized(band, maxBits, intervals);
    SizedIsCountable(OneBook(htbl), RefineStatistics.OneTable(), lists, RefineStatistics.BlockCounts(intervals));
    var books;
    ok, books := GenerateBooks(OneBook(htbl), RefineStatistics.OneTable(), counts, Joined(lists));
    if !ok {
      return CodeTooLong;
    }
    var e := RefineStatistics.OneDerived(books);
    var segments: seq<seq<byte>> := [];
    for i := 0 to |intervals|
      invariant |segments| == i && forall j :: 0 <= j < i ==> Spells(books, lists[j], segments[j])
    {
      EachIn(lists, i);
      NothingMissing(RefineStatistics.OneTable(), OneBook(htbl), books, Joined(lists), lists[i]);
      var out := WriteBlocks(band, maxBits, books, e, intervals[i]);
      segments := segments + [out];
    }
    r := Written(books, segments);
  }

  /** The output pass over one interval. */
  method WriteBlocks(band: Band, maxBits: nat, books: Books, e: EncodeTable, blocks: seq<Block>)
      returns (out: seq<byte>)
    requires IsBand(band) && maxBits <= 15
    requires |books.ac| == 1 && ProperTable(books.ac[0], false) && Encodes(e, books.ac[0], Symbols(books.ac[0]))
    requires books == OneBook(books.ac[0]) && Proper(books) && AllCoded(books, Tokens(band, maxBits, blocks, 0))
    ensures Spells(books, Tokens(band, maxBits, blocks, 0), out)
  {
    hide IsBand, Tokens, ProperTable, Encodes, AllCoded, Proper, Stuff, Unpacked, Spell;
    ghost var data;
    var ok;
    ok, out, data := AcFirstRoundTrip.EncodeBlocks(band, maxBits, books.ac[0], e, blocks);
  }
}
