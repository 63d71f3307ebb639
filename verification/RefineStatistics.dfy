/**
 * The statistics pass of an AC refinement scan, with end-of-band runs pending over blocks and with restarts: it counts
 * exactly the symbols of the output pass, so that the generated table never lacks one.
 */
module RefineStatistics {
  import opened Words
  import opened ByteStuffing
  import opened Coefficients
  import opened HuffTables
  import opened HuffDerived
  import opened HuffBitWriter
  import opened HuffTokens
  import opened HuffBlocks
  import opened HuffCounts
  import opened HuffSink
  import opened HuffGeneration
  import opened HuffSizes
  import opened RefineDecoding
  import opened RefineEncoding
  import opened RefineStream
  import opened RefineEncoder
  import opened RefineRoundTrip

  /** An AC scan of a progressive image uses one table. */
  function OneTable(): Selection {
    Selection([], [0])
  }

  // ---------------------------------------------------------------------------------------------
  // The tokens of a scan
  // ---------------------------------------------------------------------------------------------

  /** Symbols of the one table of the scan, and raw bits. */
  predicate Plain(toks: seq<Token>) {
    forall tok :: tok in toks ==> IsPlain(tok)
  }

  predicate IsPlain(tok: Token) {
    match tok
    case Symbol(dc, tbl, s) => !dc && tbl == 0 && s % 16 <= 14
    case Bits(_, n) => 1 <= n <= 16
    case Fault => false
  }

  lemma PlainUses(toks: seq<Token>)
    requires Plain(toks)
    ensures UsesOnly(OneTable(), toks) && Fault !in toks
  {
    forall tok | tok in toks
      ensures Uses(OneTable(), tok) && tok != Fault
    {
      assert IsPlain(tok);
      assert OneTable().ac[0] == 0;
    }
  }

  lemma {:induction false} CorrectionsPlain(band: Band, b: Block, k: nat, end: nat)
    requires IsBand(band) && k <= end <= band.se + 1
    ensures Plain(Corrections(band, b, k, end))
    decreases end - k
  {
    hide Mag;
    if k < end { CorrectionsPlain(band, b, k + 1, end); }
  }

  lemma {:induction false} HeadPlain(band: Band, b: Block, k: nat)
    requires IsBand(band) && k <= band.se + 1
    ensures Plain(HeadFrom(band, b, k))
    decreases band.se + 1 - k
  {
    hide Mag, Corrections, NextNew, ZerosIn, NthZero;
    var j := NextNew(band, b, k);
    if j <= band.se {
      if ZerosIn(band, b, k, j) > 15 {
        var z := NthZero(band, b, k, j, 15);
        CorrectionsPlain(band, b, k, z);
        HeadPlain(band, b, z + 1);
      } else {
        CorrectionsPlain(band, b, k, j);
        HeadPlain(band, b, j + 1);
      }
    }
  }

  lemma RunPlain(n: nat)
    requires 1 <= n <= 0x7FFF
    ensures Plain(RunTokens(n))
  {
    NumBitsBound(n, 15);
    assert 16 * (NumBits(n) - 1) % 16 == 0;
  }

  lemma {:induction false} FollowersPlain(band: Band, blocks: seq<Block>)
    requires IsBand(band)
    ensures Plain(Followers(band, blocks))
    decreases |blocks|
  {
    hide Corrections;
    if blocks != [] {
      CorrectionsPlain(band, blocks[0], band.ss, band.se + 1);
      FollowersPlain(band, blocks[1..]);
    }
  }

  lemma GroupPlain(band: Band, g: seq<Block>)
    requires IsBand(band) && IsGroup(band, g)
    ensures Plain(GroupTokens(band, g))
  {
    hide HeadFrom, Corrections, Followers, RunTokens, TailStart;
    HeadPlain(band, g[0], band.ss);
    RunPlain(|g|);
    CorrectionsPlain(band, g[0], TailStart(band, g[0], band.ss), band.se + 1);
    FollowersPlain(band, g[1..]);
  }

  lemma {:induction false} StreamPlain(band: Band, groups: seq<seq<Block>>)
    requires IsBand(band) && AreGroups(band, groups)
    ensures Plain(StreamTokens(band, groups))
    decreases |groups|
  {
    hide GroupTokens, IsGroup;
    if groups != [] {
      GroupPlain(band, groups[0]);
      StreamPlain(band, groups[1..]);
    }
  }

  lemma ScanPlain(band: Band, blocks: seq<Block>)
    requires IsBand(band)
    ensures Plain(RefineTokens(band, blocks))
  {
    hide GroupsOf, AreGroups, StreamTokens;
    GroupsAre(band, blocks);
    StreamPlain(band, GroupsOf(band, blocks));
  }

  // ---------------------------------------------------------------------------------------------
  // Both passes over a scan with restarts
  // ---------------------------------------------------------------------------------------------

  /** What is sent in each restart interval: a run that is held back is closed at its end. */
  function IntervalTokens(band: Band, intervals: seq<seq<Block>>): (lists: seq<seq<Token>>)
    requires IsBand(band)
    ensures |lists| == |intervals|
  {
    seq(|intervals|, i requires 0 <= i < |intervals| => RefineTokens(band, intervals[i]))
  }

  lemma ListsPlain(band: Band, intervals: seq<seq<Block>>)
    requires IsBand(band)
    ensures UsesOnly(OneTable(), Joined(IntervalTokens(band, intervals)))
      && Fault !in Joined(IntervalTokens(band, intervals))
    ensures forall i :: 0 <= i < |intervals| ==> Fault !in IntervalTokens(band, intervals)[i]
  {
    hide RefineTokens, Plain, UsesOnly, Joined, OneTable;
    var lists := IntervalTokens(band, intervals);
    forall i | 0 <= i < |lists|
      ensures UsesOnly(OneTable(), lists[i]) && Fault !in lists[i]
    {
      ScanPlain(band, intervals[i]);
      PlainUses(lists[i]);
    }
    JoinedUses(OneTable(), lists);
    NoFault(lists);
  }

  lemma {:induction false} NoFault(lists: seq<seq<Token>>)
    requires forall i :: 0 <= i < |lists| ==> Fault !in lists[i]
    ensures Fault !in Joined(lists)
    decreases |lists|
  {
    if lists != [] {
      NoFault(lists[..|lists| - 1]);
    }
  }

  /** Correction bits are no symbols. */
  lemma {:induction false} CorrectionsSendNone(band: Band, b: Block, k: nat, end: nat)
    requires IsBand(band) && k <= end <= band.se + 1
    ensures SymbolsIn(Corrections(band, b, k, end), false, 0) == 0
    decreases end - k
  {
    hide Mag, SymbolsIn;
    NoSymbols(false, 0);
    if k < end {
      var now := if Mag(band, b, k) > 1 then [Bits(Mag(band, b, k) % 2, 1)] else [];
      CorrectionsSendNone(band, b, k + 1, end);
      OneSymbol(Bits(Mag(band, b, k) % 2, 1), false, 0);
      SymbolsConcat(now, Corrections(band, b, k + 1, end), false, 0);
    }
  }

  lemma {:induction false} FollowersSendNone(band: Band, blocks: seq<Block>)
    requires IsBand(band)
    ensures SymbolsIn(Followers(band, blocks), false, 0) == 0
    decreases |blocks|
  {
    hide Corrections, SymbolsIn;
    NoSymbols(false, 0);
    if blocks != [] {
      CorrectionsSendNone(band, blocks[0], band.ss, band.se + 1);
      FollowersSendNone(band, blocks[1..]);
      SymbolsConcat(Corrections(band, blocks[0], band.ss, band.se + 1), Followers(band, blocks[1..]), false, 0);
    }
  }

  /** Every symbol of the head takes a position; there is one if a coefficient becomes nonzero. */
  lemma {:induction false} HeadSymbols(band: Band, b: Block, k: nat)
    requires IsBand(band) && k <= band.se + 1
    ensures SymbolsIn(HeadFrom(band, b, k), false, 0) <= band.se + 1 - k
    ensures NextNew(band, b, k) <= band.se ==> SymbolsIn(HeadFrom(band, b, k), false, 0) >= 1
    decreases band.se + 1 - k
  {
    hide Mag, Corrections, NextNew, ZerosIn, NthZero, SymbolsIn;
    var j := NextNew(band, b, k);
    NoSymbols(false, 0);
    if j <= band.se {
      if ZerosIn(band, b, k, j) > 15 {
        var z := NthZero(band, b, k, j, 15);
        CorrectionsSendNone(band, b, k, z);
        HeadSymbols(band, b, z + 1);
        OneSymbol(Symbol(false, 0, ZRL), false, 0);
        SymbolsConcat(Corrections(band, b, k, z), HeadFrom(band, b, z + 1), false, 0);
        SymbolsConcat([Symbol(false, 0, ZRL)], Corrections(band, b, k, z) + HeadFrom(band, b, z + 1), false, 0);
      } else {
        CorrectionsSendNone(band, b, k, j);
        HeadSymbols(band, b, j + 1);
        NewSymbols(band, b, j, ZerosIn(band, b, k, j));
        SymbolsConcat(Corrections(band, b, k, j), HeadFrom(band, b, j + 1), false, 0);
        SymbolsConcat(NewTokens(band, b, j, ZerosIn(band, b, k, j)),
          Corrections(band, b, k, j) + HeadFrom(band, b, j + 1), false, 0);
      }
    }
  }

  lemma NewSymbols(band: Band, b: Block, j: nat, r: nat)
    requires IsBand(band) && j <= band.se && r <= 15
    ensures SymbolsIn(NewTokens(band, b, j, r), false, 0) == 1
  {
    hide SymbolsIn;
    OneSymbol(Symbol(false, 0, 16 * r + 1), false, 0);
    SymbolWithBits(Symbol(false, 0, 16 * r + 1), SignOf(b[band.order[j]]), 1, false, 0);
  }

  lemma RunSymbols(run: nat)
    requires 1 <= run <= 0x7FFF
    ensures SymbolsIn(RunTokens(run), false, 0) == 1
  {
    hide NumBits, SymbolsIn;
    NumBitsBound(run, 15);
    var nbits: nat := NumBits(run) - 1;
    OneSymbol(Symbol(false, 0, 16 * nbits), false, 0);
    SymbolWithBits(Symbol(false, 0, 16 * nbits), run, nbits, false, 0);
  }

  lemma GroupSymbols(band: Band, g: seq<Block>)
    requires IsBand(band) && IsGroup(band, g)
    ensures 1 <= SymbolsIn(GroupTokens(band, g), false, 0) <= SYMBOLS_PER_BLOCK * |g|
  {
    hide HeadFrom, Corrections, Followers, RunTokens, SymbolsIn, Mag;
    var tail := TailStart(band, g[0], band.ss);
    var head := HeadFrom(band, g[0], band.ss);
    HeadSymbols(band, g[0], band.ss);
    NoSymbols(false, 0);
    SymbolsConcat(head, [], false, 0);
    if tail <= band.se {
      var own, others := Corrections(band, g[0], tail, band.se + 1), Followers(band, g[1..]);
      RunSymbols(|g|);
      CorrectionsSendNone(band, g[0], tail, band.se + 1);
      FollowersSendNone(band, g[1..]);
      SymbolsConcat(RunTokens(|g|), own, false, 0);
      SymbolsConcat(RunTokens(|g|) + own, others, false, 0);
      SymbolsConcat(head, RunTokens(|g|) + own + others, false, 0);
    }
  }

  lemma {:induction false} StreamSymbols(band: Band, groups: seq<seq<Block>>)
    requires IsBand(band) && AreGroups(band, groups)
    ensures SymbolsIn(StreamTokens(band, groups), false, 0) <= SYMBOLS_PER_BLOCK * |Flat(groups)|
    ensures groups != [] ==> SymbolsIn(StreamTokens(band, groups), false, 0) >= 1
    decreases |groups|
  {
    hide GroupTokens, IsGroup, SymbolsIn;
    NoSymbols(false, 0);
    if groups != [] {
      GroupSymbols(band, groups[0]);
      StreamSymbols(band, groups[1..]);
      SymbolsConcat(GroupTokens(band, groups[0]), StreamTokens(band, groups[1..]), false, 0);
    }
  }

  lemma ListsSized(band: Band, intervals: seq<seq<Block>>)
    requires IsBand(band)
    ensures Sized(OneTable(), IntervalTokens(band, intervals), BlockCounts(intervals))
  {
    hide SymbolsIn, RefineTokens, StreamTokens, AreGroups, GroupsOf;
    var lists, blocks := IntervalTokens(band, intervals), BlockCounts(intervals);
    forall i | 0 <= i < |lists|
      ensures SymbolsIn(lists[i], false, 0) <= SYMBOLS_PER_BLOCK * blocks[i]
      ensures blocks[i] > 0 ==> SymbolsIn(lists[i], false, 0) >= 1
    {
      GroupsAre(band, intervals[i]);
      StreamSymbols(band, GroupsOf(band, intervals[i]));
    }
  }

  /** The number of blocks in each interval. */
  function BlockCounts(intervals: seq<seq<Block>>): (n: seq<nat>)
    ensures |n| == |intervals|
  {
    seq(|intervals|, i requires 0 <= i < |intervals| => |intervals[i]|)
  }

  /** The counts are the multiplicities of the symbols that the output pass writes. */
  lemma ScanCountsAre(band: Band, t: Table, intervals: seq<seq<Block>>, s: byte)
    requires IsBand(band)
    ensures CountsOf(OneBook(t), Joined(IntervalTokens(band, intervals))).ac[0][s]
            == Occurrences(Joined(IntervalTokens(band, intervals)), Symbol(false, 0, s))
  {
    hide RefineTokens, Joined;
    TallyIs(0, 1, Joined(IntervalTokens(band, intervals)), false, 0, s);
  }

  /** The statistics pass over the blocks up to a restart or the end of the scan; it cannot fail. */
  method GatherBlocks(band: Band, blocks: seq<Block>, counts: Tally, ghost t: Table) returns (c: Tally)
    requires IsBand(band) && Matches(counts, OneBook(t))
    ensures c == AddAll(counts, RefineTokens(band, blocks)) && Matches(c, OneBook(t))
  {
    hide IsBand, AddAll, RefineTokens, IsTally, PartOf;
    var bw := new BitWriter([]);
    var sink := new TokenSink.Gatherer(bw, counts, OneBook(t));
    var enc := new RefineEncoder(sink, band);
    var ok := SendBlocks(enc, blocks);
    Never(enc);
    c := sink.counts;
  }

  /** A statistics pass lacks nothing. */
  lemma Never(enc: RefineEncoder)
    requires enc.sink.gather
    ensures forall toks :: !enc.Lacks(toks)
  {
  }

  /** The statistics pass over a scan. */
  method GatherScan(band: Band, intervals: seq<seq<Block>>, ghost t: Table) returns (counts: Tally)
    requires IsBand(band)
    ensures counts == CountsOf(OneBook(t), Joined(IntervalTokens(band, intervals)))
  {
    hide IsBand, RefineTokens, AddAll, Joined;
    ghost var lists := IntervalTokens(band, intervals);
    counts := NoCounts(0, 1);
    NothingYet(t, lists);
    for i := 0 to |intervals|
      invariant counts == CountsOf(OneBook(t), Joined(lists[..i]))
    {
      JoinedNext(lists, i);
      AddConcat(NoCounts(0, 1), Joined(lists[..i]), lists[i]);
      counts := GatherBlocks(band, intervals[i], counts, t);
    }
    assert lists[..|lists|] == lists;
  }

  lemma NothingYet(t: Table, lists: seq<seq<Token>>)
    ensures CountsOf(OneBook(t), Joined(lists[..0])) == NoCounts(0, 1)
  {
  }

  /**
   * The optimizing encoder for a refinement scan with restarts: statistics, table generation, output. If no optimal
   * code is too long, the output pass succeeds on every interval.
   */
  method OptimizeRefinement(band: Band, htbl: Table, intervals: seq<seq<Block>>) returns (r: Optimized)
    requires IsBand(band) && ProperTable(htbl, false)
    requires FewEnough(BlockCounts(intervals), OneTable(),
      CountsOf(OneBook(htbl), Joined(IntervalTokens(band, intervals))))
    ensures IsOptimized(r, OneBook(htbl), OneTable(), IntervalTokens(band, intervals)) && !r.CoefficientTooLarge?
  {
    hide IsBand, RefineTokens, AddAll, ProperTable, Proper, Joined, AllCountable, AllLimitable, GeneratedFor, Spells,
      UsesOnly, FewEnough, Sized;
    ghost var lists := IntervalTokens(band, intervals);
    ListsPlain(band, intervals);
    BookIsProper(htbl);
    var counts := GatherScan(band, intervals, htbl);
    ListsSized(band, intervals);
    SizedIsCountable(OneBook(htbl), OneTable(), lists, BlockCounts(intervals));
    var ok, books := GenerateBooks(OneBook(htbl), OneTable(), counts, Joined(lists));
    if !ok {
      return CodeTooLong;
    }
    var e := OneDerived(books);
    var segments: seq<seq<byte>> := [];
    for i := 0 to |intervals|
      invariant |segments| == i && forall j :: 0 <= j < i ==> Spells(books, lists[j], segments[j])
    {
      EachIn(lists, i);
      NothingMissing(OneTable(), OneBook(htbl), books, Joined(lists), lists[i]);
      var out := WriteBlocks(band, books, e, intervals[i]);
      segments := segments + [out];
    }
    r := Written(books, segments);
  }

  /** The encoder's form of the one table of a scan. */
  method OneDerived(books: Books) returns (e: EncodeTable)
    requires Proper(books) && |books.dc| == 0 && |books.ac| == 1
    ensures ProperTable(books.ac[0], false) && Encodes(e, books.ac[0], Symbols(books.ac[0]))
      && books == OneBook(books.ac[0])
  {
    hide CountTo, Legal, Encodes, ProperSymbols;
    assert ProperTable(books.ac[0], false);
    var ok;
    ok, e := MakeEncodeTable(books.ac[0], false);
  }

  /** The output pass over one interval. */
  method WriteBlocks(band: Band, books: Books, e: EncodeTable, blocks: seq<Block>) returns (out: seq<byte>)
    requires IsBand(band) && |books.ac| == 1 && ProperTable(books.ac[0], false)
      && Encodes(e, books.ac[0], Symbols(books.ac[0]))
    requires books == OneBook(books.ac[0]) && Proper(books) && AllCoded(books, RefineTokens(band, blocks))
    ensures Spells(books, RefineTokens(band, blocks), out)
  {
    hide IsBand, RefineTokens, ProperTable, Encodes, AllCoded, Proper, Stuff, Unpacked, Spell;
    ghost var data;
    var ok;
    ok, out, data := EncodeBlocks(band, books.ac[0], e, blocks);
  }
}
