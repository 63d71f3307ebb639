/** The statistics pass of a first DC scan with restarts.  Refinement scans of DC coefficients need no table. */
module DcStatistics {
  import opened Words
  import opened ByteStuffing
  import opened Coefficients
  import opened HuffDerived
  import opened HuffBitWriter
  import opened HuffTokens
  import opened HuffBlocks
  import opened HuffCounts
  import opened HuffSink
  import opened HuffGeneration
  import opened HuffSizes
  import opened HuffRoundTrip
  import opened DcScans
  import opened DcRoundTrip
  import HuffStatistics
  import AcFirstStatistics

  /** What is sent in each restart interval. */
  function IntervalTokens(scan: Scan, books: Books, al: nat, intervals: seq<seq<seq<Block>>>): (lists: seq<seq<Token>>)
    requires IsDcScan(scan, books) && HuffStatistics.AreIntervals(scan, intervals) && al <= 13
    ensures |lists| == |intervals|
  {
    seq(|intervals|, i requires 0 <= i < |intervals| => FirstTokens(scan, books, al, intervals[i]))
  }

  lemma ListsUse(scan: Scan, books: Books, al: nat, intervals: seq<seq<seq<Block>>>)
    requires IsDcScan(scan, books) && HuffStatistics.AreIntervals(scan, intervals) && al <= 13
    ensures UsesOnly(HuffStatistics.SelectionOf(scan), Joined(IntervalTokens(scan, books, al, intervals)))
  {
    hide ScanTokens, IsOrder, UsesOnly, HuffStatistics.SelectionOf, Joined, DcBlock;
    var lists := IntervalTokens(scan, books, al, intervals);
    forall i | 0 <= i < |lists|
      ensures UsesOnly(HuffStatistics.SelectionOf(scan), lists[i])
    {
      HuffStatistics.ScanUses(scan, books, StartDc(scan), DcMcus(intervals[i], al));
    }
    JoinedUses(HuffStatistics.SelectionOf(scan), lists);
  }

  /** The counts are the multiplicities of the symbols that the output pass writes. */
  lemma ScanCountsAre(scan: Scan, books: Books, al: nat, intervals: seq<seq<seq<Block>>>, tbl: nat, s: byte)
    requires IsDcScan(scan, books) && HuffStatistics.AreIntervals(scan, intervals) && al <= 13 && tbl < |books.dc|
    ensures CountsOf(books, Joined(IntervalTokens(scan, books, al, intervals))).dc[tbl][s]
            == Occurrences(Joined(IntervalTokens(scan, books, al, intervals)), Symbol(true, tbl, s))
  {
    hide FirstTokens, Joined, IsDcScan;
    TallyIs(|books.dc|, |books.ac|, Joined(IntervalTokens(scan, books, al, intervals)), true, tbl, s);
  }

  /** The statistics pass over the MCUs up to a restart or the end of the scan. */
  method GatherMcus(scan: Scan, al: nat, mcus: seq<seq<Block>>, counts: Tally, ghost books: Books)
      returns (ok: bool, c: Tally)
    requires IsDcScan(scan, books) && AreMcus(scan, mcus) && al <= 13 && Matches(counts, books)
    ensures ok <==> Fault !in FirstTokens(scan, books, al, mcus)
    ensures ok ==> c == AddAll(counts, FirstTokens(scan, books, al, mcus)) && Matches(c, books)
  {
    hide AddAll, ScanTokens, UsesOnly, TokenSink.TakesAll, HuffStatistics.SelectionOf, IsOrder, DcBlock;
    var bw := new BitWriter([]);
    var sink := new TokenSink.Gatherer(bw, counts, books);
    var enc := new DcEncoder(sink, scan, al);
    ok := SendFirst(enc, mcus);
    HuffStatistics.ScanUses(scan, books, StartDc(scan), DcMcus(mcus, al));
    AcFirstStatistics.GatherTakes(sink, HuffStatistics.SelectionOf(scan), FirstTokens(scan, books, al, mcus));
    c := sink.counts;
  }

  /** The statistics pass over a scan; DC prediction starts again from zero at every restart. */
  method GatherScan(scan: Scan, al: nat, dcs: nat, acs: nat, intervals: seq<seq<seq<Block>>>, ghost books: Books)
    returns (ok: bool, counts: Tally)
    requires IsDcScan(scan, books) && HuffStatistics.AreIntervals(scan, intervals) && al <= 13
    requires |books.dc| == dcs && |books.ac| == acs
    ensures ok <==> Fault !in Joined(IntervalTokens(scan, books, al, intervals))
    ensures ok ==> counts == CountsOf(books, Joined(IntervalTokens(scan, books, al, intervals)))
  {
    hide FirstTokens, AddAll, Joined, IsDcScan;
    ghost var lists := IntervalTokens(scan, books, al, intervals);
    counts := NoCounts(dcs, acs);
    HuffStatistics.NothingJoined(books, lists);
    for i := 0 to |intervals|
      invariant counts == CountsOf(books, Joined(lists[..i])) && Fault !in Joined(lists[..i])
    {
      JoinedNext(lists, i);
      AddConcat(NoCounts(dcs, acs), Joined(lists[..i]), lists[i]);
      EachIn(lists, i);
      ok, counts := GatherMcus(scan, al, intervals[i], counts, books);
      if !ok {
        return;
      }
    }
    assert lists[..|lists|] == lists;
    ok := true;
  }

  /**
   * The optimizing encoder for a first DC scan with restarts: statistics, table generation, output. It gives up exactly
   * if a difference is too large or an optimal code too long.
   */
  method OptimizeFirst(scan: Scan, al: nat, htbls: Books, intervals: seq<seq<seq<Block>>>) returns (r: Optimized)
    requires Proper(htbls) && IsDcScan(scan, htbls) && HuffStatistics.AreIntervals(scan, intervals) && al <= 13
    requires HuffStatistics.EveryComponentCoded(scan)
    requires FewEnough(HuffStatistics.BlockCounts(scan, intervals), HuffStatistics.SelectionOf(scan),
                       CountsOf(htbls, Joined(IntervalTokens(scan, htbls, al, intervals))))
    ensures IsOptimized(r, htbls, HuffStatistics.SelectionOf(scan), IntervalTokens(scan, htbls, al, intervals))
  {
    hide FirstTokens, AddAll, ProperTable, Proper, Joined, AllCountable, AllLimitable, GeneratedFor, Spells, UsesOnly,
      IsOrder, HuffStatistics.SelectionOf, FewEnough, Sized, HuffStatistics.EveryComponentCoded;
    ghost var lists := IntervalTokens(scan, htbls, al, intervals);
    var ok, counts := GatherScan(scan, al, |htbls.dc|, |htbls.ac|, intervals, htbls);
    if !ok {
      return CoefficientTooLarge;
    }
    ListsUse(scan, htbls, al, intervals);
    HuffStatistics.SelectionInRange(scan, htbls);
    FirstSized(scan, al, htbls, intervals);
    SizedIsCountable(htbls, HuffStatistics.SelectionOf(scan), lists, HuffStatistics.BlockCounts(scan, intervals));
    var books;
    ok, books := GenerateBooks(htbls, HuffStatistics.SelectionOf(scan), counts, Joined(lists));
    if !ok {
      return CodeTooLong;
    }
    var segments := WriteScan(scan, al, htbls, books, intervals);
    r := Written(books, segments);
  }

  lemma FirstSized(scan: Scan, al: nat, books: Books, intervals: seq<seq<seq<Block>>>)
    requires IsDcScan(scan, books) && HuffStatistics.AreIntervals(scan, intervals) && al <= 13
    requires HuffStatistics.EveryComponentCoded(scan) && Fault !in Joined(IntervalTokens(scan, books, al, intervals))
    ensures Sized(HuffStatistics.SelectionOf(scan), IntervalTokens(scan, books, al, intervals),
                  HuffStatistics.BlockCounts(scan, intervals))
  {
    hide ScanTokens, Joined, Sized, HuffStatistics.SelectionOf, HuffStatistics.EveryComponentCoded, DcBlock, IsOrder;
    var cut := seq(|intervals|, i requires 0 <= i < |intervals| => DcMcus(intervals[i], al));
    assert HuffStatistics.IntervalTokens(scan, books, cut) == IntervalTokens(scan, books, al, intervals);
    assert HuffStatistics.BlockCounts(scan, cut) == HuffStatistics.BlockCounts(scan, intervals);
    HuffStatistics.ListsSized(scan, books, cut, IntervalTokens(scan, books, al, intervals));
  }

  /** The output pass with generated tables. */
  method WriteScan(scan: Scan, al: nat, ghost htbls: Books, books: Books, intervals: seq<seq<seq<Block>>>)
    returns (segments: seq<seq<byte>>)
    requires IsDcScan(scan, htbls) && HuffStatistics.AreIntervals(scan, intervals) && al <= 13 && Proper(books)
    requires Matches(CountsOf(htbls, Joined(IntervalTokens(scan, htbls, al, intervals))), books)
    requires GeneratedFor(HuffStatistics.SelectionOf(scan), books,
      CountsOf(htbls, Joined(IntervalTokens(scan, htbls, al, intervals))))
    requires Fault !in Joined(IntervalTokens(scan, htbls, al, intervals))
    ensures |segments| == |intervals|
    ensures forall i :: 0 <= i < |intervals| ==>
      Spells(books, IntervalTokens(scan, htbls, al, intervals)[i], segments[i])
  {
    hide ProperTable, GeneratedFor, ScanTokens, IsOrder, UsesOnly, AddAll, AllCoded, HuffStatistics.SelectionOf, Joined,
      EncodersFor, Spell, Stuff, Unpacked, Encodes, DcBlock;
    ghost var lists := IntervalTokens(scan, htbls, al, intervals);
    ListsUse(scan, htbls, al, intervals);
    HuffStatistics.SelectionInRange(scan, htbls);
    HuffStatistics.TablesAre(books);
    var dcOk, dcTbls := MakeEncoders(books.dc, true);
    var acOk, acTbls := MakeEncoders(books.ac, false);
    HuffStatistics.AllDerived(dcTbls, acTbls, books);
    segments := [];
    for i := 0 to |intervals|
      invariant |segments| == i && forall j :: 0 <= j < i ==> Spells(books, lists[j], segments[j])
    {
      EachIn(lists, i);
      NothingMissing(HuffStatistics.SelectionOf(scan), htbls, books, Joined(lists), lists[i]);
      HuffStatistics.SameTokens(scan, htbls, books, StartDc(scan), DcMcus(intervals[i], al));
      var ok, out;
      ghost var data;
      ok, out, data := EncodeFirst(scan, al, books, dcTbls, acTbls, intervals[i]);
      segments := segments + [out];
    }
  }
}
