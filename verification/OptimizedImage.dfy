/**
 * Progressive images with the tables that the statistics passes of their scans lead to: with these, nothing but an MCU
 * that is too big, a coefficient that is too large or a code that is too long can keep an image from being coded.
 */
module OptimizedImage {
  import opened Coefficients
  import opened CodeLengths
  import opened HuffTables
  import opened HuffTokens
  import opened HuffBlocks
  import opened HuffCounts
  import opened HuffGeneration
  import opened HuffSizes
  import opened RefineDecoding
  import opened RefineEncoding
  import opened DcScans
  import opened McuStream
  import opened ProgressiveBlocks
  import opened ProgressiveImage
  import Scripts = ScanScripts
  import AcFirst
  import AcFirstStatistics
  import CoefBlocks
  import DcRoundTrip
  import DcStatistics
  import HuffRoundTrip
  import HuffStatistics
  import RefineEncoder
  import RefineRoundTrip
  import RefineStatistics

  // ---------------------------------------------------------------------------------------------
  // One scan
  // ---------------------------------------------------------------------------------------------

  /** Refining the DC coefficients takes no table. */
  predicate NeedsTable(s: Scripts.Scan) {
    s.ss > 0 || s.ah == 0
  }

  /** The tables of a scan, and which of them it uses. */
  function ScanBooks(im: Image, s: Scripts.Scan, htbls: Books, comps: seq<nat>): Books
    requires Suits(im, htbls) && |comps| > 0 && comps[0] < |im.slots|
  {
    if s.ss == 0 then htbls else OneBook(AcTable(im, htbls, comps[0]))
  }

  function ScanSelection(im: Image, s: Scripts.Scan, comps: seq<nat>): Selection
    requires Known(im.p, comps) && |im.slots| == |im.p.comps| && |im.order| >= DCTSIZE2
  {
    if s.ss == 0 then HuffStatistics.SelectionOf(DcScan(im, comps)) else RefineStatistics.OneTable()
  }

  /** A scan that may come next, with tables for it. */
  ghost predicate IsSendable(im: Image, before: seq<Scripts.Scan>, s: Scripts.Scan, htbls: Books) {
    ValidImage(im) && IsNext(|im.p.comps|, before, s) && Suits(im, htbls)
  }

  /** What a scan sends. */
  ghost function SentTokens(im: Image, before: seq<Scripts.Scan>, s: Scripts.Scan, htbls: Books): seq<Token>
    requires IsSendable(im, before, s, htbls) && NeedsTable(s)
  {
    ScanFits(im, before, s);
    NextParameters(|im.p.comps|, before, s);
    var comps := CompsOf(s, |im.p.comps|);
    if s.ss == 0 then
      DcScanFits(im, comps, htbls);
      DcRoundTrip.FirstTokens(DcScan(im, comps), htbls, s.al, Stream(im.p, comps))
    else
      BandFits(|im.p.comps|, im.order, before, s);
      if s.ah == 0 then AcFirst.Tokens(BandOf(im.order, s), im.precision + 3, AloneBlocks(im.p, comps), 0)
      else RefineEncoder.RefineTokens(BandOf(im.order, s), AloneBlocks(im.p, comps))
  }

  /** How many blocks a scan has. */
  ghost function ScanBlocks(im: Image, before: seq<Scripts.Scan>, s: Scripts.Scan): nat
    requires ValidImage(im) && IsNext(|im.p.comps|, before, s)
  {
    ScanFits(im, before, s);
    var comps := CompsOf(s, |im.p.comps|);
    if s.ss == 0 then |Stream(im.p, comps)| * |Membership(im.p, comps, |comps|)| else |AloneBlocks(im.p, comps)|
  }

  ghost function ScanCounts(im: Image, before: seq<Scripts.Scan>, s: Scripts.Scan, htbls: Books): (t: Tally)
    requires IsSendable(im, before, s, htbls) && NeedsTable(s)
    ensures IsTally(t)
  {
    ScanFits(im, before, s);
    CountsOf(ScanBooks(im, s, htbls, CompsOf(s, |im.p.comps|)), SentTokens(im, before, s, htbls))
  }

  /** The scan has at most 15624999 blocks, or the search sees enough of its counts all the same. */
  ghost predicate Measurable(im: Image, before: seq<Scripts.Scan>, s: Scripts.Scan, htbls: Books)
    requires IsSendable(im, before, s, htbls)
  {
    ScanFits(im, before, s);
    || ScanBlocks(im, before, s) <= MAX_BLOCKS
    || (NeedsTable(s) ==>
          AllInReach(ScanSelection(im, s, CompsOf(s, |im.p.comps|)), ScanCounts(im, before, s, htbls)))
  }

  /** No MCU of the scan is too big, no coefficient too large, and no optimal code too long. */
  ghost predicate Sendable(im: Image, before: seq<Scripts.Scan>, s: Scripts.Scan, htbls: Books)
    requires IsSendable(im, before, s, htbls)
  {
    ScanFits(im, before, s);
    var comps := CompsOf(s, |im.p.comps|);
    && (s.ss == 0 ==> SmallMcus(im.p, comps))
    && (NeedsTable(s) ==>
          && Fault !in SentTokens(im, before, s, htbls)
          && AllLimitable(ScanSelection(im, s, comps), ScanCounts(im, before, s, htbls)))
  }

  lemma OneInterval(toks: seq<Token>)
    ensures Joined([toks]) == toks
  {
    assert [toks][..0] == [] && Joined([]) == [];
  }

  lemma OneSum(n: nat)
    ensures Sum([n]) == n
  {
    assert [n][..0] == [];
  }

  /** A stream is never empty, and every component of the scan has blocks in its MCUs. */
  lemma StreamIsThere(im: Image, comps: seq<nat>)
    requires IsScan(im, comps)
    ensures |Stream(im.p, comps)| > 0 && HuffStatistics.EveryComponentCoded(DcScan(im, comps))
    ensures |Membership(im.p, comps, |comps|)| > 0
  {
    hide Membership, StreamUpTo, McuRows, PerRow, IsNaturalOrder, Before;
    CoefBlocks.RowsThere(im.p, comps, 0);
    MoreToCome(im.p, comps, 0, 0, 0);
    forall k | 0 <= k < |comps|
      ensures k in Membership(im.p, comps, |comps|)
    {
      assert McuStream.Sized(im.p.comps[comps[k]], im.p.total, im.p.across);
      IsMember(im.p, comps, k, |comps|);
    }
    assert 0 in Membership(im.p, comps, |comps|);
  }

  lemma {:induction false} IsMember(p: Picture, comps: seq<nat>, k: nat, n: nat)
    requires k < n <= |comps| && Known(p, comps) && p.comps[comps[k]].h > 0 && p.comps[comps[k]].v > 0
    ensures k in Membership(p, comps, n)
  {
    if k < n - 1 {
      IsMember(p, comps, k, n - 1);
    } else {
      AreaPositive(CompAt(p, comps, k), |comps| == 1);
      assert Membership(p, comps, n)[|Membership(p, comps, n - 1)|] == k;
    }
  }

  lemma AreaPositive(c: Comp, alone: bool)
    requires c.h > 0 && c.v > 0
    ensures Area(c, alone) > 0
  {
  }

  lemma PositiveProduct(a: nat, b: nat)
    requires a > 0 && b > 0
    ensures a * b > 0
  {
  }

  /** A DC scan is small enough for statistics. */
  lemma DcFewEnough(im: Image, before: seq<Scripts.Scan>, s: Scripts.Scan, htbls: Books, comps: seq<nat>)
    requires IsSendable(im, before, s, htbls) && s.ss == 0 && s.ah == 0 && Measurable(im, before, s, htbls)
    requires Scripts.ComponentsOk(s, |im.p.comps|) && comps == CompsOf(s, |im.p.comps|) && IsScan(im, comps)
    requires |im.order| >= DCTSIZE2
    ensures FewEnough(HuffStatistics.BlockCounts(DcScan(im, comps), [Stream(im.p, comps)]),
                      HuffStatistics.SelectionOf(DcScan(im, comps)), ScanCounts(im, before, s, htbls))
  {
    hide Membership, Stream, IsNaturalOrder, IsNext, SentTokens, HuffStatistics.SelectionOf, AllInReach, McuRows,
      PerRow, Suits;
    StreamIsThere(im, comps);
    var size := |Stream(im.p, comps)| * |Membership(im.p, comps, |comps|)|;
    assert HuffStatistics.BlockCounts(DcScan(im, comps), [Stream(im.p, comps)]) == [size];
    PositiveProduct(|Stream(im.p, comps)|, |Membership(im.p, comps, |comps|)|);
    OneSum(size);
  }

  /** The tables that the statistics of a first DC scan lead to. */
  method FirstTables(scan: HuffBlocks.Scan, al: nat, htbls: Books, mcus: seq<seq<Block>>)
      returns (ok: bool, books: Books)
    requires Proper(htbls) && IsDcScan(scan, htbls) && HuffRoundTrip.AreMcus(scan, mcus) && al <= 13
    requires HuffStatistics.EveryComponentCoded(scan)
    requires FewEnough(HuffStatistics.BlockCounts(scan, [mcus]), HuffStatistics.SelectionOf(scan),
                       CountsOf(htbls, DcRoundTrip.FirstTokens(scan, htbls, al, mcus)))
    ensures ok <==>
              var toks := DcRoundTrip.FirstTokens(scan, htbls, al, mcus);
              Fault !in toks && AllLimitable(HuffStatistics.SelectionOf(scan), CountsOf(htbls, toks))
    ensures ok ==> Proper(books) && |books.dc| == |htbls.dc| && |books.ac| == |htbls.ac| && IsDcScan(scan, books)
                   && AllCoded(books, DcRoundTrip.FirstTokens(scan, books, al, mcus))
  {
    hide Proper, DcRoundTrip.FirstTokens, AllLimitable, CountsOf, AllCoded, GeneratedFor, HuffStatistics.SelectionOf,
      FewEnough, HuffStatistics.EveryComponentCoded, IsOrder;
    ghost var toks := DcRoundTrip.FirstTokens(scan, htbls, al, mcus);
    ghost var lists := DcStatistics.IntervalTokens(scan, htbls, al, [mcus]);
    assert lists == [toks];
    OneInterval(toks);
    books := htbls;
    var r := DcStatistics.OptimizeFirst(scan, al, htbls, [mcus]);
    ok := r.Written?;
    if ok {
      books := r.books;
      assert Spells(books, lists[0], r.segments[0]);
      SameFirst(scan, htbls, books, al, mcus);
    }
  }

  /** The tables of a first DC scan. */
  method DcTables(im: Image, ghost before: seq<Scripts.Scan>, s: Scripts.Scan, htbls: Books)
      returns (ok: bool, books: Books)
    requires IsSendable(im, before, s, htbls) && s.ss == 0 && s.ah == 0 && Measurable(im, before, s, htbls)
    ensures ok <==> Sendable(im, before, s, htbls)
    ensures ok ==> Suits(im, books) && CanSend(im, before, s, books)
  {
    hide IsNaturalOrder, IsNext, Proper, IsDcScan, DcRoundTrip.FirstTokens, AllLimitable, CountsOf, AllCoded,
      Membership, HuffStatistics.SelectionOf, Stream, McuRows, PerRow, Measurable, FewEnough,
      HuffStatistics.EveryComponentCoded;
    ScanFits(im, before, s);
    NextParameters(|im.p.comps|, before, s);
    var comps := CompsOf(s, |im.p.comps|);
    DcScanFits(im, comps, htbls);
    StreamIsThere(im, comps);
    DcFewEnough(im, before, s, htbls, comps);
    books := htbls;
    var g;
    ok, g := PerScanSetup(im.p, comps);
    if ok {
      ok, books := FirstTables(DcScan(im, comps), s.al, htbls, Stream(im.p, comps));
      if ok {
        SuitsToo(im, htbls, books);
      }
    }
  }

  lemma SuitsToo(im: Image, a: Books, b: Books)
    requires Suits(im, a) && Proper(b) && |a.dc| == |b.dc| && |a.ac| == |b.ac|
    ensures Suits(im, b)
  {
    hide Proper;
  }

  lemma SameFirst(scan: HuffBlocks.Scan, a: Books, b: Books, al: nat, mcus: seq<seq<Block>>)
    requires IsDcScan(scan, a) && IsDcScan(scan, b) && |a.dc| == |b.dc| && |a.ac| == |b.ac| && al <= 13
    requires HuffRoundTrip.AreMcus(scan, mcus)
    ensures DcRoundTrip.FirstTokens(scan, a, al, mcus) == DcRoundTrip.FirstTokens(scan, b, al, mcus)
  {
    hide ScanTokens, DcBlock;
    HuffStatistics.SameTokens(scan, a, b, HuffRoundTrip.StartDc(scan), DcMcus(mcus, al));
  }

  /** The table of an AC scan. */
  method AcTables(im: Image, ghost before: seq<Scripts.Scan>, s: Scripts.Scan, htbls: Books)
      returns (ok: bool, books: Books)
    requires IsSendable(im, before, s, htbls) && s.ss > 0 && Measurable(im, before, s, htbls)
    ensures ok <==> Sendable(im, before, s, htbls)
    ensures ok ==> Suits(im, books) && CanSend(im, before, s, books)
  {
    hide IsNaturalOrder, IsNext, IsBand, ProperTable, Proper, AcFirst.Tokens, RefineEncoder.RefineTokens, AllLimitable,
      AllInReach, CountsOf, AllCoded, GeneratedFor, Stream, AloneBlocks, McuRows, PerRow, RefineStatistics.OneTable,
      Membership;
    ScanFits(im, before, s);
    NextParameters(|im.p.comps|, before, s);
    BandFits(|im.p.comps|, im.order, before, s);
    var comps := CompsOf(s, |im.p.comps|);
    TableFits(im, htbls, comps[0]);
    var band, blocks, htbl := BandOf(im.order, s), AloneBlocks(im.p, comps), AcTable(im, htbls, comps[0]);
    StreamIsThere(im, comps);
    AloneLength(im, comps);
    OneSum(|blocks|);
    ghost var lists;
    var r;
    if s.ah == 0 {
      lists := AcFirstStatistics.IntervalTokens(band, im.precision + 3, [blocks]);
      assert lists == [SentTokens(im, before, s, htbls)];
      OneInterval(lists[0]);
      assert RefineStatistics.BlockCounts([blocks]) == [|blocks|];
      r := AcFirstStatistics.OptimizeFirst(band, im.precision + 3, htbl, [blocks]);
    } else {
      lists := RefineStatistics.IntervalTokens(band, [blocks]);
      assert lists == [SentTokens(im, before, s, htbls)];
      OneInterval(lists[0]);
      assert RefineStatistics.BlockCounts([blocks]) == [|blocks|];
      r := RefineStatistics.OptimizeRefinement(band, htbl, [blocks]);
    }
    ok, books := r.Written?, htbls;
    if ok {
      var tbl := im.slots[comps[0]].acTbl;
      assert Spells(r.books, lists[0], r.segments[0]);
      assert r.books == OneBook(r.books.ac[0]);
      WithTable(im, htbls, tbl, r.books.ac[0]);
      books := Books(htbls.dc, htbls.ac[tbl := r.books.ac[0]]);
    }
  }

  lemma AloneLength(im: Image, comps: seq<nat>)
    requires IsScan(im, comps)
    ensures |AloneBlocks(im.p, comps)| == |Stream(im.p, comps)|
  {
    hide Stream;
  }

  lemma WithTable(im: Image, books: Books, tbl: nat, t: Table)
    requires Suits(im, books) && tbl < |books.ac| && Proper(OneBook(t))
    ensures Suits(im, Books(books.dc, books.ac[tbl := t]))
  {
    hide ProperTable;
    assert ProperTable(OneBook(t).ac[0], false);
  }

  /** The tables for a scan, from its statistics pass if it needs one. */
  method ScanTables(im: Image, ghost before: seq<Scripts.Scan>, s: Scripts.Scan, htbls: Books)
      returns (ok: bool, books: Books)
    requires IsSendable(im, before, s, htbls) && Measurable(im, before, s, htbls)
    ensures ok <==> Sendable(im, before, s, htbls)
    ensures ok ==> Suits(im, books) && CanSend(im, before, s, books)
  {
    hide IsNaturalOrder, IsNext, Suits, IsDcScan, DcRoundTrip.FirstTokens, AcFirst.Tokens, RefineEncoder.RefineTokens,
      Measurable, SentTokens, ScanCounts, ScanSelection, AllCoded, Stream, McuRows, PerRow, Membership;
    ScanFits(im, before, s);
    NextParameters(|im.p.comps|, before, s);
    if s.ss > 0 {
      ok, books := AcTables(im, before, s, htbls);
    } else if s.ah == 0 {
      ok, books := DcTables(im, before, s, htbls);
    } else {
      var g;
      ok, g := PerScanSetup(im.p, CompsOf(s, |im.p.comps|));
      books := htbls;
    }
  }

  // ---------------------------------------------------------------------------------------------
  // Whole images
  // ---------------------------------------------------------------------------------------------

  lemma EachIsSendable(im: Image, script: seq<Scripts.Scan>, htbls: Books, j: nat)
    requires ScriptFor(im, script) && Suits(im, htbls) && j < |script|
    ensures IsSendable(im, script[..j], script[j], htbls)
  {
    hide ScriptFor, Suits, IsNext, ValidImage;
    EachScanNext(im, script, j);
  }

  ghost predicate AllMeasurable(im: Image, script: seq<Scripts.Scan>, htbls: Books)
    requires ScriptFor(im, script) && Suits(im, htbls)
  {
    forall j :: 0 <= j < |script| ==>
      (EachIsSendable(im, script, htbls, j); Measurable(im, script[..j], script[j], htbls))
  }

  ghost predicate AllSendable(im: Image, script: seq<Scripts.Scan>, htbls: Books)
    requires ScriptFor(im, script) && Suits(im, htbls)
  {
    forall j :: 0 <= j < |script| ==>
      (EachIsSendable(im, script, htbls, j); Sendable(im, script[..j], script[j], htbls))
  }

  /**
   * For every picture of any number of components and every valid progressive script: coding with optimal tables fails
   * exactly if an interleaved MCU has too many blocks, a coefficient of some scan is too large, or an optimal code too
   * long. Otherwise decoding gives each coefficient of each real block with the bits that the script sends of it, and
   * the picture itself if these are all of them.
   */
  method CodeOptimized(im: Image, script: seq<Scripts.Scan>, htbls: Books, serve: (nat, nat) -> seq<int>)
    returns (ok: bool, out: Held)
    requires ScriptFor(im, script) && Suits(im, htbls) && AllMeasurable(im, script, htbls)
    requires forall j, i :: RefineRoundTrip.Served(serve(j, i))
    ensures ok <==> AllSendable(im, script, htbls)
    ensures ok ==> ValidImage(im) && ImageSent(im, script, out)
    ensures ok && SendsAll(script, |im.p.comps|) ==> HoldsPicture(im.p, out)
  {
    hide ValidImage, ScriptFor, IsSendable, IsNext, ImageSent, CanSend, Suits, Measurable, Sendable, SendsAll,
      HoldsPicture, RefineRoundTrip.Served;
    StartsEmpty(im, script);
    var tables: seq<Books> := [];
    out := map[];
    for j := 0 to |script|
      invariant |tables| == j && forall i :: 0 <= i < j ==> Suits(im, tables[i])
      invariant forall i :: 0 <= i < j ==>
                              (EachIsSendable(im, script, htbls, i);
                               EachScanNext(im, script, i);
                               && Sendable(im, script[..i], script[i], htbls)
                               && CanSend(im, script[..i], script[i], tables[i]))
    {
      EachIsSendable(im, script, htbls, j);
      EachScanNext(im, script, j);
      var books;
      ok, books := ScanTables(im, script[..j], script[j], htbls);
      if !ok {
        return;
      }
      tables := tables + [books];
    }
    ok, out := CodeImage(im, script, tables, serve);
    if SendsAll(script, |im.p.comps|) {
      PictureBack(im, script, out);
    }
  }
}
