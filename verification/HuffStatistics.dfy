/** The statistics pass of a sequential Huffman scan: it counts exactly the symbols that the output pass emits. */
module HuffStatistics {
  import opened Integers
  import opened Words
  import opened Coefficients
  import opened ByteStuffing
  import opened HuffTables
  import opened HuffDerived
  import opened HuffBitWriter
  import opened HuffTokens
  import opened HuffBlocks
  import opened HuffCounts
  import opened HuffGeneration
  import opened HuffSizes
  import opened HuffRoundTrip

  class HuffGatherer {
    const scan: Scan
    ghost const books: Books  // as many tables as there are count arrays
    var lastDcVal: seq<Coef>
    var counts: Tally

    ghost predicate Valid()
      reads this
    {
      ValidScan(scan, books) && Matches(counts, books) && |lastDcVal| == |scan.components|
    }

    constructor (scan: Scan, dcs: nat, acs: nat, ghost books: Books)
      requires ValidScan(scan, books) && |books.dc| == dcs && |books.ac| == acs
      ensures Valid() && this.scan == scan && this.books == books && lastDcVal == StartDc(scan)
        && counts == NoCounts(dcs, acs)
    {
      this.scan, this.books := scan, books;
      lastDcVal := seq(|scan.components|, _ => 0);
      counts := NoCounts(dcs, acs);
    }

    /** At a restart. */
    method Restart()
      requires Valid()
      modifies this`lastDcVal
      ensures Valid() && lastDcVal == StartDc(scan)
    {
      lastDcVal := seq(|scan.components|, _ => 0);
    }

    /** What has been counted, together with toks, makes up goal. */
    ghost predicate Owes(toks: seq<Token>, goal: Tally)
      reads this
    {
      Valid() && AddAll(counts, toks) == goal
    }

    method CountSymbol(dc: bool, tbl: nat, s: byte, ghost rest: seq<Token>, ghost goal: Tally)
      requires Owes([Symbol(dc, tbl, s)] + rest, goal) && Has(books, dc, tbl)
      modifies this`counts
      ensures Owes(rest, goal)
    {
      hide ValidScan, AddAll;
      AddHead(counts, Symbol(dc, tbl, s), rest);
      if dc {
        counts := counts.(dc := counts.dc[tbl := counts.dc[tbl][s := counts.dc[tbl][s] + 1]]);
      } else {
        counts := counts.(ac := counts.ac[tbl := counts.ac[tbl][s := counts.ac[tbl][s] + 1]]);
      }
    }

    lemma SkipBits(v: int, n: nat, rest: seq<Token>, goal: Tally)
      requires Owes([Bits(v, n)] + rest, goal)
      ensures Owes(rest, goal)
    {
      hide ValidScan, AddAll;
      AddHead(counts, Bits(v, n), rest);
    }

    method CountDc(tbl: nat, diff: int, ghost rest: seq<Token>, ghost goal: Tally) returns (ok: bool)
      requires Valid() && Has(books, true, tbl) && Owes(DcTokens(tbl, diff, scan.precision + 3) + rest, goal)
      modifies this`counts
      ensures ok <==> Fault !in DcTokens(tbl, diff, scan.precision + 3)
      ensures Valid() && (ok ==> Owes(rest, goal))
    {
      hide AddAll, NumBits, IsTally, IsOrder;
      DcUnroll(tbl, diff, scan.precision + 3, rest);
      if diff == 0 {
        CountSymbol(true, tbl, 0, rest, goal);
        return true;
      }
      var nbits := CountBits(Magnitude(diff));
      if nbits > scan.precision + 3 {
        return false;
      }
      CountSymbol(true, tbl, nbits, [Bits(Appended(diff), nbits)] + rest, goal);
      SkipBits(Appended(diff), nbits, rest, goal);
      ok := true;
    }

    method CountCoefficient(tbl: nat, v: Coef, r: nat, ghost rest: seq<Token>, ghost goal: Tally) returns (ok: bool)
      requires Valid() && Has(books, false, tbl) && r <= 15 && v != 0
      requires Owes(CoefTokens(tbl, scan.precision + 3, v, r) + rest, goal)
      modifies this`counts
      ensures ok <==> Fault !in CoefTokens(tbl, scan.precision + 3, v, r)
      ensures Valid() && (ok ==> Owes(rest, goal))
    {
      hide AddAll, NumBits, IsTally, IsOrder;
      CoefUnroll(tbl, scan.precision + 3, v, r, rest);
      var nbits := CountBits(Magnitude(v));
      if nbits >= scan.precision + 3 {
        return false;
      }
      CountSymbol(false, tbl, 16 * r + nbits, [Bits(Appended(v), nbits)] + rest, goal);
      SkipBits(Appended(v), nbits, rest, goal);
      ok := true;
    }

    method CountAc(tbl: nat, b: Block, ghost rest: seq<Token>, ghost goal: Tally) returns (ok: bool)
      requires Valid() && (scan.limSe > 0 ==> Has(books, false, tbl))
      requires Owes(AcTokens(tbl, scan.precision + 3, Zigzag(scan, b), 1, 0) + rest, goal)
      modifies this`counts
      ensures ok <==> Fault !in AcTokens(tbl, scan.precision + 3, Zigzag(scan, b), 1, 0)
      ensures Valid() && (ok ==> Owes(rest, goal))
    {
      hide AddAll, AcTokens, CoefTokens, IsTally;
      ghost var z, m := Zigzag(scan, b), scan.precision + 3;
      var r, k := 0, 1;
      while k <= scan.limSe
        invariant 1 <= k <= scan.limSe + 1 && r < k && Owes(AcTokens(tbl, m, z, k, r) + rest, goal)
        invariant Fault in AcTokens(tbl, m, z, 1, 0) <==> Fault in AcTokens(tbl, m, z, k, r)
      {
        AcUnroll(tbl, m, z, k, r);
        if b[scan.order[k]] == 0 {
          r := r + 1;
          k := k + 1;
          continue;
        }
        while r > 15
          invariant Owes(AcTokens(tbl, m, z, k, r) + rest, goal)
          invariant Fault in AcTokens(tbl, m, z, 1, 0) <==> Fault in AcTokens(tbl, m, z, k, r)
        {
          AcUnroll(tbl, m, z, k, r);
          ghost var more := AcTokens(tbl, m, z, k, r - 16) + rest;
          assert AcTokens(tbl, m, z, k, r) + rest == [Symbol(false, tbl, ZRL)] + more;
          CountSymbol(false, tbl, ZRL, more, goal);
          r := r - 16;
        }
        AcUnroll(tbl, m, z, k, r);
        ghost var more := AcTokens(tbl, m, z, k + 1, 0) + rest;
        assert AcTokens(tbl, m, z, k, r) + rest == CoefTokens(tbl, m, z[k], r) + more;
        ok := CountCoefficient(tbl, b[scan.order[k]], r, more, goal);
        if !ok {
          return;
        }
        r := 0;
        k := k + 1;
      }
      AcUnroll(tbl, m, z, k, r);
      if r > 0 {
        CountSymbol(false, tbl, EOB, rest, goal);
      } else {
        assert [] + rest == rest;
      }
      ok := true;
    }

    /** Counts the symbols of one block. */
    method TestOneBlock(b: Block, ci: nat, last: Coef, ghost rest: seq<Token>, ghost goal: Tally) returns (ok: bool)
      requires Valid() && ci < |scan.components| && Owes(BlockTokens(scan, books, ci, last, b) + rest, goal)
      modifies this`counts
      ensures ok <==> Fault !in BlockTokens(scan, books, ci, last, b)
      ensures Valid() && (ok ==> Owes(rest, goal))
    {
      hide AddAll, AcTokens, DcTokens, IsTally, Owes;
      ghost var ac := AcTokens(scan.components[ci].acTbl, scan.precision + 3, Zigzag(scan, b), 1, 0);
      var diff := Difference(b[0], last);
      ghost var dc := DcTokens(scan.components[ci].dcTbl, diff, scan.precision + 3);
      assert BlockTokens(scan, books, ci, last, b) + rest == dc + (ac + rest);
      ok := CountDc(scan.components[ci].dcTbl, diff, ac + rest, goal);
      if ok {
        ok := CountAc(scan.components[ci].acTbl, b, rest, goal);
      }
    }

    /** Counts the symbols of one MCU; fails exactly if a coefficient is too large. */
    method EncodeMcuGather(mcu: seq<Block>) returns (ok: bool)
      requires Valid() && |mcu| == |scan.membership|
      modifies this
      ensures Valid() && |old(lastDcVal)| == |scan.components| && Matches(old(counts), books)
      ensures ok <==> Fault !in McuTokens(scan, books, old(lastDcVal), mcu, 0)
      ensures ok ==> counts == AddAll(old(counts), McuTokens(scan, books, old(lastDcVal), mcu, 0))
                     && lastDcVal == McuLast(scan, books, old(lastDcVal), mcu, 0)
    {
      hide AddAll, BlockTokens, McuTokens, McuLast, IsTally, IsOrder;
      ghost var last0 := lastDcVal;
      ghost var toks := McuTokens(scan, books, last0, mcu, 0);
      ghost var goal := AddAll(counts, toks);
      for n := 0 to |mcu|
        invariant |lastDcVal| == |scan.components|
        invariant Owes(McuTokens(scan, books, lastDcVal, mcu, n), goal)
        invariant Fault in toks <==> Fault in McuTokens(scan, books, lastDcVal, mcu, n)
        invariant McuLast(scan, books, last0, mcu, 0) == McuLast(scan, books, lastDcVal, mcu, n)
      {
        McuUnroll(scan, books, lastDcVal, mcu, n);
        var ci := scan.membership[n];
        ok := TestOneBlock(mcu[n], ci, lastDcVal[ci], McuTokens(scan, books, lastDcVal[ci := mcu[n][0]], mcu, n + 1),
          goal);
        if !ok {
          return;
        }
        lastDcVal := lastDcVal[ci := mcu[n][0]];
      }
      McuUnroll(scan, books, lastDcVal, mcu, |mcu|);
      AddHead(counts, Fault, []);
      ok := true;
    }
  }

  // ---------------------------------------------------------------------------------------------
  // Which symbols a scan uses
  // ---------------------------------------------------------------------------------------------

  /** The tables of a scan's components; without AC coefficients no AC table is used. */
  function SelectionOf(scan: Scan): (sel: Selection)
  {
    Selection(seq(|scan.components|, ci requires 0 <= ci < |scan.components| => scan.components[ci].dcTbl),
              if scan.limSe == 0 then []
              else seq(|scan.components|, ci requires 0 <= ci < |scan.components| => scan.components[ci].acTbl))
  }

  lemma ComponentSelects(scan: Scan, ci: nat)
    requires ci < |scan.components|
    ensures Selects(SelectionOf(scan), true, scan.components[ci].dcTbl)
    ensures scan.limSe > 0 ==> Selects(SelectionOf(scan), false, scan.components[ci].acTbl)
  {
    var sel := SelectionOf(scan);
    assert sel.dc[ci] == scan.components[ci].dcTbl;
    if scan.limSe > 0 {
      assert sel.ac[ci] == scan.components[ci].acTbl;
    }
  }

  lemma {:induction false} AcUses(sel: Selection, tbl: nat, maxBits: nat, z: seq<Coef>, k: nat, r: nat)
    requires maxBits <= 15 && Selects(sel, false, tbl) && k <= |z|
    ensures UsesOnly(sel, AcTokens(tbl, maxBits, z, k, r))
    decreases |z| - k, r
  {
    hide Selects, CoefTokens, NumBits, Uses;
    RunUses(sel, tbl);
    if k < |z| && z[k] == 0 {
      AcUses(sel, tbl, maxBits, z, k + 1, r + 1);
    } else if k < |z| && r > 15 {
      AcUses(sel, tbl, maxBits, z, k, r - 16);
    } else if k < |z| {
      AcUses(sel, tbl, maxBits, z, k + 1, 0);
      CoefUses(sel, tbl, maxBits, z[k], r);
    }
  }

  lemma RunUses(sel: Selection, tbl: nat)
    requires Selects(sel, false, tbl)
    ensures Uses(sel, Symbol(false, tbl, ZRL)) && Uses(sel, Symbol(false, tbl, EOB))
  {
    hide Selects;
  }

  lemma CoefUses(sel: Selection, tbl: nat, maxBits: nat, v: Coef, r: nat)
    requires maxBits <= 15 && Selects(sel, false, tbl) && v != 0 && r <= 15
    ensures UsesOnly(sel, CoefTokens(tbl, maxBits, v, r))
  {
    hide Selects, NumBits;
    CoefUnroll(tbl, maxBits, v, r, []);
    var n := NumBits(Magnitude(v));
    if n < maxBits {
      assert (16 * r + n) % 16 == n;
    }
  }

  lemma BlockUses(scan: Scan, books: Books, ci: nat, last: Coef, b: Block)
    requires ValidScan(scan, books) && ci < |scan.components|
    ensures UsesOnly(SelectionOf(scan), BlockTokens(scan, books, ci, last, b))
  {
    hide AcTokens, NumBits, Selects, SelectionOf, IsOrder;
    var z, diff := Zigzag(scan, b), Difference(b[0], last);
    var dc := DcTokens(scan.components[ci].dcTbl, diff, scan.precision + 3);
    ComponentSelects(scan, ci);
    assert UsesOnly(SelectionOf(scan), dc);
    if scan.limSe > 0 {
      AcUses(SelectionOf(scan), scan.components[ci].acTbl, scan.precision + 3, z, 1, 0);
    } else {
      AcUnroll(scan.components[ci].acTbl, scan.precision + 3, z, 1, 0);
    }
    UsesConcat(SelectionOf(scan), dc, AcTokens(scan.components[ci].acTbl, scan.precision + 3, z, 1, 0));
  }

  lemma {:induction false} McuUses(scan: Scan, books: Books, last: seq<Coef>, mcu: seq<Block>, n: nat)
    requires ValidScan(scan, books) && |last| == |scan.components| && |mcu| == |scan.membership| && n <= |mcu|
    ensures UsesOnly(SelectionOf(scan), McuTokens(scan, books, last, mcu, n))
    decreases |mcu| - n
  {
    hide BlockTokens, Uses, IsOrder, SelectionOf;
    if n < |mcu| {
      var ci := scan.membership[n];
      BlockUses(scan, books, ci, last[ci], mcu[n]);
      McuUses(scan, books, last[ci := mcu[n][0]], mcu, n + 1);
      UsesConcat(SelectionOf(scan), BlockTokens(scan, books, ci, last[ci], mcu[n]),
                 McuTokens(scan, books, last[ci := mcu[n][0]], mcu, n + 1));
    }
  }

  lemma {:induction false} ScanUses(scan: Scan, books: Books, last: seq<Coef>, mcus: seq<seq<Block>>)
    requires ValidScan(scan, books) && |last| == |scan.components| && AreMcus(scan, mcus)
    ensures UsesOnly(SelectionOf(scan), ScanTokens(scan, books, last, mcus))
    decreases |mcus|
  {
    hide McuTokens, McuLast, Uses, IsOrder, SelectionOf;
    if mcus != [] {
      McuUses(scan, books, last, mcus[0], 0);
      ScanUses(scan, books, McuLast(scan, books, last, mcus[0], 0), mcus[1..]);
      UsesConcat(SelectionOf(scan), McuTokens(scan, books, last, mcus[0], 0),
                 ScanTokens(scan, books, McuLast(scan, books, last, mcus[0], 0), mcus[1..]));
    }
  }

  lemma SelectionInRange(scan: Scan, books: Books)
    requires ValidScan(scan, books)
    ensures InRange(SelectionOf(scan), books)
  {
    hide IsOrder;
  }

  // ---------------------------------------------------------------------------------------------
  // Both passes over a scan with restarts
  // ---------------------------------------------------------------------------------------------

  predicate AreIntervals(scan: Scan, intervals: seq<seq<seq<Block>>>) {
    forall i :: 0 <= i < |intervals| ==> AreMcus(scan, intervals[i])
  }

  /** Every component of the scan has blocks in the MCUs. */
  predicate EveryComponentCoded(scan: Scan) {
    forall ci :: 0 <= ci < |scan.components| ==> ci in scan.membership
  }

  /** The number of blocks in each interval. */
  function BlockCounts(scan: Scan, intervals: seq<seq<seq<Block>>>): (n: seq<nat>)
    ensures |n| == |intervals|
  {
    seq(|intervals|, i requires 0 <= i < |intervals| => |intervals[i]| * |scan.membership|)
  }

  lemma BlockAtMost(scan: Scan, books: Books, ci: nat, last: Coef, b: Block, dc: bool, tbl: nat)
    requires ValidScan(scan, books) && ci < |scan.components|
    ensures SymbolsIn(BlockTokens(scan, books, ci, last, b), dc, tbl) <= SYMBOLS_PER_BLOCK
  {
    hide AcTokens, DcTokens, NumBits, IsOrder, SymbolsIn;
    var c, m, diff := scan.components[ci], scan.precision + 3, Difference(b[0], last);
    DcAtMost(c.dcTbl, diff, m, dc, tbl);
    AcAtMost(c.acTbl, m, Zigzag(scan, b), 1, 0, dc, tbl);
    SymbolsConcat(DcTokens(c.dcTbl, diff, m), AcTokens(c.acTbl, m, Zigzag(scan, b), 1, 0), dc, tbl);
  }

  lemma BlockAtLeast(scan: Scan, books: Books, ci: nat, last: Coef, b: Block)
    requires ValidScan(scan, books) && ci < |scan.components| && Fault !in BlockTokens(scan, books, ci, last, b)
    ensures SymbolsIn(BlockTokens(scan, books, ci, last, b), true, scan.components[ci].dcTbl) >= 1
    ensures scan.limSe > 0 ==> SymbolsIn(BlockTokens(scan, books, ci, last, b), false, scan.components[ci].acTbl) >= 1
  {
    hide AcTokens, DcTokens, NumBits, IsOrder, SymbolsIn;
    var c, m, diff := scan.components[ci], scan.precision + 3, Difference(b[0], last);
    DcAtMost(c.dcTbl, diff, m, true, c.dcTbl);
    if scan.limSe > 0 {
      AcAtLeast(c.acTbl, m, Zigzag(scan, b), 1, 0);
    }
    SymbolsConcat(DcTokens(c.dcTbl, diff, m), AcTokens(c.acTbl, m, Zigzag(scan, b), 1, 0), true, c.dcTbl);
    SymbolsConcat(DcTokens(c.dcTbl, diff, m), AcTokens(c.acTbl, m, Zigzag(scan, b), 1, 0), false, c.acTbl);
  }

  lemma {:induction false} McuAtMost(scan: Scan, books: Books, last: seq<Coef>, mcu: seq<Block>, n: nat, dc: bool,
      tbl: nat)
    requires ValidScan(scan, books) && |last| == |scan.components| && |mcu| == |scan.membership| && n <= |mcu|
    ensures SymbolsIn(McuTokens(scan, books, last, mcu, n), dc, tbl) <= SYMBOLS_PER_BLOCK * (|mcu| - n)
    decreases |mcu| - n
  {
    hide BlockTokens, IsOrder, SymbolsIn;
    NoSymbols(dc, tbl);
    if n < |mcu| {
      var ci := scan.membership[n];
      var rest := McuTokens(scan, books, last[ci := mcu[n][0]], mcu, n + 1);
      BlockAtMost(scan, books, ci, last[ci], mcu[n], dc, tbl);
      McuAtMost(scan, books, last[ci := mcu[n][0]], mcu, n + 1, dc, tbl);
      SymbolsConcat(BlockTokens(scan, books, ci, last[ci], mcu[n]), rest, dc, tbl);
    }
  }

  /** Block number j of the MCU sends symbols of the tables of its component. */
  lemma {:induction false} McuAtLeast(scan: Scan, books: Books, last: seq<Coef>, mcu: seq<Block>, n: nat, j: nat)
    requires ValidScan(scan, books) && |last| == |scan.components| && |mcu| == |scan.membership| && n <= j < |mcu|
    requires Fault !in McuTokens(scan, books, last, mcu, n)
    ensures var c := scan.components[scan.membership[j]];
            && SymbolsIn(McuTokens(scan, books, last, mcu, n), true, c.dcTbl) >= 1
            && (scan.limSe > 0 ==> SymbolsIn(McuTokens(scan, books, last, mcu, n), false, c.acTbl) >= 1)
    decreases |mcu| - n
  {
    hide BlockTokens, IsOrder, SymbolsIn;
    var ci, c := scan.membership[n], scan.components[scan.membership[j]];
    var now := BlockTokens(scan, books, ci, last[ci], mcu[n]);
    var rest := McuTokens(scan, books, last[ci := mcu[n][0]], mcu, n + 1);
    if n == j {
      BlockAtLeast(scan, books, ci, last[ci], mcu[n]);
    } else {
      McuAtLeast(scan, books, last[ci := mcu[n][0]], mcu, n + 1, j);
    }
    SymbolsConcat(now, rest, true, c.dcTbl);
    SymbolsConcat(now, rest, false, c.acTbl);
  }

  lemma {:induction false} ScanAtMost(scan: Scan, books: Books, last: seq<Coef>, mcus: seq<seq<Block>>, dc: bool,
      tbl: nat)
    requires ValidScan(scan, books) && |last| == |scan.components| && AreMcus(scan, mcus)
    ensures SymbolsIn(ScanTokens(scan, books, last, mcus), dc, tbl) <= SYMBOLS_PER_BLOCK * (|mcus| * |scan.membership|)
    decreases |mcus|
  {
    hide McuTokens, McuLast, IsOrder, SymbolsIn;
    NoSymbols(dc, tbl);
    if mcus != [] {
      var now := McuTokens(scan, books, last, mcus[0], 0);
      var next := McuLast(scan, books, last, mcus[0], 0);
      McuAtMost(scan, books, last, mcus[0], 0, dc, tbl);
      ScanAtMost(scan, books, next, mcus[1..], dc, tbl);
      SymbolsConcat(now, ScanTokens(scan, books, next, mcus[1..]), dc, tbl);
      PreviousMultiple(|mcus|, |scan.membership|);
    }
  }

  lemma ScanAtLeast(scan: Scan, books: Books, last: seq<Coef>, mcus: seq<seq<Block>>, ci: nat)
    requires ValidScan(scan, books) && |last| == |scan.components| && AreMcus(scan, mcus) && mcus != []
    requires ci < |scan.components| && EveryComponentCoded(scan) && Fault !in ScanTokens(scan, books, last, mcus)
    ensures SymbolsIn(ScanTokens(scan, books, last, mcus), true, scan.components[ci].dcTbl) >= 1
    ensures scan.limSe > 0 ==> SymbolsIn(ScanTokens(scan, books, last, mcus), false, scan.components[ci].acTbl) >= 1
  {
    hide McuTokens, McuLast, IsOrder, SymbolsIn;
    assert ci in scan.membership;
    var j: nat :| j < |scan.membership| && scan.membership[j] == ci;
    var now := McuTokens(scan, books, last, mcus[0], 0);
    var rest := ScanTokens(scan, books, McuLast(scan, books, last, mcus[0], 0), mcus[1..]);
    McuAtLeast(scan, books, last, mcus[0], 0, j);
    SymbolsConcat(now, rest, true, scan.components[ci].dcTbl);
    SymbolsConcat(now, rest, false, scan.components[ci].acTbl);
  }

  /** A selected table belongs to a component. */
  lemma SelectedBy(scan: Scan, dc: bool, tbl: nat) returns (ci: nat)
    requires Selects(SelectionOf(scan), dc, tbl)
    ensures ci < |scan.components| && (!dc ==> scan.limSe > 0)
    ensures tbl == if dc then scan.components[ci].dcTbl else scan.components[ci].acTbl
  {
    var sel := SelectionOf(scan);
    if dc {
      ci :| 0 <= ci < |sel.dc| && sel.dc[ci] == tbl;
    } else {
      ci :| 0 <= ci < |sel.ac| && sel.ac[ci] == tbl;
    }
  }

  /** Lists of the symbols of MCUs send some symbols of each table, and not too many. */
  lemma ListsSized(scan: Scan, books: Books, intervals: seq<seq<seq<Block>>>, lists: seq<seq<Token>>)
    requires ValidScan(scan, books) && AreIntervals(scan, intervals) && EveryComponentCoded(scan)
    requires lists == IntervalTokens(scan, books, intervals) && Fault !in Joined(lists)
    ensures Sized(SelectionOf(scan), lists, BlockCounts(scan, intervals))
  {
    hide ScanTokens, IsOrder, SymbolsIn, SelectionOf, Joined, Selects, EveryComponentCoded;
    var blocks := BlockCounts(scan, intervals);
    forall dc: bool, tbl: nat | Selects(SelectionOf(scan), dc, tbl)
      ensures WithinBlocks(lists, blocks, dc, tbl)
      ensures forall i :: 0 <= i < |lists| && blocks[i] > 0 ==> SymbolsIn(lists[i], dc, tbl) >= 1
    {
      var ci := SelectedBy(scan, dc, tbl);
      forall i | 0 <= i < |lists|
        ensures SymbolsIn(lists[i], dc, tbl) <= SYMBOLS_PER_BLOCK * blocks[i]
        ensures blocks[i] > 0 ==> SymbolsIn(lists[i], dc, tbl) >= 1
      {
        FaultFree(lists, i);
        ScanAtMost(scan, books, StartDc(scan), intervals[i], dc, tbl);
        if blocks[i] > 0 {
          ScanAtLeast(scan, books, StartDc(scan), intervals[i], ci);
        }
      }
    }
  }

  /** What is sent in each restart interval: DC prediction starts again from zero. */
  function IntervalTokens(scan: Scan, books: Books, intervals: seq<seq<seq<Block>>>): (lists: seq<seq<Token>>)
    requires ValidScan(scan, books) && AreIntervals(scan, intervals)
    ensures |lists| == |intervals|
  {
    seq(|intervals|, i requires 0 <= i < |intervals| => ScanTokens(scan, books, StartDc(scan), intervals[i]))
  }

  /** The counts of a scan are the numbers of its symbols. */
  lemma ScanCountsAre(scan: Scan, books: Books, intervals: seq<seq<seq<Block>>>, dc: bool, tbl: nat, s: byte)
    requires ValidScan(scan, books) && AreIntervals(scan, intervals)
    requires Keeps(CountsOf(books, Joined(IntervalTokens(scan, books, intervals))), dc, tbl)
    ensures CountOf(CountsOf(books, Joined(IntervalTokens(scan, books, intervals))), dc, tbl, s)
            == Occurrences(Joined(IntervalTokens(scan, books, intervals)), Symbol(dc, tbl, s))
  {
    TallyIs(|books.dc|, |books.ac|, Joined(IntervalTokens(scan, books, intervals)), dc, tbl, s);
  }

  /** The statistics pass over the MCUs up to a restart or the end of the scan. */
  method GatherMcus(g: HuffGatherer, mcus: seq<seq<Block>>) returns (ok: bool)
    requires g.Valid() && AreMcus(g.scan, mcus) && g.lastDcVal == StartDc(g.scan)
    modifies g
    ensures g.Valid() && Matches(old(g.counts), g.books)
    ensures ok <==> Fault !in ScanTokens(g.scan, g.books, StartDc(g.scan), mcus)
    ensures ok ==> g.counts == AddAll(old(g.counts), ScanTokens(g.scan, g.books, StartDc(g.scan), mcus))
  {
    hide AddAll, McuTokens, McuLast, ScanTokens, IsTally, IsOrder;
    ghost var scan, books, toks := g.scan, g.books, ScanTokens(g.scan, g.books, StartDc(g.scan), mcus);
    ghost var goal := AddAll(g.counts, toks);
    assert mcus[0..] == mcus;
    for i := 0 to |mcus|
      invariant g.Valid()
      invariant Fault in toks <==> Fault in ScanTokens(scan, books, g.lastDcVal, mcus[i..])
      invariant AddAll(g.counts, ScanTokens(scan, books, g.lastDcVal, mcus[i..])) == goal
    {
      ghost var last := g.lastDcVal;
      ScanUnroll(scan, books, last, mcus, i);
      AddConcat(g.counts, McuTokens(scan, books, last, mcus[i], 0),
                ScanTokens(scan, books, McuLast(scan, books, last, mcus[i], 0), mcus[i + 1..]));
      ok := g.EncodeMcuGather(mcus[i]);
      if !ok {
        return;
      }
    }
    ScanUnroll(scan, books, g.lastDcVal, mcus, |mcus|);
    AddHead(g.counts, Fault, []);
    ok := true;
  }

  /** The statistics pass over a scan. */
  method GatherScan(scan: Scan, dcs: nat, acs: nat, intervals: seq<seq<seq<Block>>>, ghost books: Books)
    returns (ok: bool, t: Tally)
    requires ValidScan(scan, books) && AreIntervals(scan, intervals) && |books.dc| == dcs && |books.ac| == acs
    ensures ok <==> Fault !in Joined(IntervalTokens(scan, books, intervals))
    ensures ok ==> t == CountsOf(books, Joined(IntervalTokens(scan, books, intervals)))
  {
    hide AddAll, ScanTokens, IsTally, IsOrder, Joined;
    var g := new HuffGatherer(scan, dcs, acs, books);
    ghost var lists := IntervalTokens(scan, books, intervals);
    NothingJoined(books, lists);
    t := g.counts;
    for i := 0 to |intervals|
      invariant fresh(g) && g.scan == scan && g.books == books && g.Valid() && g.lastDcVal == StartDc(scan)
      invariant g.counts == CountsOf(books, Joined(lists[..i])) && Fault !in Joined(lists[..i])
    {
      JoinedNext(lists, i);
      AddConcat(NoCounts(dcs, acs), Joined(lists[..i]), lists[i]);
      EachIn(lists, i);
      ok := GatherMcus(g, intervals[i]);
      if !ok {
        return;
      }
      g.Restart();
    }
    assert lists[..|lists|] == lists;
    ok, t := true, g.counts;
  }

  lemma NothingJoined(books: Books, lists: seq<seq<Token>>)
    ensures Joined(lists[..0]) == [] && CountsOf(books, []) == NoCounts(|books.dc|, |books.ac|)
  {
  }

  /**
   * The optimizing encoder: a statistics pass, table generation, and then an output pass that cannot meet a symbol
   * without a code.  It gives up exactly if a coefficient is too large or an optimal code is too long.
   */
  method OptimizeScan(scan: Scan, htbls: Books, intervals: seq<seq<seq<Block>>>) returns (r: Optimized)
    requires Proper(htbls) && ValidScan(scan, htbls) && AreIntervals(scan, intervals)
    requires EveryComponentCoded(scan)
    requires FewEnough(BlockCounts(scan, intervals), SelectionOf(scan),
      CountsOf(htbls, Joined(IntervalTokens(scan, htbls, intervals))))
    ensures IsOptimized(r, htbls, SelectionOf(scan), IntervalTokens(scan, htbls, intervals))
  {
    hide ProperTable, GeneratedFor, AllCountable, AllLimitable, ScanTokens, IsOrder, UsesOnly, AddAll, AllCoded,
      SelectionOf, Joined, InRange, Spells, EncodersFor, FewEnough, Sized;
    ghost var lists := IntervalTokens(scan, htbls, intervals);
    var ok, t := GatherScan(scan, |htbls.dc|, |htbls.ac|, intervals, htbls);
    if !ok {
      return CoefficientTooLarge;
    }
    ListsUse(scan, htbls, intervals);
    SelectionInRange(scan, htbls);
    ListsSized(scan, htbls, intervals, lists);
    SizedIsCountable(htbls, SelectionOf(scan), lists, BlockCounts(scan, intervals));
    var books;
    ok, books := GenerateBooks(htbls, SelectionOf(scan), t, Joined(lists));
    if !ok {
      return CodeTooLong;
    }
    var segments := WriteScan(scan, htbls, books, intervals);
    r := Written(books, segments);
  }

  lemma ListsUse(scan: Scan, books: Books, intervals: seq<seq<seq<Block>>>)
    requires ValidScan(scan, books) && AreIntervals(scan, intervals)
    ensures UsesOnly(SelectionOf(scan), Joined(IntervalTokens(scan, books, intervals)))
  {
    hide ScanTokens, IsOrder, UsesOnly, SelectionOf, Joined;
    var lists := IntervalTokens(scan, books, intervals);
    forall i | 0 <= i < |lists|
      ensures UsesOnly(SelectionOf(scan), lists[i])
    {
      ScanUses(scan, books, StartDc(scan), intervals[i]);
    }
    JoinedUses(SelectionOf(scan), lists);
  }

  /** The output pass with generated tables. */
  method WriteScan(scan: Scan, ghost htbls: Books, books: Books, intervals: seq<seq<seq<Block>>>)
    returns (segments: seq<seq<byte>>)
    requires ValidScan(scan, htbls) && AreIntervals(scan, intervals) && Proper(books)
    requires Matches(CountsOf(htbls, Joined(IntervalTokens(scan, htbls, intervals))), books)
    requires GeneratedFor(SelectionOf(scan), books, CountsOf(htbls, Joined(IntervalTokens(scan, htbls, intervals))))
    requires Fault !in Joined(IntervalTokens(scan, htbls, intervals))
    ensures |segments| == |intervals|
    ensures forall i :: 0 <= i < |intervals| ==> Spells(books, IntervalTokens(scan, htbls, intervals)[i], segments[i])
  {
    hide ProperTable, GeneratedFor, ScanTokens, IsOrder, UsesOnly, AddAll, AllCoded, SelectionOf, Joined, EncodersFor,
      Spell, Stuff, Unpacked, Encodes;
    ghost var lists := IntervalTokens(scan, htbls, intervals);
    ListsUse(scan, htbls, intervals);
    SelectionInRange(scan, htbls);
    TablesAre(books);
    var dcOk, dcTbls := MakeEncoders(books.dc, true);
    var acOk, acTbls := MakeEncoders(books.ac, false);
    AllDerived(dcTbls, acTbls, books);
    segments := [];
    for i := 0 to |intervals|
      invariant |segments| == i && forall j :: 0 <= j < i ==> Spells(books, lists[j], segments[j])
    {
      EachIn(lists, i);
      NothingMissing(SelectionOf(scan), htbls, books, Joined(lists), lists[i]);
      SameTokens(scan, htbls, books, StartDc(scan), intervals[i]);
      var ok, out;
      ghost var data;
      ok, out, data := EncodeScan(scan, books, dcTbls, acTbls, intervals[i]);
      segments := segments + [out];
    }
  }

  lemma TablesAre(books: Books)
    requires Proper(books)
    ensures forall i :: 0 <= i < |books.dc| ==> IsTable(books.dc[i]) && ProperTable(books.dc[i], true)
    ensures forall i :: 0 <= i < |books.ac| ==> IsTable(books.ac[i]) && ProperTable(books.ac[i], false)
  {
    hide CountTo, Spare, ProperSymbols;
  }

  lemma AllDerived(dcTbls: seq<EncodeTable>, acTbls: seq<EncodeTable>, books: Books)
    requires Proper(books) && |dcTbls| == |books.dc| && |acTbls| == |books.ac|
    requires forall i :: 0 <= i < |dcTbls| ==>
      IsTable(books.dc[i]) && Encodes(dcTbls[i], books.dc[i], Symbols(books.dc[i]))
    requires forall i :: 0 <= i < |acTbls| ==>
      IsTable(books.ac[i]) && Encodes(acTbls[i], books.ac[i], Symbols(books.ac[i]))
    ensures EncodersFor(dcTbls, acTbls, books)
  {
    hide ProperTable, Encodes;
  }

  /** The tokens do not depend on what the tables contain. */
  lemma {:induction false} SameTokens(scan: Scan, a: Books, b: Books, last: seq<Coef>, mcus: seq<seq<Block>>)
    requires ValidScan(scan, a) && |a.dc| == |b.dc| && |a.ac| == |b.ac|
    requires |last| == |scan.components| && AreMcus(scan, mcus)
    ensures ValidScan(scan, b) && ScanTokens(scan, a, last, mcus) == ScanTokens(scan, b, last, mcus)
    decreases |mcus|
  {
    hide IsOrder, McuTokens, McuLast;
    if mcus != [] {
      SameMcuTokens(scan, a, b, last, mcus[0], 0);
      SameTokens(scan, a, b, McuLast(scan, a, last, mcus[0], 0), mcus[1..]);
    }
  }

  lemma {:induction false} SameMcuTokens(scan: Scan, a: Books, b: Books, last: seq<Coef>, mcu: seq<Block>, n: nat)
    requires ValidScan(scan, a) && ValidScan(scan, b) && |last| == |scan.components|
    requires |mcu| == |scan.membership| && n <= |mcu|
    ensures McuTokens(scan, a, last, mcu, n) == McuTokens(scan, b, last, mcu, n)
    ensures McuLast(scan, a, last, mcu, n) == McuLast(scan, b, last, mcu, n)
    decreases |mcu| - n
  {
    hide IsOrder, AcTokens, DcTokens;
    if n < |mcu| {
      SameMcuTokens(scan, a, b, last[scan.membership[n] := mcu[n][0]], mcu, n + 1);
    }
  }
}
