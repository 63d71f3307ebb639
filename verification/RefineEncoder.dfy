/**
 * The AC refinement encoder: end-of-band runs and their correction bits are held back, over any number of blocks,
 * until a symbol has to be written.
 */
module RefineEncoder {
  import opened Words
  import opened Coefficients
  import opened HuffTokens
  import opened HuffBlocks
  import opened HuffSink
  import opened RefineDecoding
  import opened RefineEncoding
  import opened RefineStream

  const MAX_CORR_BITS := 1000
  const MAX_KEPT_BITS := MAX_CORR_BITS - DCTSIZE2 + 1  // held back between blocks at most

  function BitTokens(bits: seq<bit>): (toks: seq<Token>)
    ensures |toks| == |bits|
  {
    seq(|bits|, i requires 0 <= i < |bits| => Bits(bits[i], 1))
  }

  /** Correction bits of the blocks in an open end-of-band run. */
  function OpenBits(band: Band, open: seq<Block>): (toks: seq<Token>)
    requires IsBand(band)
  {
    if open == [] then []
    else
      Corrections(band, open[0], TailStart(band, open[0], band.ss), band.se + 1) + Followers(band, open[1..])
  }

  /** What has been written of an open run: the head of its first block. */
  function Lead(band: Band, open: seq<Block>): (toks: seq<Token>)
    requires IsBand(band)
  {
    if open == [] then [] else HeadFrom(band, open[0], band.ss)
  }

  predicate IsOpen(band: Band, open: seq<Block>)
    requires IsBand(band)
  {
    open == [] || (IsGroup(band, open) && TailStart(band, open[0], band.ss) <= band.se)
  }

  lemma {:induction false} StreamAppend(band: Band, groups: seq<seq<Block>>, g: seq<Block>)
    requires IsBand(band) && AreGroups(band, groups) && IsGroup(band, g)
    ensures AreGroups(band, groups + [g])
    ensures StreamTokens(band, groups + [g]) == StreamTokens(band, groups) + GroupTokens(band, g)
    ensures Flat(groups + [g]) == Flat(groups) + g
    decreases |groups|
  {
    hide GroupTokens, IsGroup;
    if groups == [] {
      assert groups + [g] == [g];
      assert Flat([g]) == g + Flat([]);
      assert StreamTokens(band, [g]) == GroupTokens(band, g) + StreamTokens(band, []);
    } else {
      assert (groups + [g])[1..] == groups[1..] + [g];
      StreamAppend(band, groups[1..], g);
    }
  }

  lemma {:induction false} FollowersAppend(band: Band, blocks: seq<Block>, b: Block)
    requires IsBand(band)
    ensures Followers(band, blocks + [b]) == Followers(band, blocks) + Corrections(band, b, band.ss, band.se + 1)
    decreases |blocks|
  {
    hide Corrections;
    if blocks == [] {
      assert blocks + [b] == [b];
      assert Followers(band, [b]) == Corrections(band, b, band.ss, band.se + 1) + Followers(band, []);
    } else {
      assert (blocks + [b])[1..] == blocks[1..] + [b];
      FollowersAppend(band, blocks[1..], b);
    }
  }

  // ---------------------------------------------------------------------------------------------
  // Where the end-of-band runs are cut
  // ---------------------------------------------------------------------------------------------

  /** The groups of blocks that are complete, and the blocks in the run held back. */
  datatype Cut = Cut(groups: seq<seq<Block>>, open: seq<Block>)

  function Close(c: Cut): Cut {
    if c.open == [] then c else Cut(c.groups + [c.open], [])
  }

  /** What is open when the rest of block b joins the run. */
  function Before(band: Band, c: Cut, b: Block): Cut
    requires IsBand(band)
  {
    if NextNew(band, b, band.ss) <= band.se then Close(c) else c
  }

  /**
   * A block with new coefficients ends the run; so does a full count, or a buffer that could not take another block.
   */
  function Step(band: Band, c: Cut, b: Block): Cut
    requires IsBand(band)
  {
    var c1 := Before(band, c, b);
    if TailStart(band, b, band.ss) > band.se then Cut(c1.groups + [[b]], [])
    else
      var c2 := Cut(c1.groups, c1.open + [b]);
      if |c2.open| == 0x7FFF || |OpenBits(band, c2.open)| > MAX_KEPT_BITS then Close(c2) else c2
  }

  function Cuts(band: Band, blocks: seq<Block>): Cut
    requires IsBand(band)
    decreases |blocks|
  {
    if blocks == [] then Cut([], []) else Step(band, Cuts(band, blocks[..|blocks| - 1]), blocks[|blocks| - 1])
  }

  lemma NoCuts(band: Band)
    requires IsBand(band)
    ensures Cuts(band, []) == Cut([], [])
  {
  }

  lemma CutsAppend(band: Band, blocks: seq<Block>, b: Block)
    requires IsBand(band)
    ensures Cuts(band, blocks + [b]) == Step(band, Cuts(band, blocks), b) && Cuts(band, []) == Cut([], [])
  {
    assert (blocks + [b])[..|blocks|] == blocks;
  }

  /** The groups in which a scan of these blocks is written, up to a restart or its end. */
  function GroupsOf(band: Band, blocks: seq<Block>): seq<seq<Block>>
    requires IsBand(band)
  {
    Close(Cuts(band, blocks)).groups
  }

  // ---------------------------------------------------------------------------------------------
  // PartOf a block
  // ---------------------------------------------------------------------------------------------

  lemma {:induction false} ExtendCounts(band: Band, b: Block, k0: nat, k: nat)
    requires IsBand(band) && k0 <= k <= band.se
    ensures ZerosIn(band, b, k0, k + 1) == ZerosIn(band, b, k0, k) + if Mag(band, b, k) == 0 then 1 else 0
    ensures Corrections(band, b, k0, k + 1)
            == Corrections(band, b, k0, k) + if Mag(band, b, k) > 1 then [Bits(Mag(band, b, k) % 2, 1)] else []
    decreases k - k0
  {
    hide Mag;
    if k0 < k {
      ExtendCounts(band, b, k0 + 1, k);
    }
  }

  lemma {:induction false} SplitCounts(band: Band, b: Block, k0: nat, z: nat, k: nat)
    requires IsBand(band) && k0 <= z <= k <= band.se + 1
    ensures ZerosIn(band, b, k0, k) == ZerosIn(band, b, k0, z) + ZerosIn(band, b, z, k)
    ensures Corrections(band, b, k0, k) == Corrections(band, b, k0, z) + Corrections(band, b, z, k)
    decreases z - k0
  {
    hide Mag;
    if k0 < z {
      SplitCounts(band, b, k0 + 1, z, k);
    }
  }

  lemma {:induction false} NoCorrections(band: Band, b: Block, k0: nat, k: nat)
    requires IsBand(band) && k0 <= k <= band.se + 1 && forall p :: k0 <= p < k ==> Mag(band, b, p) <= 1
    ensures Corrections(band, b, k0, k) == []
    decreases k - k0
  {
    hide Mag;
    if k0 < k {
      NoCorrections(band, b, k0 + 1, k);
    }
  }

  /** Corrections from k0 up to k come before the seventeenth zero, counted from k0. */
  ghost predicate Early(band: Band, b: Block, k0: nat, k: nat)
    requires IsBand(band) && k0 <= k <= band.se + 1
  {
    forall p :: k0 <= p < k && Mag(band, b, p) > 1 ==> ZerosIn(band, b, k0, p) <= 15
  }

  lemma {:induction false} NextNewSame(band: Band, b: Block, k0: nat, k: nat)
    requires IsBand(band) && k0 <= k <= band.se + 1 && NextNew(band, b, k0) >= k
    ensures NextNew(band, b, k0) == NextNew(band, b, k)
    decreases k - k0
  {
    hide Mag;
    if k0 < k {
      NextNewSame(band, b, k0 + 1, k);
    }
  }

  /** A zero-run symbol accounts for the first sixteen zeros and all corrections so far. */
  lemma ZrlStep(band: Band, b: Block, k0: nat, k: nat) returns (k1: nat)
    requires IsBand(band) && k0 <= k <= band.se && k <= NextNew(band, b, k0) <= band.se
    requires Early(band, b, k0, k) && ZerosIn(band, b, k0, k) > 15
    ensures k0 < k1 <= k && k <= NextNew(band, b, k1) <= band.se && Early(band, b, k1, k)
    ensures ZerosIn(band, b, k1, k) == ZerosIn(band, b, k0, k) - 16 && Corrections(band, b, k1, k) == []
    ensures HeadFrom(band, b, k0) == [Symbol(false, 0, ZRL)] + (Corrections(band, b, k0, k) + HeadFrom(band, b, k1))
    ensures TailStart(band, b, k0) == TailStart(band, b, k1)
  {
    hide Mag, HeadFrom, TailStart, ZerosIn, Corrections, NextNew;
    var j := NextNew(band, b, k0);
    SplitCounts(band, b, k0, k, j);
    var z := NthZero(band, b, k0, j, 15);
    if z >= k {
      SplitCounts(band, b, k0, k, z);
    }
    k1 := z + 1;
    ExtendCounts(band, b, k0, z);
    SplitCounts(band, b, k0, k1, k);
    forall p | k1 <= p < k
      ensures Mag(band, b, p) <= 1
    {
      SplitCounts(band, b, k0, k1, p);
    }
    NoCorrections(band, b, k1, k);
    HeadUnroll(band, b, k0);
    NextNewSame(band, b, k0, k1);
    assert Corrections(band, b, k0, k) == Corrections(band, b, k0, z);
  }

  /** A new coefficient accounts for the zeros and corrections before it. */
  lemma NewStep(band: Band, b: Block, k0: nat, k: nat)
    requires IsBand(band) && k0 <= k <= band.se && NextNew(band, b, k0) >= k && Mag(band, b, k) == 1
    requires ZerosIn(band, b, k0, k) <= 15
    ensures HeadFrom(band, b, k0) == NewTokens(band, b, k, ZerosIn(band, b, k0, k))
                                     + (Corrections(band, b, k0, k) + HeadFrom(band, b, k + 1))
    ensures TailStart(band, b, k0) == TailStart(band, b, k + 1)
  {
    hide Mag, HeadFrom, TailStart, ZerosIn, Corrections, NewTokens;
    NextNewSame(band, b, k0, k);
    HeadUnroll(band, b, k0);
  }

  lemma CloseGroup(band: Band, g: seq<Block>)
    requires IsBand(band) && IsOpen(band, g) && g != []
    ensures GroupTokens(band, g) == Lead(band, g) + (RunTokens(|g|) + OpenBits(band, g))
  {
    hide HeadFrom, TailStart, Corrections, Followers, RunTokens;
    var tail := TailStart(band, g[0], band.ss);
    assert RunTokens(|g|) + Corrections(band, g[0], tail, band.se + 1) + Followers(band, g[1..])
        == RunTokens(|g|) + (Corrections(band, g[0], tail, band.se + 1) + Followers(band, g[1..]));
  }

  predicate IsCut(band: Band, c: Cut)
    requires IsBand(band)
  {
    AreGroups(band, c.groups) && IsOpen(band, c.open) && |c.open| < 0x7FFF
  }

  /** Everything a scan has surely written at a cut: its groups, and the head of the open run's first block. */
  function Shown(band: Band, c: Cut): seq<Token>
    requires IsBand(band) && IsCut(band, c)
  {
    StreamTokens(band, c.groups) + Lead(band, c.open)
  }

  /** The end-of-band symbol that closes a run. */
  function RunsOf(g: seq<Block>): seq<Token> {
    if 1 <= |g| <= 0x7FFF then RunTokens(|g|) else []
  }

  lemma ShownClose(band: Band, c: Cut)
    requires IsBand(band) && AreGroups(band, c.groups) && IsOpen(band, c.open)
    ensures AreGroups(band, Close(c).groups) && IsCut(band, Close(c))
      && Flat(Close(c).groups) == Flat(c.groups) + c.open
    ensures PartOf(StreamTokens(band, c.groups), StreamTokens(band, Close(c).groups))
    ensures PartOf(Lead(band, c.open), StreamTokens(band, Close(c).groups))
    ensures PartOf(RunsOf(c.open), StreamTokens(band, Close(c).groups))
  {
    hide GroupTokens, StreamTokens, AreGroups, RunTokens, OpenBits, Flat;
    if c.open != [] {
      StreamAppend(band, c.groups, c.open);
      CloseGroup(band, c.open);
    } else {
      assert Flat(c.groups) + [] == Flat(c.groups);
    }
    EmptyIsOpen(band);
  }

  lemma EmptyIsOpen(band: Band)
    requires IsBand(band)
    ensures IsOpen(band, []) && Lead(band, []) == []
  {
  }

  lemma SingleGroup(band: Band, b: Block)
    requires IsBand(band) && TailStart(band, b, band.ss) > band.se
    ensures IsGroup(band, [b]) && GroupTokens(band, [b]) == HeadFrom(band, b, band.ss)
  {
    hide HeadFrom, TailStart;
    assert HeadFrom(band, b, band.ss) + [] == HeadFrom(band, b, band.ss);
  }

  lemma OpenMore(band: Band, open: seq<Block>, b: Block)
    requires IsBand(band) && IsOpen(band, open) && |open| < 0x7FFF && TailStart(band, b, band.ss) <= band.se
    requires open != [] ==> NextNew(band, b, band.ss) > band.se
    ensures IsOpen(band, open + [b]) && PartOf(Lead(band, open), Lead(band, open + [b]))
    ensures open == [] ==> Lead(band, open + [b]) == HeadFrom(band, b, band.ss)
    ensures open != [] ==> HeadFrom(band, b, band.ss) == []
  {
    hide TailStart, NextNew;
    if open != [] {
      assert (open + [b])[0] == open[0];
      assert forall i :: 1 <= i < |open| ==> (open + [b])[i] == open[i];
    }
  }

  /** A further block adds to what a scan has surely written: its own head, and the run it ends or completes. */
  lemma ShownStep(band: Band, c: Cut, b: Block)
    requires IsBand(band) && IsCut(band, c)
    ensures IsCut(band, Step(band, c, b))
    ensures PartOf(Shown(band, c), Shown(band, Step(band, c, b)))
    ensures PartOf(HeadFrom(band, b, band.ss), Shown(band, Step(band, c, b)))
    ensures NextNew(band, b, band.ss) <= band.se ==> PartOf(RunsOf(c.open), Shown(band, Step(band, c, b)))
    ensures Step(band, c, b).open == [] && TailStart(band, b, band.ss) <= band.se ==>
              PartOf(RunsOf(Before(band, c, b).open + [b]), Shown(band, Step(band, c, b)))
  {
    hide GroupTokens, StreamTokens, AreGroups, RunTokens, OpenBits, Flat, TailStart, NextNew, HeadFrom, IsOpen, Lead,
      RunsOf;
    EmptyIsOpen(band);
    var c1 := Before(band, c, b);
    ShownClose(band, c);
    if TailStart(band, b, band.ss) > band.se {
      NoRun(band, b);
      SingleGroup(band, b);
      StreamAppend(band, c1.groups, [b]);
    } else {
      OpenMore(band, c1.open, b);
      var c2 := Cut(c1.groups, c1.open + [b]);
      ShownClose(band, c2);
    }
  }

  lemma {:induction false} CutsAre(band: Band, blocks: seq<Block>)
    requires IsBand(band)
    ensures IsCut(band, Cuts(band, blocks)) && Flat(Cuts(band, blocks).groups) + Cuts(band, blocks).open == blocks
    decreases |blocks|
  {
    hide IsCut, Step, Flat, Cuts;
    NoCuts(band);
    if blocks == [] {
      NothingCut(band);
    } else {
      var init, b := blocks[..|blocks| - 1], blocks[|blocks| - 1];
      assert init + [b] == blocks;
      CutsAre(band, init);
      CutsAppend(band, init, b);
      ShownStep(band, Cuts(band, init), b);
      StepBlocks(band, Cuts(band, init), b);
    }
  }

  lemma NothingCut(band: Band)
    requires IsBand(band)
    ensures IsCut(band, Cut([], [])) && Flat([]) == []
  {
  }

  /** A step adds its block, whatever it cuts. */
  lemma StepBlocks(band: Band, c: Cut, b: Block)
    requires IsBand(band) && IsCut(band, c)
    ensures Flat(Step(band, c, b).groups) + Step(band, c, b).open == Flat(c.groups) + c.open + [b]
  {
    hide OpenBits, TailStart, NextNew, IsCut, Flat, Close;
    var c1 := Before(band, c, b);
    FlatClose(c);
    assert Flat(c1.groups) + c1.open == Flat(c.groups) + c.open;
    if TailStart(band, b, band.ss) > band.se {
      NoRun(band, b);
      NothingOpen(c);
      FlatAppend(c1.groups, [b]);
      assert Flat(c1.groups) + [] == Flat(c1.groups) && Flat(c1.groups) + [b] + [] == Flat(c1.groups) + [b];
    } else {
      FlatClose(Cut(c1.groups, c1.open + [b]));
      assert Flat(c1.groups) + (c1.open + [b]) == Flat(c1.groups) + c1.open + [b];
    }
  }

  lemma NothingOpen(c: Cut)
    ensures Close(c).open == []
  {
  }

  lemma {:induction false} FlatAppend(groups: seq<seq<Block>>, g: seq<Block>)
    ensures Flat(groups + [g]) == Flat(groups) + g
    decreases |groups|
  {
    if groups == [] {
      assert Flat([g]) == g + Flat([]);
    } else {
      FlatAppend(groups[1..], g);
      assert (groups + [g])[1..] == groups[1..] + [g];
    }
  }

  lemma FlatClose(c: Cut)
    ensures Flat(Close(c).groups) + Close(c).open == Flat(c.groups) + c.open
  {
    hide Flat;
    if c.open != [] {
      FlatAppend(c.groups, c.open);
      assert Flat(c.groups) + c.open + [] == Flat(c.groups) + c.open;
    }
  }

  /** The symbols and bits of a scan of these blocks, up to a restart or its end. */
  function RefineTokens(band: Band, blocks: seq<Block>): (toks: seq<Token>)
    requires IsBand(band)
  {
    CutsAre(band, blocks);
    ShownClose(band, Cuts(band, blocks));
    StreamTokens(band, GroupsOf(band, blocks))
  }

  /** What is surely written after some blocks is part of the scan. */
  lemma {:induction false} ShownInScan(band: Band, blocks: seq<Block>, i: nat)
    requires IsBand(band) && i <= |blocks|
    ensures IsCut(band, Cuts(band, blocks[..i]))
      && PartOf(Shown(band, Cuts(band, blocks[..i])), RefineTokens(band, blocks))
    decreases |blocks| - i
  {
    hide AreGroups, IsOpen, Step, StreamTokens, Lead, Flat, Cuts;
    CutsAre(band, blocks[..i]);
    if i == |blocks| {
      assert blocks[..i] == blocks;
      ShownClose(band, Cuts(band, blocks));
    } else {
      ShownInScan(band, blocks, i + 1);
      assert blocks[..i + 1] == blocks[..i] + [blocks[i]];
      CutsAppend(band, blocks[..i], blocks[i]);
      ShownStep(band, Cuts(band, blocks[..i]), blocks[i]);
    }
  }

  /** If nothing is left over at the end of a block, the block has new coefficients. */
  lemma NoRun(band: Band, b: Block)
    requires IsBand(band) && TailStart(band, b, band.ss) > band.se
    ensures NextNew(band, b, band.ss) <= band.se
  {
  }

  class RefineEncoder {
    const sink: TokenSink
    const band: Band
    const bitBuffer: array<bit>  // correction bits held back
    var eobrun: nat              // blocks in the end-of-band run held back
    var be: nat                  // correction bits held back from earlier blocks

    ghost var groups: seq<seq<Block>>  // the groups of blocks sent completely
    ghost var open: seq<Block>         // the blocks in the run held back

    ghost predicate Set() {
      IsBand(band) && bitBuffer.Length == MAX_CORR_BITS && sink.Set() && Has(sink.books, false, 0)
    }

    /** Everything sent so far has been counted, or written. */
    ghost predicate Sending()
      reads sink, sink.bw
    {
      Set() && sink.Valid()
    }

    /** The run and the correction bits held back are those of the open blocks. */
    ghost predicate Held()
      reads this`eobrun, this`be, this`open, bitBuffer
    {
      && Set() && IsOpen(band, open) && eobrun == |open| && be <= MAX_CORR_BITS
      && BitTokens(bitBuffer[..be]) == OpenBits(band, open)
    }

    /** Complete groups, then the head of the open run's first block, then h have been written. */
    ghost predicate Written(h: seq<Token>)
      reads sink`log, this`groups, this`open
    {
      && Set() && AreGroups(band, groups) && sink.log == StreamTokens(band, groups) + Lead(band, open) + h
      && (open != [] ==> h == [])
    }

    ghost predicate Valid()
      reads this, sink, sink.bw, bitBuffer
    {
      Sending() && Held() && Written([]) && eobrun < 0x7FFF && be <= MAX_KEPT_BITS
    }

    /** The blocks encoded so far. */
    ghost function Done(): seq<Block>
      reads this`groups, this`open
    {
      Flat(groups) + open
    }

    ghost function Now(): Cut
      reads this`groups, this`open
    {
      Cut(groups, open)
    }

    constructor (sink: TokenSink, band: Band)
      requires IsBand(band) && sink.Valid() && sink.log == [] && Has(sink.books, false, 0)
      ensures Valid() && this.sink == sink && this.band == band && fresh(bitBuffer)
      ensures Done() == [] && Now() == Cut([], [])
    {
      this.sink, this.band := sink, band;
      bitBuffer := new bit[MAX_CORR_BITS](_ => 0);
      eobrun, be, groups, open := 0, 0, [], [];
    }

    /** A symbol among toks has no code; a statistics pass needs none. */
    ghost predicate Lacks(toks: seq<Token>) {
      sink.Set() && exists s: byte :: Symbol(false, 0, s) in toks && !sink.Takes(Symbol(false, 0, s))
    }

    /** Emits or just counts a symbol. */
    method SendSymbol(s: byte) returns (ok: bool)
      requires Sending()
      modifies sink, sink.bw
      ensures if ok then Sending() && sink.log == old(sink.log) + [Symbol(false, 0, s)]
        else Lacks([Symbol(false, 0, s)])
    {
      hide TokenSink.Valid, TokenSink.Takes, IsBand;
      ok := sink.SendSymbol(false, 0, s);
    }

    /** Emits bits; a statistics pass ignores them. */
    method SendBits(v: int, n: nat)
      requires Sending() && 1 <= n <= 16
      modifies sink, sink.bw
      ensures Sending() && sink.log == old(sink.log) + [Bits(v, n)]
    {
      hide TokenSink.Valid, IsBand;
      sink.SendBits(v, n);
    }

    /** Emits n correction bits from the buffer. */
    method EmitBufferedBits(start: nat, n: nat)
      requires Sending() && start + n <= bitBuffer.Length
      modifies sink, sink.bw
      ensures Sending() && sink.log == old(sink.log) + BitTokens(bitBuffer[start..start + n])
    {
      hide Sending;
      var i := 0;
      while i < n
        invariant i <= n && Sending() && sink.log == old(sink.log) + BitTokens(bitBuffer[start..start + i])
      {
        assert bitBuffer[start..start + i + 1] == bitBuffer[start..start + i] + [bitBuffer[start + i]];
        assert BitTokens(bitBuffer[start..start + i + 1])
          == BitTokens(bitBuffer[start..start + i]) + [Bits(bitBuffer[start + i], 1)];
        SendBits(bitBuffer[start + i], 1);
        i := i + 1;
      }
    }

    /** Sends the end-of-band symbol of the run. */
    method EmitRun() returns (ok: bool)
      requires Sending() && 1 <= eobrun <= 0x7FFF
      modifies sink, sink.bw
      ensures if ok then Sending() && sink.log == old(sink.log) + RunTokens(eobrun) else Lacks(RunTokens(eobrun))
    {
      hide TokenSink.Valid, TokenSink.Takes, IsBand, NumBits;
      ok := sink.SendRun(eobrun);
    }

    /** Emits any pending end-of-band run and its correction bits. */
    method EmitEobrun(ghost h: seq<Token>) returns (ok: bool)
      requires Sending() && Held() && Written(h) && eobrun <= 0x7FFF
      modifies sink, sink.bw, this`eobrun, this`be, this`groups, this`open
      ensures if ok then Sending() && Held() && Written(h) && Done() == old(Done()) && be == 0
        && Now() == Close(old(Now()))
              else old(open) != [] && Lacks(RunsOf(old(open)))
    {
      hide Sending, IsGroup, StreamTokens, Followers, Corrections, Flat, GroupTokens, RunTokens, HeadFrom, TailStart;
      NoBits();
      ok := true;
      if eobrun > 0 {
        ghost var g := open;
        ok := EmitRun();
        if !ok {
          return;
        }
        eobrun := 0;
        EmitBufferedBits(0, be);
        be := 0;
        CloseGroup(band, g);
        StreamAppend(band, groups, g);
        ghost var was := old(StreamTokens(band, groups));
        assert bitBuffer[0..old(be)] == bitBuffer[..old(be)];
        assert sink.log == was + Lead(band, g) + [] + RunTokens(|g|) + OpenBits(band, g);
        CloseStream(was, Lead(band, g), RunTokens(|g|), OpenBits(band, g));
        groups := groups + [g];
        open := [];
      }
    }

    lemma NoBits()
      ensures BitTokens([]) == []
    {
    }

    lemma CloseStream(a: seq<Token>, b: seq<Token>, c: seq<Token>, d: seq<Token>)
      ensures a + b + [] + c + d == a + (b + (c + d)) + [] + []
    {
    }

    // -------------------------------------------------------------------------------------------
    // One block
    // -------------------------------------------------------------------------------------------

    /**
     * Encoding has reached position k of block b, and everything before k0 is accounted for by the tokens h; between
     * them lie r zeros, and br correction bits that stand in the buffer from base on.
     */
    ghost predicate InBlock(b: Block, k0: nat, k: nat, r: nat, br: nat, base: nat, h: seq<Token>)
      reads this, sink`log, bitBuffer
    {
      && Held() && Written(h) && eobrun < 0x7FFF && base == be <= MAX_KEPT_BITS
      && band.ss <= k0 <= k <= band.se + 1 && k <= NextNew(band, b, k0) && r == ZerosIn(band, b, k0, k)
      && br <= k - k0 && BitTokens(bitBuffer[base..base + br]) == Corrections(band, b, k0, k)
      && (NextNew(band, b, k0) <= band.se ==> Early(band, b, k0, k))
      && TailStart(band, b, k0) == TailStart(band, b, band.ss)
      && h + HeadFrom(band, b, k0) == HeadFrom(band, b, band.ss)
      && (open != [] ==> k0 == band.ss)
    }

    lemma StartBlock(b: Block)
      requires Held() && Written([]) && eobrun < 0x7FFF && be <= MAX_KEPT_BITS
      ensures InBlock(b, band.ss, band.ss, 0, 0, be, [])
    {
      hide IsOpen, OpenBits, AreGroups, StreamTokens, Lead, TailStart, HeadFrom, Spell, Mag;
      NoBits();
      assert bitBuffer[be..be + 0] == [];
      assert [] + HeadFrom(band, b, band.ss) == HeadFrom(band, b, band.ss);
    }

    /** Magnitudes of all coefficients, and the position of the last one that becomes nonzero. */
    method Prepass(b: Block) returns (absvalues: seq<nat>, eob: nat)
      requires IsBand(band)
      ensures |absvalues| == DCTSIZE2 && forall k :: band.ss <= k <= band.se ==> absvalues[k] == Mag(band, b, k)
      ensures forall k :: band.ss <= k <= band.se ==> (k <= eob <==> NextNew(band, b, k) <= band.se)
    {
      hide Shifted;
      absvalues, eob := seq(DCTSIZE2, _ => 0), 0;
      var k := band.ss;
      while k <= band.se
        invariant band.ss <= k <= band.se + 1 && |absvalues| == DCTSIZE2
        invariant forall j :: band.ss <= j < k ==> absvalues[j] == Mag(band, b, j)
        invariant eob < k && (eob > 0 ==> band.ss <= eob && Mag(band, b, eob) == 1)
        invariant forall j :: band.ss <= j < k && j > eob ==> Mag(band, b, j) != 1
      {
        var temp := Shifted(Magnitude(b[band.order[k]]), band.al);
        absvalues := absvalues[k := temp];
        if temp == 1 {
          eob := k;
        }
        k := k + 1;
      }
    }

    /** Everything up to position k is accounted for by h except the zeros since k0. */
    lemma BlockGoesOn(b: Block, k0: nat, k: nat, h: seq<Token>)
      requires Held() && Written(h) && open == [] && eobrun == 0 && be == 0
      requires band.ss <= k0 <= k <= band.se + 1 && k <= NextNew(band, b, k0)
      requires Corrections(band, b, k0, k) == [] && (NextNew(band, b, k0) <= band.se ==> Early(band, b, k0, k))
      requires TailStart(band, b, k0) == TailStart(band, b, band.ss)
      requires h + HeadFrom(band, b, k0) == HeadFrom(band, b, band.ss)
      ensures InBlock(b, k0, k, ZerosIn(band, b, k0, k), 0, 0, h)
    {
      hide Set, IsOpen, OpenBits, AreGroups, StreamTokens, Lead, TailStart, HeadFrom, Mag, Corrections, Early;
      NoBits();
      assert bitBuffer[0..0] == [];
    }

    /**
     * Closes the run that is held back; then come a symbol, a sign for a new coefficient, and n bits from the buffer.
     */
    method EmitBehindRun(s: byte, sign: seq<bit>, base: nat, n: nat, ghost h: seq<Token>) returns (ok: bool)
      requires Sending() && Held() && Written(h) && eobrun <= 0x7FFF && base + n <= MAX_CORR_BITS && |sign| <= 1
      modifies sink, sink.bw, this`eobrun, this`be, this`groups, this`open
      ensures if ok then
                && Sending() && Held() && open == [] && eobrun == 0 && be == 0
                && Done() == old(Done()) && Now() == Close(old(Now()))
                && Written(h + ([Symbol(false, 0, s)] + BitTokens(sign) + BitTokens(bitBuffer[base..base + n])))
              else Lacks(RunsOf(old(open))) || Lacks([Symbol(false, 0, s)])
    {
      hide Sending, AreGroups, StreamTokens, Flat, IsOpen, OpenBits, Lacks, BitTokens;
      ok := EmitEobrun(h);
      if ok {
        ghost var was := StreamTokens(band, groups);
        ok := SendSymbol(s);
        if ok {
          if sign != [] {
            SendBits(sign[0], 1);
          }
          OneSign(sign);
          EmitBufferedBits(base, n);
          AddedUp(was, h, [Symbol(false, 0, s)], BitTokens(sign), BitTokens(bitBuffer[base..base + n]));
        }
      }
    }

    lemma OneSign(sign: seq<bit>)
      requires |sign| <= 1
      ensures BitTokens(sign) == if sign == [] then [] else [Bits(sign[0], 1)]
    {
    }

    /** Emits a zero-run symbol with the correction bits that belong to it. */
    method EmitZrl(b: Block, k: nat, r: nat, br: nat, ghost k0: nat, ghost h: seq<Token>)
      returns (ok: bool, ghost k1: nat, ghost h1: seq<Token>)
      requires Sending() && k <= band.se && InBlock(b, k0, k, r, br, be, h) && r > 15 && NextNew(band, b, k0) <= band.se
      modifies sink, sink.bw, this`eobrun, this`be, this`groups, this`open
      ensures if ok then
                && Sending() && InBlock(b, k1, k, r - 16, 0, 0, h1) && Done() == old(Done()) && be == 0
                && k1 <= k && NextNew(band, b, k1) <= band.se && Now() == Close(old(Now())) && k1 > k0
              else Lacks(HeadFrom(band, b, band.ss)) || Lacks(RunsOf(old(open)))
    {
      hide Sending, Held, Written, Flat, TailStart, HeadFrom, Mag, ZerosIn, Corrections, Early, IsBand, NextNew;
      hide IsOpen, OpenBits, RunsOf, BitTokens, Close, TokenSink.Takes, TokenSink.Set;
      BlockFacts(b, k0, k, r, br, be, h);
      k1 := ZrlStep(band, b, k0, k);
      NoSign();
      ghost var corr := Corrections(band, b, k0, k);
      h1 := h + ([Symbol(false, 0, ZRL)] + [] + corr);
      assert h + ([Symbol(false, 0, ZRL)] + (corr + HeadFrom(band, b, k1))) == h1 + HeadFrom(band, b, k1);
      ok := EmitBehindRun(ZRL, [], be, br, h);
      if ok {
        BlockGoesOn(b, k1, k, h1);
      }
    }

    lemma NoSign()
      ensures BitTokens([]) == []
    {
    }

    /** Emits a coefficient that becomes nonzero, with the correction bits that belong to it. */
    method EmitNew(b: Block, k: nat, r: nat, br: nat, ghost k0: nat, ghost h: seq<Token>)
      returns (ok: bool, ghost h1: seq<Token>)
      requires Sending() && k <= band.se && InBlock(b, k0, k, r, br, be, h) && r <= 15 && Mag(band, b, k) == 1
      modifies sink, sink.bw, this`eobrun, this`be, this`groups, this`open
      ensures if ok then
                && Sending() && InBlock(b, k + 1, k + 1, 0, 0, 0, h1) && Done() == old(Done()) && be == 0
                && Now() == Close(old(Now()))
              else Lacks(HeadFrom(band, b, band.ss)) || Lacks(RunsOf(old(open)))
    {
      hide Sending, Held, Written, Flat, TailStart, HeadFrom, Mag, ZerosIn, Corrections, Early, NextNew;
      hide IsOpen, OpenBits, RunsOf, BitTokens, Close, TokenSink.Takes, TokenSink.Set;
      BlockFacts(b, k0, k, r, br, be, h);
      NewStep(band, b, k0, k);
      NothingSince(b, k + 1);
      var sign := SignOf(b[band.order[k]]);
      OneSign([sign]);
      ghost var corr := Corrections(band, b, k0, k);
      h1 := h + ([Symbol(false, 0, 16 * r + 1)] + [Bits(sign, 1)] + corr);
      JoinNew(h, Symbol(false, 0, 16 * r + 1), Bits(sign, 1), corr, HeadFrom(band, b, k + 1));
      ok := EmitBehindRun(16 * r + 1, [sign], be, br, h);
      if ok {
        BlockGoesOn(b, k + 1, k + 1, h1);
      }
    }

    lemma AddedUp(a: seq<Token>, h: seq<Token>, x: seq<Token>, y: seq<Token>, z: seq<Token>)
      ensures a + [] + h + x + y + z == a + [] + (h + (x + y + z))
      ensures a + [] + h + x + z == a + [] + (h + (x + y + z)) || y != []
    {
    }

    lemma JoinNew(h: seq<Token>, sym: Token, sign: Token, corr: seq<Token>, rest: seq<Token>)
      ensures h + ([sym, sign] + (corr + rest)) == h + ([sym] + [sign] + corr) + rest
    {
    }

    lemma NothingSince(b: Block, k: nat)
      requires IsBand(band) && k <= band.se + 1
      ensures ZerosIn(band, b, k, k) == 0 && Corrections(band, b, k, k) == [] && Early(band, b, k, k)
    {
    }

    /** A coefficient that stays zero. */
    lemma PassZero(b: Block, k0: nat, k: nat, r: nat, br: nat, base: nat, h: seq<Token>)
      requires InBlock(b, k0, k, r, br, base, h) && k <= band.se && Mag(band, b, k) == 0
      ensures InBlock(b, k0, k + 1, r + 1, br, base, h)
    {
      hide Set, IsOpen, OpenBits, Written, TailStart, HeadFrom, Mag, ZerosIn, Corrections, BitTokens, NextNew;
      InSetUp();
      ExtendCounts(band, b, k0, k);
      NotNew(b, k0, k);
    }

    lemma NotNew(b: Block, k0: nat, k: nat)
      requires IsBand(band) && k0 <= k <= band.se && NextNew(band, b, k0) >= k && Mag(band, b, k) != 1
      ensures NextNew(band, b, k0) >= k + 1
    {
    }

    /** Appends one correction bit to the buffer. */
    method Keep(b: Block, k: nat, r: nat, br: nat, base: nat, bit0: bit, ghost k0: nat, ghost h: seq<Token>)
      requires InBlock(b, k0, k, r, br, base, h) && k <= band.se && Mag(band, b, k) > 1 && bit0 == Mag(band, b, k) % 2
      requires r <= 15 || NextNew(band, b, k0) > band.se
      modifies bitBuffer
      ensures InBlock(b, k0, k + 1, r, br + 1, base, h)
    {
      hide Set, IsOpen, OpenBits, Written, TailStart, HeadFrom, Mag, ZerosIn, Corrections, BitTokens, NextNew;
      InSetUp();
      ExtendCounts(band, b, k0, k);
      NotNew(b, k0, k);
      ghost var before := bitBuffer[base..base + br];
      bitBuffer[base + br] := bit0;
      assert bitBuffer[..be] == old(bitBuffer[..be]);
      assert bitBuffer[base..base + (br + 1)] == before + [bit0];
      OneMoreBitToken(before, bit0);
    }

    lemma InSetUp()
      requires Set()
      ensures IsBand(band) && band.se <= 63 && bitBuffer.Length == MAX_CORR_BITS
    {
    }

    lemma OneMoreBitToken(bits: seq<bit>, b: bit)
      ensures BitTokens(bits + [b]) == BitTokens(bits) + [Bits(b, 1)]
    {
    }

    /** The whole block has been passed: what is left over joins the run that is held back. */
    ghost method Leave(b: Block, k0: nat, r: nat, br: nat, base: nat, h: seq<Token>)
      requires InBlock(b, k0, band.se + 1, r, br, base, h)
      modifies this`groups, this`open
      ensures r > 0 || br > 0 <==> k0 <= band.se
      ensures Written([]) && Done() == old(Done()) + [b] && IsOpen(band, open)
      ensures k0 <= band.se ==> |open| == eobrun + 1 && BitTokens(bitBuffer[..be + br]) == OpenBits(band, open)
      ensures k0 > band.se ==> open == [] && eobrun == 0 && be == 0
      ensures TailStart(band, b, band.ss) == k0
      ensures Now() == if k0 > band.se then Cut(old(groups) + [[b]], []) else Cut(old(groups), old(open) + [b])
    {
      hide Sending, StreamTokens, Flat, TailStart, HeadFrom, Mag, ZerosIn, Corrections, Followers, Early, NextNew;
      hide BitTokens;
      ghost var tail := TailStart(band, b, band.ss);
      HeadUnroll(band, b, k0);
      assert h + [] == h;
      LeftOver(b, k0, r);
      if k0 > band.se {
        SingleGroup(band, b);
        StreamAppend(band, groups, [b]);
        assert StreamTokens(band, groups) + [] + h == StreamTokens(band, groups) + h + [] + [];
        groups := groups + [[b]];
      } else if open == [] {
        NoFollowers(band);
        assert [b][1..] == [];
        assert Corrections(band, b, k0, band.se + 1) + [] == Corrections(band, b, k0, band.se + 1);
        assert StreamTokens(band, groups) + [] + h == StreamTokens(band, groups) + h + [];
        open := [b];
      } else {
        assert (open + [b])[1..] == open[1..] + [b];
        FollowersAppend(band, open[1..], b);
        assert bitBuffer[..be + br] == bitBuffer[..be] + bitBuffer[base..base + br];
        BitTokensConcat(bitBuffer[..be], bitBuffer[base..base + br]);
        assert Flat(groups) + (open + [b]) == Flat(groups) + open + [b];
        open := open + [b];
      }
    }

    /** Zeros or correction bits are left over exactly if the last new coefficient is not at the end of the band. */
    lemma LeftOver(b: Block, k0: nat, r: nat)
      requires IsBand(band) && k0 <= band.se + 1 && r == ZerosIn(band, b, k0, band.se + 1)
      requires NextNew(band, b, k0) > band.se
      ensures k0 > band.se ==> r == 0
      ensures k0 <= band.se && r == 0 ==> Corrections(band, b, k0, band.se + 1) != []
    {
    }

    lemma BitTokensConcat(a: seq<bit>, b: seq<bit>)
      ensures BitTokens(a + b) == BitTokens(a) + BitTokens(b)
    {
    }

    /** So far, block b has or has not ended the run that was open before it. */
    ghost predicate Since(c0: Cut, b: Block, k0: nat)
      reads this`groups, this`open
    {
      && IsBand(band) && band.ss <= k0 <= band.se + 1 && Now() == (if k0 > band.ss then Close(c0) else c0)
      && (k0 > band.ss ==> NextNew(band, b, band.ss) <= band.se)
    }

    /** Encodes one block; fails only if a symbol that the scan needs has no code. */
    method EncodeMcu(b: Block) returns (ok: bool)
      requires Valid()
      modifies this, sink, sink.bw, bitBuffer
      ensures IsBand(band) && IsCut(band, old(Now())) && IsCut(band, Step(band, old(Now()), b))
      ensures if ok then Valid() && Done() == old(Done()) + [b] && Now() == Step(band, old(Now()), b)
              else Lacks(Shown(band, Step(band, old(Now()), b)))
    {
      hide Sending, Held, Written, InBlock, NextNew, Mag, ZerosIn, Flat, Step, IsCut, Shown, HeadFrom, RunsOf, PartOf,
        Close, TailStart;
      InSetUpNow();
      ghost var c0 := Now();
      ShownStep(band, c0, b);
      var absvalues, eob := Prepass(b);
      StartBlock(b);
      var r: nat, br: nat, base: nat, k: nat := 0, 0, be, band.ss;
      ghost var k0: nat, h: seq<Token> := band.ss, [];
      while k <= band.se
        invariant band.ss <= k <= band.se + 1 && base == be && Sending() && Done() == old(Done()) && Since(c0, b, k0)
        invariant InBlock(b, k0, k, r, br, base, h)
      {
        BlockFacts(b, k0, k, r, br, base, h);
        var temp := absvalues[k];
        if temp == 0 {
          PassZero(b, k0, k, r, br, base, h);
          r := r + 1;
          k := k + 1;
          continue;
        }
        while r > 15 && k <= eob
          invariant base == be && Sending() && Done() == old(Done()) && InBlock(b, k0, k, r, br, base, h) && k0 <= k
          invariant Since(c0, b, k0)
          invariant k <= eob <==> NextNew(band, b, k0) <= band.se
        {
          NewAhead(b, k0, k);
          CloseTwice(c0);
          ghost var was := Now();
          ok, k0, h := EmitZrl(b, k, r, br, k0, h);
          if !ok {
            Lost(c0, b, was.open);
            return;
          }
          r, br, base := r - 16, 0, 0;
        }
        if temp > 1 {
          Keep(b, k, r, br, base, temp % 2, k0, h);
          br := br + 1;
          k := k + 1;
          continue;
        }
        NewAhead(b, k0, k);
        CloseTwice(c0);
        ghost var was := Now();
        ok, h := EmitNew(b, k, r, br, k0, h);
        if !ok {
          Lost(c0, b, was.open);
          return;
        }
        k := k + 1;
        k0, r, br, base := k, 0, 0, 0;
      }
      ok := EndBlock(b, k0, r, br, base, h, c0);
    }

    lemma CloseTwice(c: Cut)
      ensures Close(Close(c)) == Close(c) && Close(c).open == []
    {
    }

    /** A new coefficient ahead of k0 is one ahead of the start. */
    lemma NewAhead(b: Block, k0: nat, k: nat)
      requires IsBand(band) && band.ss <= k0 <= band.se + 1
      ensures NextNew(band, b, k0) <= band.se ==> NextNew(band, b, band.ss) <= band.se
    {
      hide Mag;
    }

    /** What was missing belongs to what the scan surely writes. */
    lemma Lost(c0: Cut, b: Block, open0: seq<Block>)
      requires IsBand(band) && IsCut(band, c0) && IsCut(band, Step(band, c0, b)) && NextNew(band, b, band.ss) <= band.se
      requires open0 == c0.open || open0 == []
      requires Lacks(HeadFrom(band, b, band.ss)) || Lacks(RunsOf(open0))
      ensures Lacks(Shown(band, Step(band, c0, b)))
    {
      hide HeadFrom, Shown, Step, NextNew, TailStart, RunTokens, IsCut, Coded, ProperTable;
      ShownStep(band, c0, b);
    }

    /**
     * Counts the block into the run that is held back, and writes the run before its count or its bits get too many.
     */
    method EndBlock(b: Block, ghost k0: nat, r: nat, br: nat, base: nat, ghost h: seq<Token>, ghost c0: Cut)
        returns (ok: bool)
      requires Sending() && InBlock(b, k0, band.se + 1, r, br, base, h) && Since(c0, b, k0)
      requires IsCut(band, c0) && IsCut(band, Step(band, c0, b))
      modifies this, sink, sink.bw
      ensures if ok then Valid() && Done() == old(Done()) + [b] && Now() == Step(band, c0, b)
              else Lacks(Shown(band, Step(band, c0, b)))
    {
      hide Sending, AreGroups, StreamTokens, Flat, TailStart, HeadFrom, ZerosIn, Corrections, NextNew, IsOpen, OpenBits;
      hide BitTokens, Lead, IsOrder, IsCut, Shown, Lacks, Before, Step, RunsOf;
      BeforeIs(c0, b, k0);
      Leave(b, k0, r, br, base, h);
      StepIs(c0, b, k0);
      ok := true;
      if r > 0 || br > 0 {
        eobrun := eobrun + 1;
        be := be + br;
        if eobrun == 0x7FFF || be > MAX_KEPT_BITS {
          BitCount(bitBuffer[..be]);
          ok := EmitEobrun([]);
          if !ok { LostRun(c0, b); }
        } else {
          BitCount(bitBuffer[..be]);
        }
      }
    }

    lemma BitCount(bits: seq<bit>)
      ensures |BitTokens(bits)| == |bits|
    {
    }

    lemma BeforeIs(c0: Cut, b: Block, k0: nat)
      requires Since(c0, b, k0) && NextNew(band, b, k0) > band.se
      ensures Now() == Before(band, c0, b)
    {
      hide Mag;
    }

    lemma StepIs(c0: Cut, b: Block, k0: nat)
      requires IsBand(band) && TailStart(band, b, band.ss) == k0
      ensures var c1 := Before(band, c0, b); var c2 := Cut(c1.groups, c1.open + [b]);
              Step(band, c0, b) == if k0 > band.se then Cut(c1.groups + [[b]], [])
                                   else if |c2.open| == 0x7FFF
                                     || |OpenBits(band, c2.open)| > MAX_KEPT_BITS then Close(c2) else c2
    {
      hide TailStart, Before, OpenBits;
    }

    lemma LostRun(c0: Cut, b: Block)
      requires IsBand(band) && IsCut(band, c0) && IsCut(band, Step(band, c0, b))
        && TailStart(band, b, band.ss) <= band.se
      requires Step(band, c0, b).open == [] && Lacks(RunsOf(Before(band, c0, b).open + [b]))
      ensures Lacks(Shown(band, Step(band, c0, b)))
    {
      hide HeadFrom, Shown, Step, NextNew, TailStart, RunTokens, IsCut, Coded, ProperTable, RunsOf, Before;
      ShownStep(band, c0, b);
    }

    lemma InSetUpNow()
      requires Valid()
      ensures Set() && IsBand(band) && Held() && Written([]) && eobrun < 0x7FFF && be <= MAX_KEPT_BITS && Sending()
      ensures IsCut(band, Now())
    {
    }

    lemma BlockFacts(b: Block, k0: nat, k: nat, r: nat, br: nat, base: nat, h: seq<Token>)
      requires InBlock(b, k0, k, r, br, base, h) && k <= band.se
      ensures IsBand(band) && k0 <= k && NextNew(band, b, k0) == NextNew(band, b, k) && base + br <= MAX_CORR_BITS
    {
      hide Mag;
      NextNewSame(band, b, k0, k);
    }

    lemma LostLast(c: Cut)
      requires IsBand(band) && IsCut(band, c) && Lacks(RunsOf(c.open))
      ensures AreGroups(band, Close(c).groups) && Lacks(StreamTokens(band, Close(c).groups))
    {
      hide StreamTokens, RunTokens, AreGroups, IsOpen, Coded, ProperTable, Close;
      ShownClose(band, c);
    }

    lemma AllWritten()
      requires Written([]) && open == []
      ensures AreGroups(band, groups) && sink.log == StreamTokens(band, groups) && Done() == Flat(groups)
    {
      hide AreGroups, StreamTokens, Flat;
    }

    /** Writes or counts the run that is held back, and pads the last byte. */
    method FinishPass() returns (ok: bool)
      requires Valid()
      modifies this, sink, sink.bw, bitBuffer
      ensures Set() && AreGroups(band, Close(old(Now())).groups)
      ensures if ok then
                && groups == Close(old(Now())).groups && Flat(groups) == old(Done())
                   && sink.log == StreamTokens(band, groups)
                && sink.Finished()
              else Lacks(StreamTokens(band, Close(old(Now())).groups))
    {
      hide AreGroups, StreamTokens, IsOpen, OpenBits, Flat, Lacks, IsBand, Held, Written, IsCut, RunsOf;
      hide TokenSink.Valid, TokenSink.Set, TokenSink.Finished;
      InSetUpNow();
      ghost var c := Now();
      ClosedGroups(c);
      SetParts();
      ok := EmitEobrun([]);
      if ok {
        AllWritten();
        sink.Finish();
      } else {
        LostLast(c);
      }
    }

    lemma ClosedGroups(c: Cut)
      requires IsBand(band) && IsCut(band, c)
      ensures AreGroups(band, Close(c).groups) && Close(c).open == []
    {
      ShownClose(band, c);
    }

    lemma SetParts()
      requires Valid()
      ensures Set() && eobrun <= 0x7FFF
    {
    }
  }
}
