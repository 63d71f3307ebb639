/** What Figures G.7 and G.8 of T.81 say of an AC refinement scan: the symbols of a block, and how long runs get. */
module RefineFigures {
  import opened Coefficients
  import opened HuffTokens
  import opened HuffBlocks
  import opened RefineDecoding
  import opened RefineEncoding
  import opened RefineStream
  import opened RefineEncoder

  /**
   * From position k on, if the next coefficient that becomes nonzero is at j behind r zeros, at most 15: one symbol for
   * the zeros and the new coefficient, its sign with one for plus, and the bits of the coefficients passed over.
   */
  lemma NewFigure(band: Band, b: Block, k: nat, j: nat)
    requires IsBand(band) && k <= j <= band.se && Mag(band, b, j) == 1 && ZerosIn(band, b, k, j) <= 15
    requires forall i :: k <= i < j ==> Mag(band, b, i) != 1
    ensures HeadFrom(band, b, k)
         == [Symbol(false, 0, 16 * ZerosIn(band, b, k, j) + 1), Bits(if b[band.order[j]] >= 0 then 1 else 0, 1)]
            + Corrections(band, b, k, j) + HeadFrom(band, b, j + 1)
  {
    hide Mag, HeadFrom, Corrections, ZerosIn, TailStart;
    HeadUnroll(band, b, k);
    var r, head, c := ZerosIn(band, b, k, j), HeadFrom(band, b, j + 1), Corrections(band, b, k, j);
    assert NewTokens(band, b, j, r) + (c + head) == NewTokens(band, b, j, r) + c + head;
  }

  /** Behind the last new coefficient nothing but bits is left, for an end-of-band run. */
  lemma NoMoreFigure(band: Band, b: Block, k: nat)
    requires IsBand(band) && k <= band.se + 1 && forall i :: k <= i <= band.se ==> Mag(band, b, i) != 1
    ensures HeadFrom(band, b, k) == [] && TailStart(band, b, k) == k
  {
    hide Mag;
  }

  // ---------------------------------------------------------------------------------------------
  // Runs are as long as they can be
  // ---------------------------------------------------------------------------------------------

  /** No block can join a group that has no open band, is full, or leaves no room for the bits of another block. */
  ghost predicate IsOver(band: Band, g: seq<Block>)
    requires IsBand(band) && g != []
  {
    || (|g| == 1 && TailStart(band, g[0], band.ss) > band.se)
    || |g| == 0x7FFF
    || |OpenBits(band, g)| > 937
  }

  /** Why a group ends where the next one starts with block b. */
  ghost predicate MustEnd(band: Band, g: seq<Block>, b: Block)
    requires IsBand(band) && g != []
  {
    IsOver(band, g) || NextNew(band, b, band.ss) <= band.se
  }

  ghost predicate AllMustEnd(band: Band, groups: seq<seq<Block>>)
    requires IsBand(band)
  {
    && (forall i :: 0 <= i < |groups| ==> groups[i] != [])
    && forall i :: 0 < i < |groups| ==> MustEnd(band, groups[i - 1], groups[i][0])
  }

  /** The groups of a cut, with the open run as the last one. */
  function All(c: Cut): seq<seq<Block>> {
    Close(c).groups
  }

  /** A cut with all groups as long as they can be; if no run is open, nothing can join the last group. */
  ghost predicate Maximal(band: Band, c: Cut)
    requires IsBand(band)
  {
    && AllMustEnd(band, All(c))
    && (c.open == [] && c.groups != [] ==> IsOver(band, c.groups[|c.groups| - 1]))
  }

  lemma {:induction false} CutsMaximal(band: Band, blocks: seq<Block>)
    requires IsBand(band)
    ensures Maximal(band, Cuts(band, blocks))
    decreases |blocks|
  {
    hide Step, Cuts, IsOver, MustEnd;
    NoCuts(band);
    if blocks != [] {
      var init, b := blocks[..|blocks| - 1], blocks[|blocks| - 1];
      assert init + [b] == blocks;
      CutsMaximal(band, init);
      CutsAppend(band, init, b);
      StepMaximal(band, Cuts(band, init), b);
    }
  }

  lemma NewGroup(band: Band, groups: seq<seq<Block>>, b: Block)
    requires IsBand(band) && AllMustEnd(band, groups)
    requires groups != [] ==> MustEnd(band, groups[|groups| - 1], b)
    ensures AllMustEnd(band, groups + [[b]])
  {
    hide MustEnd;
  }

  lemma LongerGroup(band: Band, groups: seq<seq<Block>>, open: seq<Block>, b: Block)
    requires IsBand(band) && open != [] && AllMustEnd(band, groups + [open])
    ensures AllMustEnd(band, groups + [open + [b]])
  {
    hide MustEnd;
    var before, after := groups + [open], groups + [open + [b]];
    forall i | 0 <= i < |after|
      ensures after[i] != [] && before[i] != [] && after[i][0] == before[i][0]
      ensures i < |groups| ==> after[i] == before[i]
    {
      assert before[i] != [];
      if i < |groups| {
        assert before[i] == groups[i] == after[i];
      } else {
        assert before[i] == open && after[i] == open + [b];
      }
    }
    forall i | 0 < i < |after|
      ensures MustEnd(band, after[i - 1], after[i][0])
    {
      assert MustEnd(band, before[i - 1], before[i][0]);
    }
  }

  lemma StepMaximal(band: Band, c: Cut, b: Block)
    requires IsBand(band) && Maximal(band, c)
    ensures Maximal(band, Step(band, c, b))
  {
    hide TailStart, NextNew, OpenBits, AllMustEnd;
    var c1 := Before(band, c, b);
    if c1.open == [] {
      NewGroup(band, c1.groups, b);
      assert [] + [b] == [b];
    } else {
      LongerGroup(band, c1.groups, c1.open, b);
      if TailStart(band, b, band.ss) > band.se {
        NoRunWithout(band, b);
      }
    }
  }

  /** A block whose band is not left open has new coefficients. */
  lemma NoRunWithout(band: Band, b: Block)
    requires IsBand(band) && TailStart(band, b, band.ss) > band.se
    ensures NextNew(band, b, band.ss) <= band.se
  {
  }

  /**
   * In a scan no end-of-band run is ended early: between any two groups there is one of the four reasons, so a run
   * goes on over blocks without new coefficients as long as its count and its bits allow.
   */
  lemma RunsAreMaximal(band: Band, blocks: seq<Block>, i: nat)
    requires IsBand(band) && 0 < i < |GroupsOf(band, blocks)|
    ensures var groups := GroupsOf(band, blocks);
            groups[i - 1] != [] && groups[i] != [] && MustEnd(band, groups[i - 1], groups[i][0])
  {
    hide Cuts, MustEnd;
    CutsMaximal(band, blocks);
  }
}
