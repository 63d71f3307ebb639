/** The coefficient controller for single-pass compression: one MCU buffer, dummy blocks made on the spot. */
module CoefSinglePass {
  import opened Coefficients
  import opened McuStream
  import opened CoefBlocks

  class CoefController {
    const p: Picture
    const scan: seq<nat>
    const g: Geometry
    const blkBuffer: array<Block>
    var iMcuRow: nat
    var mcuCtr: nat
    var vertOffset: nat
    var rowsPerImcuRow: nat
    var sent: seq<seq<Block>>  // MCUs the entropy coder has accepted

    ghost predicate Fixed() {
      ValidScan(p, scan) && Fits(g, p, scan) && blkBuffer.Length == MAX_BLOCKS_IN_MCU
    }

    /** The entropy coder has got exactly the MCUs before the current position. */
    ghost predicate Valid()
      reads this
    {
      && Fixed() && ForStream(p, scan) && iMcuRow <= p.total
      && rowsPerImcuRow == McuRows(p, scan, iMcuRow)
      && (iMcuRow < p.total ==> vertOffset < rowsPerImcuRow && mcuCtr < g.perRow)
      && (iMcuRow == p.total ==> vertOffset == 0 && mcuCtr == 0)
      && sent == Before(p, scan, iMcuRow, vertOffset, mcuCtr)
    }

    constructor (p: Picture, scan: seq<nat>, g: Geometry)
      requires ValidScan(p, scan) && Fits(g, p, scan)
      ensures Valid() && iMcuRow == 0 && this.p == p && this.scan == scan && fresh(blkBuffer)
    {
      this.p, this.scan, this.g := p, scan, g;
      blkBuffer := new Block[MAX_BLOCKS_IN_MCU](_ => Zero());
      iMcuRow, mcuCtr, vertOffset, rowsPerImcuRow, sent := 0, 0, 0, 0, [];
      new;
      StartImcuRow();
      BeforeSteps(p, scan, 0, 0, 0);
      RowsThere(p, scan, 0);
    }

    /** Resets the counters within an iMCU row. */
    method StartImcuRow()
      requires Fixed() && ForStream(p, scan)
      modifies this`rowsPerImcuRow, this`mcuCtr, this`vertOffset
      ensures rowsPerImcuRow == McuRows(p, scan, iMcuRow) && mcuCtr == 0 && vertOffset == 0
    {
      if |scan| > 1 {
        rowsPerImcuRow := 1;
      } else if iMcuRow + 1 < p.total {
        rowsPerImcuRow := p.comps[scan[0]].v;
      } else {
        assert FitsComp(g, p.comps[scan[0]], true, 0);
        rowsPerImcuRow := g.lastRow[0];
      }
      mcuCtr := 0;
      vertOffset := 0;
    }

    /** The transform of n blocks side by side; its results are the component's blocks. */
    method ForwardDct(c: Comp, row: nat, col: nat, width: nat, blkp: nat, n: nat)
      requires blkBuffer.Length == MAX_BLOCKS_IN_MCU && blkp + n <= MAX_BLOCKS_IN_MCU && row < |c.grid|
      requires forall x :: 0 <= x < n ==> 0 <= Pos(col, width, x) < |c.grid[row]|
      modifies blkBuffer
      ensures forall i :: 0 <= i < MAX_BLOCKS_IN_MCU && !(blkp <= i < blkp + n) ==> blkBuffer[i] == old(blkBuffer[i])
      ensures forall x :: 0 <= x < n ==> blkBuffer[blkp + x] == c.grid[row][Pos(col, width, x)]
    {
      hide Pos;
      var x := 0;
      while x < n
        invariant 0 <= x <= n
        invariant forall i :: 0 <= i < MAX_BLOCKS_IN_MCU && !(blkp <= i < blkp + x) ==>
          blkBuffer[i] == old(blkBuffer[i])
        invariant forall j :: 0 <= j < x ==> blkBuffer[blkp + j] == c.grid[row][Pos(col, width, j)]
      {
        blkBuffer[blkp + x] := c.grid[row][Pos(col, width, x)];
        x := x + 1;
      }
    }

    /** Zeroed blocks, each with the DC value of the block before it. */
    method FillDummies(blkp: nat, n: nat)
      requires blkBuffer.Length == MAX_BLOCKS_IN_MCU && 0 < blkp && blkp + n <= MAX_BLOCKS_IN_MCU
      modifies blkBuffer
      ensures forall i :: 0 <= i < MAX_BLOCKS_IN_MCU && !(blkp <= i < blkp + n) ==> blkBuffer[i] == old(blkBuffer[i])
      ensures forall i :: blkp <= i < blkp + n ==> blkBuffer[i] == Dummy(old(blkBuffer[blkp - 1])[0])
    {
      hide Dummy, Zero;
      ghost var dc := blkBuffer[blkp - 1][0];
      DummyDc(dc);
      var i := blkp;
      while i < blkp + n
        invariant blkp <= i <= blkp + n
        invariant forall j :: 0 <= j < MAX_BLOCKS_IN_MCU && !(blkp <= j < i) ==> blkBuffer[j] == old(blkBuffer[j])
        invariant forall j :: blkp <= j < i ==> blkBuffer[j] == Zero()
      {
        blkBuffer[i] := Zero();
        i := i + 1;
      }
      i := blkp;
      while i < blkp + n
        invariant blkp <= i <= blkp + n
        invariant forall j :: 0 <= j < MAX_BLOCKS_IN_MCU && !(blkp <= j < blkp + n) ==>
          blkBuffer[j] == old(blkBuffer[j])
        invariant forall j :: blkp <= j < i ==> blkBuffer[j] == Dummy(dc)
        invariant forall j :: i <= j < blkp + n ==> blkBuffer[j] == Zero()
      {
        blkBuffer[i] := blkBuffer[i][0 := blkBuffer[i - 1][0]];
        i := i + 1;
      }
    }

    /** count blocks from the transform, and dummies up to width. */
    method FillBlocks(c: Comp, row: nat, col: nat, width: nat, blkp: nat, count: nat)
      requires blkBuffer.Length == MAX_BLOCKS_IN_MCU && blkp + width <= MAX_BLOCKS_IN_MCU && count <= width
      requires count > 0 ==> row < |c.grid|
      requires count < width ==> blkp + count > 0
      requires forall x :: 0 <= x < count ==> 0 <= Pos(col, width, x) < |c.grid[row]|
      modifies blkBuffer
      ensures forall i :: 0 <= i < blkp ==> blkBuffer[i] == old(blkBuffer[i])
      ensures forall x :: 0 <= x < count ==> blkBuffer[blkp + x] == c.grid[row][Pos(col, width, x)]
      ensures forall i :: blkp + count <= i < blkp + width ==> blkBuffer[i] == Dummy(blkBuffer[blkp + count - 1][0])
    {
      hide Pos, Dummy;
      if count > 0 {
        ForwardDct(c, row, col, width, blkp, count);
      }
      if count < width {
        FillDummies(blkp + count, width - count);
      }
    }

    /** One line of one component: real blocks from the transform, dummy blocks after them. */
    method FillLine(ci: nat, yoffset: nat, yindex: nat, col: nat, blkp: nat) returns (next: nat)
      requires Fixed() && ci < |scan| && iMcuRow < p.total && col < g.perRow && yoffset < McuRows(p, scan, iMcuRow)
      requires yindex < Lines(p.comps[scan[ci]], |scan| == 1)
        && blkp + Width(p.comps[scan[ci]], |scan| == 1) <= MAX_BLOCKS_IN_MCU
      requires |scan| != 1 && yindex > 0 ==>
                 var c := p.comps[scan[ci]];
                 blkp > 0 && blkBuffer[blkp - 1] == Cell(c, StartRow(c, iMcuRow, yoffset) + yindex - 1, col, c.h - 1)
      modifies blkBuffer
      ensures next == blkp + Width(p.comps[scan[ci]], |scan| == 1)
      ensures blkBuffer[..blkp] == old(blkBuffer[..blkp])
      ensures blkBuffer[blkp..next] ==
              McuLine(p.comps[scan[ci]], |scan| == 1, StartRow(p.comps[scan[ci]], iMcuRow, yoffset) + yindex, col)
    {
      hide Cell, McuLine, Dummy, Zero, Pos, InLast, Real, RealCount, McuRows, Blocks, StartRow;
      var c, alone := p.comps[scan[ci]], |scan| == 1;
      ghost var row := StartRow(c, iMcuRow, yoffset) + yindex;
      RowFacts(p, scan, g, ci, iMcuRow, yoffset, yindex, col);
      ColumnFacts(c, g, ci, alone, p.total, p.across, row, col);
      var blockcnt := if col < g.perRow - 1 then g.mcuWidth[ci] else g.lastCol[ci];
      if !(iMcuRow < p.total - 1 || yoffset + yindex < g.lastRow[ci]) {
        blockcnt := 0;
      }
      FillBlocks(c, iMcuRow * c.v + yoffset + yindex, col, g.mcuWidth[ci], blkp, blockcnt);
      next := blkp + g.mcuWidth[ci];
      Whole(c, alone, row, col, blkp, blockcnt);
    }

    lemma Whole(c: Comp, alone: bool, row: nat, col: nat, blkp: nat, count: nat)
      requires Sized(c, p.total, p.across) && (if alone then row < c.height && col < c.width else col < p.across)
      requires blkBuffer.Length == MAX_BLOCKS_IN_MCU && blkp + Width(c, alone) <= MAX_BLOCKS_IN_MCU
      requires count == RealCount(c, alone, p.total, p.across, row, col) <= Width(c, alone)
        && (row < c.height || count == 0)
      requires forall x :: 0 <= x < count ==> 0 <= Pos(col, Width(c, alone), x) < c.width
      requires forall x :: 0 <= x < count ==> blkBuffer[blkp + x] == c.grid[row][Pos(col, Width(c, alone), x)]
      requires count < Width(c, alone) ==> blkp + count > 0
      requires forall i :: blkp + count <= i < blkp + Width(c, alone) ==>
                 blkBuffer[i] == Dummy(blkBuffer[blkp + count - 1][0])
      requires count == 0 ==> blkp > 0 && row > 0 && blkBuffer[blkp - 1] == Cell(c, row - 1, col, c.h - 1)
      ensures blkBuffer[blkp..blkp + Width(c, alone)] == McuLine(c, alone, row, col)
    {
      hide Cell, McuLine, Dummy, Pos, RealCount, Sized;
      var blocks := blkBuffer[blkp..blkp + Width(c, alone)];
      var dc := blkBuffer[blkp + count - 1][0];
      LineIs(c, alone, p.total, p.across, row, col, blocks, count, dc);
    }

    /** The lines of one component. */
    method FillComp(ci: nat, yoffset: nat, col: nat, blkp: nat) returns (next: nat)
      requires Fixed() && ci < |scan| && iMcuRow < p.total && col < g.perRow && yoffset < McuRows(p, scan, iMcuRow)
      requires blkp + |McuPart(p.comps[scan[ci]], |scan| == 1, iMcuRow, yoffset, col)| <= MAX_BLOCKS_IN_MCU
      modifies blkBuffer
      ensures next == blkp + |McuPart(p.comps[scan[ci]], |scan| == 1, iMcuRow, yoffset, col)|
      ensures blkBuffer[..next]
        == old(blkBuffer[..blkp]) + McuPart(p.comps[scan[ci]], |scan| == 1, iMcuRow, yoffset, col)
    {
      hide Cell, McuLine, McuComp, McuRows, StartRow, Fits;
      ghost var c, alone := p.comps[scan[ci]], |scan| == 1;
      ghost var row := StartRow(c, iMcuRow, yoffset);
      HeightIs(ci);
      next := blkp;
      var yindex := 0;
      NextLine(c, alone, row, col, 0);
      while yindex < g.mcuHeight[ci]
        invariant 0 <= yindex <= g.mcuHeight[ci] && next == blkp + |McuComp(c, alone, row, col, yindex)|
        invariant next <= MAX_BLOCKS_IN_MCU
        invariant blkBuffer[..next] == old(blkBuffer[..blkp]) + McuComp(c, alone, row, col, yindex)
      {
        LinesFit(c, alone, row, col, yindex, Lines(c, alone));
        NextLine(c, alone, row, col, yindex);
        if !alone && yindex > 0 {
          LastOfLine(c, row, col, yindex);
          assert blkBuffer[next - 1] == blkBuffer[..next][next - 1];
        }
        ghost var before := blkBuffer[..next];
        var after := FillLine(ci, yoffset, yindex, col, next);
        assert blkBuffer[..after] == before + blkBuffer[next..after];
        next := after;
        yindex := yindex + 1;
      }
    }

    lemma HeightIs(ci: nat)
      requires Fixed() && ci < |scan|
      ensures ci < |g.mcuHeight| && g.mcuHeight[ci] == Lines(p.comps[scan[ci]], |scan| == 1) && p.comps[scan[ci]].h > 0
    {
      assert FitsComp(g, p.comps[scan[ci]], |scan| == 1, ci);
    }

    /** The MCU at the given position, dummy blocks included. */
    method BuildMcu(yoffset: nat, col: nat)
      requires Fixed() && iMcuRow < p.total && col < g.perRow && yoffset < McuRows(p, scan, iMcuRow)
      modifies blkBuffer
      ensures g.blocks <= MAX_BLOCKS_IN_MCU && blkBuffer[..g.blocks] == Mcu(p, scan, iMcuRow, yoffset, col, |scan|)
    {
      hide McuPart, Mcu, McuRows, Blocks;
      McuLength(p, scan, iMcuRow, yoffset, col, |scan|);
      NextPart(p, scan, iMcuRow, yoffset, col, 0);
      var blkp: nat := 0;
      var ci := 0;
      while ci < |scan|
        invariant 0 <= ci <= |scan| && blkp == |Mcu(p, scan, iMcuRow, yoffset, col, ci)| <= MAX_BLOCKS_IN_MCU
        invariant blkBuffer[..blkp] == Mcu(p, scan, iMcuRow, yoffset, col, ci)
      {
        PartsFit(p, scan, iMcuRow, yoffset, col, ci, |scan|);
        NextPart(p, scan, iMcuRow, yoffset, col, ci);
        blkp := FillComp(ci, yoffset, col, blkp);
        ci := ci + 1;
      }
    }

    /**
     * One iMCU row.  The entropy coder takes MCUs until its patience runs out (never, if it is negative); then the
     * position is kept, and the next call goes on with the MCU that was refused.
     */
    method CompressData(patience: int) returns (done: bool)
      requires Valid() && iMcuRow < p.total
      modifies this, blkBuffer
      ensures Valid() && old(sent) <= sent
      ensures iMcuRow == old(iMcuRow) + if done then 1 else 0
      ensures done ==> vertOffset == 0 && mcuCtr == 0
      ensures !done ==> patience >= 0 && |sent| == |old(sent)| + patience
      ensures patience != 0 ==> |sent| > |old(sent)|
    {
      hide Fits, ValidScan, Mcu, McuRows, Before, Blocks;
      PerRowIs(g, p, scan);
      var left := patience;
      var yoffset: nat, col: nat := vertOffset, mcuCtr;
      while yoffset < rowsPerImcuRow
        invariant Fixed() && ForStream(p, scan) && iMcuRow == old(iMcuRow) && rowsPerImcuRow == old(rowsPerImcuRow)
        invariant yoffset <= rowsPerImcuRow && (if yoffset < rowsPerImcuRow then col < g.perRow else col == 0)
        invariant old(sent) <= sent && sent == Before(p, scan, iMcuRow, yoffset, col)
        invariant patience >= 0 ==> left >= 0 && |sent| == |old(sent)| + patience - left
        invariant patience < 0 ==> left < 0
        invariant |sent| == |old(sent)| ==> left == patience && yoffset == old(vertOffset) && col == old(mcuCtr)
      {
        while col < g.perRow
          invariant Fixed() && ForStream(p, scan) && iMcuRow == old(iMcuRow) && rowsPerImcuRow == old(rowsPerImcuRow)
          invariant col <= g.perRow
          invariant old(sent) <= sent && sent == Before(p, scan, iMcuRow, yoffset, col)
          invariant patience >= 0 ==> left >= 0 && |sent| == |old(sent)| + patience - left
          invariant patience < 0 ==> left < 0
          invariant |sent| == |old(sent)| ==> left == patience && yoffset == old(vertOffset) && col == old(mcuCtr)
        {
          BuildMcu(yoffset, col);
          if left == 0 {
            vertOffset, mcuCtr := yoffset, col;
            return false;
          }
          left := left - 1;
          BeforeSteps(p, scan, iMcuRow, yoffset, col);
          sent := sent + [blkBuffer[..g.blocks]];
          col := col + 1;
        }
        BeforeSteps(p, scan, iMcuRow, yoffset, 0);
        col := 0;
        yoffset := yoffset + 1;
      }
      BeforeSteps(p, scan, iMcuRow, 0, 0);
      iMcuRow := iMcuRow + 1;
      StartImcuRow();
      RowsThere(p, scan, iMcuRow);
      return true;
    }
  }
}
