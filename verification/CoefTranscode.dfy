/**
 * The coefficient controller for transcoding: it only reads the coefficient arrays, and points at dummy blocks of its
 * own where an MCU reaches over the edges.
 */
module CoefTranscode {
  import opened Coefficients
  import opened McuStream
  import opened CoefBlocks

  /** A block pointer: into a component's coefficient array, or to a block of the dummy workspace. */
  datatype Ref = Stored(comp: nat, row: nat, pos: nat) | Slot(i: nat)

  class CoefController {
    const p: Picture
    const scan: seq<nat>
    const g: Geometry
    const mcuBuffer: array<Ref>
    const dummyBuffer: array<Block>
    var iMcuRow: nat
    var mcuCtr: nat
    var vertOffset: nat
    var rowsPerImcuRow: nat
    var sent: seq<seq<Block>>  // MCUs the entropy coder has accepted

    ghost predicate Fixed() {
      && ValidScan(p, scan) && Fits(g, p, scan)
      && dummyBuffer.Length == MAX_BLOCKS_IN_MCU && mcuBuffer.Length == MAX_BLOCKS_IN_MCU
    }

    /** The AC coefficients of the dummy blocks are zero once and for all. */
    ghost predicate Blank()
      reads dummyBuffer
    {
      forall i :: 0 <= i < dummyBuffer.Length ==> IsDummy(dummyBuffer[i])
    }

    /** The entropy coder has got exactly the MCUs before the current position. */
    ghost predicate Valid()
      reads this, dummyBuffer
    {
      && Fixed() && ForStream(p, scan) && iMcuRow <= p.total && Blank()
      && rowsPerImcuRow == McuRows(p, scan, iMcuRow)
      && (iMcuRow < p.total ==> vertOffset < rowsPerImcuRow && mcuCtr < g.perRow)
      && (iMcuRow == p.total ==> vertOffset == 0 && mcuCtr == 0)
      && sent == Before(p, scan, iMcuRow, vertOffset, mcuCtr)
    }

    constructor (p: Picture, scan: seq<nat>, g: Geometry)
      requires ValidScan(p, scan) && Fits(g, p, scan)
      ensures Valid() && iMcuRow == 0 && this.p == p && this.scan == scan && fresh(mcuBuffer) && fresh(dummyBuffer)
    {
      this.p, this.scan, this.g := p, scan, g;
      mcuBuffer := new Ref[MAX_BLOCKS_IN_MCU](i => Slot(0));
      dummyBuffer := new Block[MAX_BLOCKS_IN_MCU](i => Zero());
      iMcuRow, mcuCtr, vertOffset, rowsPerImcuRow, sent := 0, 0, 0, 0, [];
      new;
      StartImcuRow();
      BeforeSteps(p, scan, 0, 0, 0);
      RowsThere(p, scan, 0);
    }

    /** Resets the counters within an iMCU row. */
    method StartImcuRow()
      requires Fixed() && ForStream(p, scan)
      modifies this`rowsPerImcuRow, this`mcuCtr, this`vertOffset
      ensures rowsPerImcuRow == McuRows(p, scan, iMcuRow) && mcuCtr == 0 && vertOffset == 0
    {
      if |scan| > 1 {
        rowsPerImcuRow := 1;
      } else if iMcuRow + 1 < p.total {
        rowsPerImcuRow := p.comps[scan[0]].v;
      } else {
        assert FitsComp(g, p.comps[scan[0]], true, 0);
        rowsPerImcuRow := g.lastRow[0];
      }
      mcuCtr := 0;
      vertOffset := 0;
    }

    /** What a pointer of the MCU buffer leads to. */
    function Shown(i: nat): Block
      requires i < mcuBuffer.Length
      reads mcuBuffer, dummyBuffer
    {
      match mcuBuffer[i]
      case Stored(comp, row, pos) => if comp < |p.comps| then Real(p.comps[comp], row, pos) else Zero()
      case Slot(k) => if k < dummyBuffer.Length then dummyBuffer[k] else Zero()
    }

    /** The first n pointers; each dummy block is used in one place only. */
    ghost predicate Own(n: nat)
      reads mcuBuffer
    {
      n <= mcuBuffer.Length && forall i :: 0 <= i < n && mcuBuffer[i].Slot? ==> mcuBuffer[i].i == i
    }

    function ShownUpTo(n: nat): (blocks: seq<Block>)
      requires n <= mcuBuffer.Length
      reads mcuBuffer, dummyBuffer
      ensures |blocks| == n
    {
      seq(n, i requires 0 <= i < n && n <= mcuBuffer.Length reads mcuBuffer, dummyBuffer => Shown(i))
    }

    /** Pointers to n real blocks side by side. */
    method FillPointers(comp: nat, row: nat, col: nat, width: nat, blkn: nat, n: nat)
      requires Fixed() && Own(blkn) && comp < |p.comps| && blkn + n <= MAX_BLOCKS_IN_MCU
      requires forall x :: 0 <= x < n ==> 0 <= Pos(col, width, x)
      modifies mcuBuffer
      ensures Own(blkn + n)
      ensures forall i :: 0 <= i < blkn ==> Shown(i) == old(Shown(i))
      ensures forall x :: 0 <= x < n ==> Shown(blkn + x) == Real(p.comps[comp], row, Pos(col, width, x))
    {
      hide Pos, Real, Fits;
      var x := 0;
      while x < n
        invariant 0 <= x <= n && Own(blkn + x)
        invariant forall i :: 0 <= i < blkn ==> Shown(i) == old(Shown(i))
        invariant forall j :: 0 <= j < x ==> Shown(blkn + j) == Real(p.comps[comp], row, Pos(col, width, j))
      {
        mcuBuffer[blkn + x] := Stored(comp, row, Pos(col, width, x));
        x := x + 1;
      }
    }

    /** The dummy block for place n gets the DC value of the block before. */
    method MakeDummy(n: nat)
      requires Fixed() && Blank() && Own(n) && 0 < n < MAX_BLOCKS_IN_MCU
      modifies mcuBuffer, dummyBuffer
      ensures Blank() && Own(n + 1)
      ensures forall i :: 0 <= i < n ==> Shown(i) == old(Shown(i))
      ensures Shown(n) == Dummy(old(Shown(n - 1))[0])
    {
      hide Real, Fits, Dummy;
      ghost var dc := Shown(n - 1)[0];
      dummyBuffer[n] := dummyBuffer[n][0 := Shown(n - 1)[0]];
      mcuBuffer[n] := Slot(n);
      DummyIs(dummyBuffer[n]);
    }

    /** n dummy blocks that repeat the DC value before them. */
    method FillDummies(blkn: nat, n: nat)
      requires Fixed() && Blank() && Own(blkn) && 0 < blkn && blkn + n <= MAX_BLOCKS_IN_MCU
      modifies mcuBuffer, dummyBuffer
      ensures Blank() && Own(blkn + n)
      ensures forall i :: 0 <= i < blkn ==> Shown(i) == old(Shown(i))
      ensures forall i :: blkn <= i < blkn + n ==> Shown(i) == Dummy(old(Shown(blkn - 1))[0])
    {
      hide Dummy, Shown, Fits, IsDummy;
      ghost var dc := Shown(blkn - 1)[0];
      DummyDc(dc);
      var i := blkn;
      while i < blkn + n
        invariant blkn <= i <= blkn + n && Blank() && Own(i)
        invariant forall j :: 0 <= j < blkn ==> Shown(j) == old(Shown(j))
        invariant forall j :: blkn <= j < i ==> Shown(j) == Dummy(dc)
      {
        MakeDummy(i);
        i := i + 1;
      }
    }

    /** One line of one component: pointers to real blocks, and to dummy blocks after them. */
    method FillLine(ci: nat, yoffset: nat, yindex: nat, col: nat, blkn: nat) returns (next: nat)
      requires Fixed() && Blank() && Own(blkn)
      requires ci < |scan| && iMcuRow < p.total && col < g.perRow && yoffset < McuRows(p, scan, iMcuRow)
      requires yindex < Lines(p.comps[scan[ci]], |scan| == 1)
        && blkn + Width(p.comps[scan[ci]], |scan| == 1) <= MAX_BLOCKS_IN_MCU
      requires |scan| != 1 && yindex > 0 ==>
                 var c := p.comps[scan[ci]];
                 blkn > 0 && Shown(blkn - 1) == Cell(c, StartRow(c, iMcuRow, yoffset) + yindex - 1, col, c.h - 1)
      modifies mcuBuffer, dummyBuffer
      ensures Blank() && next == blkn + Width(p.comps[scan[ci]], |scan| == 1) && Own(next)
      ensures ShownUpTo(next) == old(ShownUpTo(blkn)) +
              McuLine(p.comps[scan[ci]], |scan| == 1, StartRow(p.comps[scan[ci]], iMcuRow, yoffset) + yindex, col)
    {
      hide Cell, McuLine, Dummy, Zero, Pos, InLast, Real, RealCount, McuRows, Blocks, StartRow, IsDummy, Shown, Blank,
        Own;
      var c, alone := p.comps[scan[ci]], |scan| == 1;
      ghost var row, before := StartRow(c, iMcuRow, yoffset) + yindex, ShownUpTo(blkn);
      RowFacts(p, scan, g, ci, iMcuRow, yoffset, yindex, col);
      ColumnFacts(c, g, ci, alone, p.total, p.across, row, col);
      var blockcnt: nat := if col < g.perRow - 1 then g.mcuWidth[ci] else g.lastCol[ci];
      if !(iMcuRow < p.total - 1 || yoffset + yindex < g.lastRow[ci]) {
        blockcnt := 0;
      }
      FillPointers(scan[ci], iMcuRow * c.v + yoffset + yindex, col, g.mcuWidth[ci], blkn, blockcnt);
      if blockcnt < g.mcuWidth[ci] {
        FillDummies(blkn + blockcnt, g.mcuWidth[ci] - blockcnt);
      }
      next := blkn + g.mcuWidth[ci];
      assert ShownUpTo(blkn) == before;
      ShownSplits(blkn, next);
      Whole(c, alone, row, col, blkn, blockcnt);
    }

    lemma ShownSplits(m: nat, n: nat)
      requires m <= n <= mcuBuffer.Length
      ensures ShownUpTo(n) == ShownUpTo(m) + ShownUpTo(n)[m..]
    {
      hide Shown;
    }

    lemma Whole(c: Comp, alone: bool, row: nat, col: nat, blkn: nat, count: nat)
      requires Sized(c, p.total, p.across) && (if alone then row < c.height && col < c.width else col < p.across)
      requires Fixed() && blkn + Width(c, alone) <= MAX_BLOCKS_IN_MCU
      requires count == RealCount(c, alone, p.total, p.across, row, col) <= Width(c, alone)
        && (row < c.height || count == 0)
      requires forall x :: 0 <= x < count ==> 0 <= Pos(col, Width(c, alone), x) < c.width
      requires forall x :: 0 <= x < count ==> Shown(blkn + x) == Real(c, row, Pos(col, Width(c, alone), x))
      requires count < Width(c, alone) ==> blkn + count > 0
      requires forall i :: blkn + count <= i < blkn + Width(c, alone) ==> Shown(i) == Dummy(Shown(blkn + count - 1)[0])
      requires count == 0 ==> blkn > 0 && row > 0 && Shown(blkn - 1) == Cell(c, row - 1, col, c.h - 1)
      ensures ShownUpTo(blkn + Width(c, alone))[blkn..] == McuLine(c, alone, row, col)
    {
      hide Cell, McuLine, Dummy, Pos, RealCount, Shown, Fits;
      var blocks := ShownUpTo(blkn + Width(c, alone))[blkn..];
      var dc := Shown(blkn + count - 1)[0];
      LineIs(c, alone, p.total, p.across, row, col, blocks, count, dc);
    }

    /** The lines of one component. */
    method FillComp(ci: nat, yoffset: nat, col: nat, blkn: nat) returns (next: nat)
      requires Fixed() && Blank() && Own(blkn)
      requires ci < |scan| && iMcuRow < p.total && col < g.perRow && yoffset < McuRows(p, scan, iMcuRow)
      requires blkn + |McuPart(p.comps[scan[ci]], |scan| == 1, iMcuRow, yoffset, col)| <= MAX_BLOCKS_IN_MCU
      modifies mcuBuffer, dummyBuffer
      ensures Blank() && next == blkn + |McuPart(p.comps[scan[ci]], |scan| == 1, iMcuRow, yoffset, col)| && Own(next)
      ensures ShownUpTo(next) == old(ShownUpTo(blkn)) + McuPart(p.comps[scan[ci]], |scan| == 1, iMcuRow, yoffset, col)
    {
      hide Cell, McuLine, McuComp, McuRows, StartRow, Fits, Shown, IsDummy, Blank, Own;
      ghost var c, alone := p.comps[scan[ci]], |scan| == 1;
      ghost var row := StartRow(c, iMcuRow, yoffset);
      HeightIs(ci);
      next := blkn;
      var yindex := 0;
      NextLine(c, alone, row, col, 0);
      while yindex < g.mcuHeight[ci]
        invariant 0 <= yindex <= g.mcuHeight[ci] && next == blkn + |McuComp(c, alone, row, col, yindex)|
        invariant next <= MAX_BLOCKS_IN_MCU && Blank() && Own(next)
        invariant ShownUpTo(next) == old(ShownUpTo(blkn)) + McuComp(c, alone, row, col, yindex)
      {
        LinesFit(c, alone, row, col, yindex, Lines(c, alone));
        NextLine(c, alone, row, col, yindex);
        if !alone && yindex > 0 {
          LastOfLine(c, row, col, yindex);
          assert Shown(next - 1) == ShownUpTo(next)[next - 1];
        }
        next := FillLine(ci, yoffset, yindex, col, next);
        yindex := yindex + 1;
      }
    }

    lemma HeightIs(ci: nat)
      requires Fixed() && ci < |scan|
      ensures ci < |g.mcuHeight| && g.mcuHeight[ci] == Lines(p.comps[scan[ci]], |scan| == 1) && p.comps[scan[ci]].h > 0
    {
      assert FitsComp(g, p.comps[scan[ci]], |scan| == 1, ci);
    }

    /** Pointers to the blocks of the MCU at the given position, dummy blocks included. */
    method BuildMcu(yoffset: nat, col: nat)
      requires Fixed() && Blank() && iMcuRow < p.total && col < g.perRow && yoffset < McuRows(p, scan, iMcuRow)
      modifies mcuBuffer, dummyBuffer
      ensures Blank() && g.blocks <= MAX_BLOCKS_IN_MCU
      ensures ShownUpTo(g.blocks) == Mcu(p, scan, iMcuRow, yoffset, col, |scan|)
    {
      hide McuPart, Mcu, McuRows, Blocks, Shown, IsDummy;
      McuLength(p, scan, iMcuRow, yoffset, col, |scan|);
      NextPart(p, scan, iMcuRow, yoffset, col, 0);
      var blkn: nat := 0;
      var ci := 0;
      while ci < |scan|
        invariant 0 <= ci <= |scan| && blkn == |Mcu(p, scan, iMcuRow, yoffset, col, ci)| <= MAX_BLOCKS_IN_MCU
        invariant Blank() && Own(blkn) && ShownUpTo(blkn) == Mcu(p, scan, iMcuRow, yoffset, col, ci)
      {
        PartsFit(p, scan, iMcuRow, yoffset, col, ci, |scan|);
        NextPart(p, scan, iMcuRow, yoffset, col, ci);
        blkn := FillComp(ci, yoffset, col, blkn);
        ci := ci + 1;
      }
    }

    /** One iMCU row, as in compression; only the source of the blocks differs. */
    method CompressOutput(patience: int) returns (done: bool)
      requires Valid() && iMcuRow < p.total
      modifies this, mcuBuffer, dummyBuffer
      ensures Valid() && old(sent) <= sent
      ensures iMcuRow == old(iMcuRow) + if done then 1 else 0
      ensures done ==> vertOffset == 0 && mcuCtr == 0
      ensures !done ==> patience >= 0 && |sent| == |old(sent)| + patience
      ensures patience != 0 ==> |sent| > |old(sent)|
    {
      hide Fits, ValidScan, Mcu, McuRows, Before, Blocks, Shown, IsDummy;
      PerRowIs(g, p, scan);
      var left := patience;
      var yoffset: nat, col: nat := vertOffset, mcuCtr;
      while yoffset < rowsPerImcuRow
        invariant Fixed() && Blank() && ForStream(p, scan) && iMcuRow == old(iMcuRow)
          && rowsPerImcuRow == old(rowsPerImcuRow)
        invariant yoffset <= rowsPerImcuRow && (if yoffset < rowsPerImcuRow then col < g.perRow else col == 0)
        invariant old(sent) <= sent && sent == Before(p, scan, iMcuRow, yoffset, col)
        invariant patience >= 0 ==> left >= 0 && |sent| == |old(sent)| + patience - left
        invariant patience < 0 ==> left < 0
        invariant |sent| == |old(sent)| ==> left == patience && yoffset == old(vertOffset) && col == old(mcuCtr)
      {
        while col < g.perRow
          invariant Fixed() && Blank() && ForStream(p, scan) && iMcuRow == old(iMcuRow)
            && rowsPerImcuRow == old(rowsPerImcuRow)
          invariant col <= g.perRow
          invariant old(sent) <= sent && sent == Before(p, scan, iMcuRow, yoffset, col)
          invariant patience >= 0 ==> left >= 0 && |sent| == |old(sent)| + patience - left
          invariant patience < 0 ==> left < 0
          invariant |sent| == |old(sent)| ==> left == patience && yoffset == old(vertOffset) && col == old(mcuCtr)
        {
          BuildMcu(yoffset, col);
          if left == 0 {
            vertOffset, mcuCtr := yoffset, col;
            return false;
          }
          left := left - 1;
          BeforeSteps(p, scan, iMcuRow, yoffset, col);
          sent := sent + [ShownUpTo(g.blocks)];
          col := col + 1;
        }
        BeforeSteps(p, scan, iMcuRow, yoffset, 0);
        col := 0;
        yoffset := yoffset + 1;
      }
      BeforeSteps(p, scan, iMcuRow, 0, 0);
      iMcuRow := iMcuRow + 1;
      StartImcuRow();
      RowsThere(p, scan, iMcuRow);
      return true;
    }
  }
}
