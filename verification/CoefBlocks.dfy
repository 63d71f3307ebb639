/** How the blocks of an MCU follow one another: which are real, and what a dummy block takes from the block before. */
module CoefBlocks {
  import opened Coefficients
  import opened McuStream

  /** A line of an MCU is real unless it lies below the last block row. */
  lemma RealLine(c: Comp, total: nat, across: nat, r: nat, y: nat)
    requires Sized(c, total, across) && r < total && y < c.v
    ensures (r < total - 1 || y < InLast(c.height, c.v)) <==> Pos(r, c.v, y) < c.height
    ensures y == 0 ==> Pos(r, c.v, y) < c.height
  {
    hide InLast;
    InLastIs(c.height, c.v, total);
    NextPos(r, c.v, y);
    if r < total - 1 {
      NextPos(r, c.v, 0);
      PosOrder(r + 1, total - 1, c.v);
    }
  }

  /** Only the last MCU of a row has dummy blocks at its right edge. */
  lemma RealColumns(c: Comp, total: nat, across: nat, col: nat, x: nat)
    requires Sized(c, total, across) && col < across && x < c.h
    ensures x < (if col < across - 1 then c.h else InLast(c.width, c.h)) <==> Pos(col, c.h, x) < c.width
    ensures x == 0 ==> Pos(col, c.h, x) < c.width
  {
    hide InLast;
    InLastIs(c.width, c.h, across);
    NextPos(col, c.h, x);
    if col < across - 1 {
      NextPos(col, c.h, 0);
      PosOrder(col + 1, across - 1, c.h);
    }
  }

  /** A dummy block has the DC value of the block before it, which may itself be a dummy. */
  lemma DummyFollows(c: Comp, row: nat, col: nat, x: nat)
    requires c.h > 0 && 0 < x < c.h && c.height > 0
    requires row < c.height ==> Pos(col, c.h, x) >= c.width
    ensures Cell(c, row, col, x) == Dummy(Cell(c, row, col, x - 1)[0])
  {
    NextPos(col, c.h, x);
    NextPos(col, c.h, x - 1);
  }

  /** The first block of a dummy line has the DC value of the last block of the line above. */
  lemma DummyLineFollows(c: Comp, row: nat, col: nat)
    requires c.h > 0 && 0 < c.height <= row
    ensures Cell(c, row, col, 0) == Dummy(Cell(c, row - 1, col, c.h - 1)[0])
  {
  }

  /** How many blocks of an MCU line are real. */
  function RealCount(c: Comp, alone: bool, total: nat, across: nat, row: nat, col: nat): (n: nat)
    requires c.h > 0
  {
    if alone then 1
    else if row >= c.height then 0
    else if col < across - 1 then c.h
    else InLast(c.width, c.h)
  }

  lemma CountReal(c: Comp, total: nat, across: nat, row: nat, col: nat, x: nat)
    requires Sized(c, total, across) && x < c.h && col < across
    ensures RealCount(c, false, total, across, row, col) <= c.h
    ensures x < RealCount(c, false, total, across, row, col) <==> row < c.height && Pos(col, c.h, x) < c.width
    ensures row < c.height ==> RealCount(c, false, total, across, row, col) > 0
    ensures Pos(col, c.h, x) >= 0 && c.height > 0
  {
    hide InLast;
    NextPos(0, c.v, 0);
    PosOrder(0, total - 1, c.v);
    InLastIs(c.width, c.h, across);
    RealColumns(c, total, across, col, x);
    NextPos(col, c.h, x);
    PosOrder(0, col, c.h);
  }

  /** Block x of an MCU line in an interleaved scan: taken from the grid, or made from the block before. */
  lemma InterleavedBlock(c: Comp, total: nat, across: nat, row: nat, col: nat, x: nat)
    requires Sized(c, total, across) && x < c.h && col < across
    ensures var count := RealCount(c, false, total, across, row, col);
            && (x < count ==> row < c.height && 0 <= Pos(col, c.h, x) < c.width
                              && Cell(c, row, col, x) == c.grid[row][Pos(col, c.h, x)])
            && (count <= x && x > 0 ==> Cell(c, row, col, x) == Dummy(Cell(c, row, col, x - 1)[0]))
            && (count <= x && x == 0 ==>
               row >= c.height && Cell(c, row, col, 0) == Dummy(Cell(c, row - 1, col, c.h - 1)[0]))
  {
    hide InLast, Cell, Dummy, Pos, RealCount;
    CountReal(c, total, across, row, col, x);
    if row < c.height && Pos(col, c.h, x) < c.width { CellIsReal(c, row, col, x); }
    else if x > 0 { DummyFollows(c, row, col, x); }
    else { DummyLineFollows(c, row, col); }
  }

  /** Block x of an MCU line, in any scan. */
  lemma LineBlock(c: Comp, alone: bool, total: nat, across: nat, row: nat, col: nat, x: nat)
    requires Sized(c, total, across) && x < Width(c, alone)
    requires if alone then row < c.height && col < c.width else col < across
    ensures RealCount(c, alone, total, across, row, col) <= Width(c, alone)
    ensures var line := McuLine(c, alone, row, col);
            var count := RealCount(c, alone, total, across, row, col);
            && (x < count ==> row < c.height && 0 <= Pos(col, Width(c, alone), x) < c.width
                              && line[x] == c.grid[row][Pos(col, Width(c, alone), x)])
            && (count <= x && x > 0 ==> line[x] == Dummy(line[x - 1][0]))
            && (count <= x && x == 0 ==>
               !alone && row >= c.height && line[0] == Dummy(Cell(c, row - 1, col, c.h - 1)[0]))
  {
    hide InLast, Cell, Dummy;
    if alone {
      assert Pos(col, 1, 0) == col;
    } else {
      hide Pos, RealCount;
      CountReal(c, total, across, row, col, x);
      InterleavedBlock(c, total, across, row, col, x);
    }
  }

  lemma CellIsReal(c: Comp, row: nat, col: nat, x: nat)
    requires row < c.height == |c.grid| && 0 <= Pos(col, c.h, x) < c.width == |c.grid[row]|
    ensures Cell(c, row, col, x) == c.grid[row][Pos(col, c.h, x)]
  {
  }

  /** The last block of the line above, seen from the line below it. */
  lemma LastOfLine(c: Comp, row: nat, col: nat, n: nat)
    requires n > 0 && c.h > 0
    ensures |McuComp(c, false, row, col, n)| >= c.h
    ensures McuComp(c, false, row, col, n)[|McuComp(c, false, row, col, n)| - 1] == Cell(c, row + n - 1, col, c.h - 1)
  {
    hide Cell;
  }

  lemma NextLine(c: Comp, alone: bool, row: nat, col: nat, n: nat)
    ensures McuComp(c, alone, row, col, n + 1) == McuComp(c, alone, row, col, n) + McuLine(c, alone, row + n, col)
    ensures McuComp(c, alone, row, col, 0) == []
  {
  }

  lemma NextPart(p: Picture, scan: seq<nat>, r: nat, y: nat, col: nat, n: nat)
    requires n < |scan| && Known(p, scan)
    ensures Mcu(p, scan, r, y, col, n + 1)
      == Mcu(p, scan, r, y, col, n) + McuPart(CompAt(p, scan, n), |scan| == 1, r, y, col)
    ensures Mcu(p, scan, r, y, col, 0) == []
  {
  }

  /** Blocks from the grid followed by dummies that repeat the DC value before them make up the line. */
  lemma LineIs(c: Comp, alone: bool, total: nat, across: nat, row: nat, col: nat, blocks: seq<Block>, count: nat,
      dc: Coef)
    requires Sized(c, total, across) && (if alone then row < c.height && col < c.width else col < across)
    requires |blocks| == Width(c, alone) && count == RealCount(c, alone, total, across, row, col) <= |blocks|
    requires row < c.height || count == 0
    requires forall x :: 0 <= x < count ==> 0 <= Pos(col, Width(c, alone), x) < c.width
    requires forall x :: 0 <= x < count ==> blocks[x] == c.grid[row][Pos(col, Width(c, alone), x)]
    requires forall x :: count <= x < |blocks| ==> blocks[x] == Dummy(dc)
    requires if count > 0 then blocks[count - 1][0] == dc else row > 0 && Cell(c, row - 1, col, c.h - 1)[0] == dc
    ensures blocks == McuLine(c, alone, row, col)
  {
    hide Cell, McuLine, Dummy, Pos, RealCount, InLast;
    var line := McuLine(c, alone, row, col);
    var n := 0;
    while n < |blocks|
      invariant 0 <= n <= |blocks| && forall x :: 0 <= x < n ==> blocks[x] == line[x]
    {
      LineBlock(c, alone, total, across, row, col, n);
      DummyDc(dc);
      assert n >= count && n > 0 ==> blocks[n - 1][0] == dc;
      n := n + 1;
    }
  }

  lemma DummyDc(dc: Coef)
    ensures Dummy(dc)[0] == dc && Zero()[0 := dc] == Dummy(dc)
  {
  }

  lemma {:induction false} LinesFit(c: Comp, alone: bool, row: nat, col: nat, m: nat, n: nat)
    requires m < n
    ensures |McuComp(c, alone, row, col, m)| + Width(c, alone) <= |McuComp(c, alone, row, col, n)|
  {
    hide McuLine;
    NextLine(c, alone, row, col, n - 1);
    if m < n - 1 { LinesFit(c, alone, row, col, m, n - 1); }
  }

  lemma {:induction false} PartsFit(p: Picture, scan: seq<nat>, r: nat, y: nat, col: nat, m: nat, n: nat)
    requires m < n <= |scan| && Known(p, scan)
    ensures |Mcu(p, scan, r, y, col, m)| + |McuPart(CompAt(p, scan, m), |scan| == 1, r, y, col)|
      <= |Mcu(p, scan, r, y, col, n)|
  {
    hide McuPart;
    NextPart(p, scan, r, y, col, n - 1);
    if m < n - 1 { PartsFit(p, scan, r, y, col, m, n - 1); }
  }

  lemma RowsThere(p: Picture, scan: seq<nat>, r: nat)
    requires ValidScan(p, scan)
    ensures ForStream(p, scan) && McuRows(p, scan, r) > 0 && PerRow(p, scan) > 0
  {
    forall i | 0 <= i < |scan| ensures p.comps[scan[i]].v > 0 { assert Sized(p.comps[scan[i]], p.total, p.across); }
    var c := p.comps[scan[0]];
    assert Sized(c, p.total, p.across);
    InLastIs(c.height, c.v, p.total);
    NextPos(0, c.h, 0);
    PosOrder(0, p.across - 1, c.h);
  }

  lemma PerRowIs(g: Geometry, p: Picture, scan: seq<nat>)
    requires ValidScan(p, scan) && Fits(g, p, scan)
    ensures g.perRow == PerRow(p, scan) && g.perRow > 0
  {
    RowsThere(p, scan, 0);
  }

  /** Where a line stands, and whether it is real. */
  lemma RowFacts(p: Picture, scan: seq<nat>, g: Geometry, ci: nat, r: nat, y: nat, yi: nat, col: nat)
    requires ValidScan(p, scan) && Fits(g, p, scan) && ForStream(p, scan)
    requires ci < |scan| && r < p.total && col < g.perRow && y < McuRows(p, scan, r)
    requires yi < Lines(p.comps[scan[ci]], |scan| == 1)
    ensures var c := p.comps[scan[ci]]; var row := StartRow(c, r, y) + yi;
            && Sized(c, p.total, p.across) && FitsComp(g, c, |scan| == 1, ci) && row == r * c.v + y + yi
            && (if |scan| == 1 then row < c.height && col < c.width else col < p.across)
            && ((r < p.total - 1 || y + yi < g.lastRow[ci]) <==> row < c.height)
            && (row >= c.height ==> yi > 0)
            && (g.perRow == if |scan| == 1 then c.width else p.across)
  {
    hide InLast;
    var c := p.comps[scan[ci]];
    assert Sized(c, p.total, p.across) && FitsComp(g, c, |scan| == 1, ci);
    InLastIs(c.height, c.v, p.total);
    RealLine(c, p.total, p.across, r, y + yi);
    NextPos(r, c.v, y + yi);
    NextPos(r, c.v, y);
  }

  /** How many blocks of a line are real, and where they come from. */
  lemma ColumnFacts(c: Comp, g: Geometry, ci: nat, alone: bool, total: nat, across: nat, row: nat, col: nat)
    requires Sized(c, total, across) && FitsComp(g, c, alone, ci) && g.perRow == if alone then c.width else across
    requires col < g.perRow && (alone ==> row < c.height)
    ensures var count := RealCount(c, alone, total, across, row, col);
            && count <= Width(c, alone) && (row < c.height ==> count > 0)
            && count == (if row >= c.height then 0 else if col < g.perRow - 1 then g.mcuWidth[ci] else g.lastCol[ci])
            && forall x :: 0 <= x < count ==> 0 <= Pos(col, Width(c, alone), x) < c.width
  {
    hide InLast;
    var count := RealCount(c, alone, total, across, row, col);
    if alone {
      assert Pos(col, 1, 0) == col;
    } else {
      hide Pos, RealCount;
      CountReal(c, total, across, row, col, 0);
      CountIs(c, total, across, row, col);
      forall x | 0 <= x < count ensures 0 <= Pos(col, Width(c, alone), x) < c.width {
        CountReal(c, total, across, row, col, x);
      }
    }
  }

  lemma CountIs(c: Comp, total: nat, across: nat, row: nat, col: nat)
    requires c.h > 0
    ensures RealCount(c, false, total, across, row, col) ==
            if row >= c.height then 0 else if col < across - 1 then c.h else InLast(c.width, c.h)
  {
  }
}
