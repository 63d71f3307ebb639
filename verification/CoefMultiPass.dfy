/**
 * The coefficient controller for multi-pass compression: the first pass stores every component, dummy blocks included,
 * in arrays padded to whole iMCUs; every pass takes its MCUs from there.
 */
module CoefMultiPass {
  import opened Coefficients
  import opened McuStream
  import opened CoefBlocks

  /** Block row row of a padded array holds what any scan may ask for. */
  ghost predicate RowOk(s: seq<Block>, c: Comp, across: nat, row: nat) {
    && (forall col: nat, x: nat :: col < across && x < c.h && 0 <= Pos(col, c.h, x) < |s| ==>
          s[Pos(col, c.h, x)] == Cell(c, row, col, x))
    && (row < c.height ==> forall pos :: 0 <= pos < c.width && pos < |s| ==> s[pos] == Real(c, row, pos))
  }

  function RowOf(a: array2<Block>, row: nat): (s: seq<Block>)
    requires row < a.Length0
    reads a
    ensures |s| == a.Length1 && forall q :: 0 <= q < a.Length1 ==> s[q] == a[row, q]
  {
    seq(a.Length1, q requires 0 <= q < a.Length1 && row < a.Length0 reads a => a[row, q])
  }

  ghost predicate RowFilled(a: array2<Block>, c: Comp, across: nat, row: nat)
    reads a
  {
    row < a.Length0 && RowOk(RowOf(a, row), c, across, row)
  }

  ghost predicate Shaped(a: array2<Block>, c: Comp, total: nat, across: nat) {
    Sized(c, total, across) && a.Length0 == Pos(total, c.v, 0) && a.Length1 == Pos(across, c.h, 0)
  }

  /** The number of dummy blocks at the right edge completes the last iMCU. */
  method CountDummies(c: Comp, ghost total: nat, ghost across: nat) returns (ndummy: nat)
    requires Sized(c, total, across)
    ensures c.width + ndummy == Pos(across, c.h, 0)
  {
    ndummy := c.width % c.h;
    InLastIs(c.width, c.h, across);
    NextPos(across - 1, c.h, 0);
    if ndummy > 0 {
      ndummy := c.h - ndummy;
    }
  }

  /** A real row: blocks from the transform, then dummy blocks with the DC value of the last one. */
  method FillRealRow(a: array2<Block>, c: Comp, ghost total: nat, ghost across: nat, row: nat, ndummy: nat)
    requires Shaped(a, c, total, across) && row < c.height && row < a.Length0 && c.width + ndummy == a.Length1
    modifies a
    ensures RowFilled(a, c, across, row)
    ensures forall r :: 0 <= r < a.Length0 && r != row ==> RowOf(a, r) == old(RowOf(a, r))
  {
    hide Cell, Dummy, Pos;
    var pos := 0;
    while pos < c.width
      invariant 0 <= pos <= c.width
      invariant forall q :: 0 <= q < pos ==> a[row, q] == c.grid[row][q]
      invariant forall r, q :: 0 <= r < a.Length0 && 0 <= q < a.Length1 && r != row ==> a[r, q] == old(a[r, q])
    {
      a[row, pos] := c.grid[row][pos];
      pos := pos + 1;
    }
    WidthPositive(c, total, across);
    var lastDc := a[row, c.width - 1][0];
    DummyDc(lastDc);
    var bi := 0;
    while bi < ndummy
      invariant 0 <= bi <= ndummy
      invariant forall q :: 0 <= q < c.width ==> a[row, q] == c.grid[row][q]
      invariant forall q :: c.width <= q < c.width + bi ==> a[row, q] == Dummy(lastDc)
      invariant forall r, q :: 0 <= r < a.Length0 && 0 <= q < a.Length1 && r != row ==> a[r, q] == old(a[r, q])
    {
      a[row, c.width + bi] := Zero()[0 := lastDc];
      bi := bi + 1;
    }
    forall col: nat, x: nat | col < across && x < c.h && 0 <= Pos(col, c.h, x) < a.Length1
      ensures a[row, Pos(col, c.h, x)] == Cell(c, row, col, x)
    {
      RealCell(c, row, col, x);
    }
  }

  lemma WidthPositive(c: Comp, total: nat, across: nat)
    requires Sized(c, total, across)
    ensures c.width > 0 && c.height > 0
  {
    NextPos(0, c.h, 0);
    PosOrder(0, across - 1, c.h);
    NextPos(0, c.v, 0);
    PosOrder(0, total - 1, c.v);
  }

  lemma RealCell(c: Comp, row: nat, col: nat, x: nat)
    requires row < c.height == |c.grid| && |c.grid[row]| == c.width > 0 && Pos(col, c.h, x) >= 0
    ensures Cell(c, row, col, x) ==
            if Pos(col, c.h, x) < c.width then c.grid[row][Pos(col, c.h, x)] else Dummy(c.grid[row][c.width - 1][0])
  {
  }

  lemma InRange(h: nat, across: nat, col: nat, x: nat)
    requires col < across && x < h
    ensures 0 <= Pos(col, h, 0) <= Pos(col, h, x) && Pos(col, h, 0) + h <= Pos(across, h, 0)
    ensures Pos(col, h, x) == Pos(col, h, 0) + x && Pos(col, h, 0) + h == Pos(col + 1, h, 0)
  {
    NextPos(col, h, x);
    NextPos(col, h, 0);
    NextPos(0, h, 0);
    PosOrder(0, col, h);
    PosOrder(col + 1, across, h);
  }

  lemma DummyCell(c: Comp, row: nat, col: nat, x: nat)
    requires 0 < c.height <= row && x < c.h
    ensures Cell(c, row, col, x) == Dummy(Cell(c, row - 1, col, c.h - 1)[0])
  {
  }

  /** n dummy blocks side by side. */
  method FillMcuLine(a: array2<Block>, row: nat, base: nat, n: nat, lastDc: Coef)
    requires row < a.Length0 && base + n <= a.Length1
    modifies a
    ensures forall r, q :: 0 <= r < a.Length0 && 0 <= q < a.Length1 ==>
              a[r, q] == if r == row && base <= q < base + n then Dummy(lastDc) else old(a[r, q])
  {
    hide Dummy, Zero;
    DummyDc(lastDc);
    var bi := 0;
    while bi < n
      invariant 0 <= bi <= n
      invariant forall r, q :: 0 <= r < a.Length0 && 0 <= q < a.Length1 ==>
                  a[r, q] == if r == row && base <= q < base + bi then Dummy(lastDc) else old(a[r, q])
    {
      a[row, base + bi] := Zero()[0 := lastDc];
      bi := bi + 1;
    }
  }

  /** The MCUs before column n of a dummy row are there. */
  ghost predicate McusFilled(a: array2<Block>, c: Comp, row: nat, n: nat)
    reads a
  {
    row < a.Length0 && forall col: nat, x: nat :: col < n && x < c.h && 0 <= Pos(col, c.h, x) < a.Length1 ==>
                         a[row, Pos(col, c.h, x)] == Cell(c, row, col, x)
  }

  /** A row below the image: in each MCU, dummy blocks with the DC value of the last block of the row above. */
  method FillDummyRow(a: array2<Block>, c: Comp, ghost total: nat, across: nat, row: nat)
    requires Shaped(a, c, total, across) && 0 < c.height <= row < a.Length0 && RowFilled(a, c, across, row - 1)
    modifies a
    ensures RowFilled(a, c, across, row)
    ensures forall r :: 0 <= r < a.Length0 && r != row ==> RowOf(a, r) == old(RowOf(a, r))
  {
    hide Cell, Dummy, Pos, Zero;
    var mcuIndex: nat := 0;
    while mcuIndex < across
      invariant 0 <= mcuIndex <= across
      invariant McusFilled(a, c, row, mcuIndex)
      invariant forall r, q :: 0 <= r < a.Length0 && 0 <= q < a.Length1 && r != row ==> a[r, q] == old(a[r, q])
    {
      InRange(c.h, across, mcuIndex, c.h - 1);
      var base: nat := Pos(mcuIndex, c.h, 0);
      var lastDc := a[row - 1, base + c.h - 1][0];
      assert lastDc == Cell(c, row - 1, mcuIndex, c.h - 1)[0] by {
        assert old(a[row - 1, Pos(mcuIndex, c.h, c.h - 1)]) == Cell(c, row - 1, mcuIndex, c.h - 1);
      }
      label before:
      FillMcuLine(a, row, base, c.h, lastDc);
      forall col: nat, x: nat | col < mcuIndex + 1 && x < c.h && 0 <= Pos(col, c.h, x) < a.Length1
        ensures a[row, Pos(col, c.h, x)] == Cell(c, row, col, x)
      {
        InRange(c.h, across, col, x);
        if col == mcuIndex {
          DummyCell(c, row, col, x);
        } else {
          PosOrder(col + 1, mcuIndex, c.h);
          assert a[row, Pos(col, c.h, x)] == old@before(a[row, Pos(col, c.h, x)]);
        }
      }
      mcuIndex := mcuIndex + 1;
    }
  }

  lemma PartsAcross(h: nat, across: nat)
    requires 0 < h <= 4
    ensures Pos(across, h, 0) / h == across
  {
    if h == 1 {} else if h == 2 {} else if h == 3 {} else {}
  }

  /** The block rows of one iMCU row that are not below the image. */
  method CountRows(c: Comp, total: nat, ghost across: nat, r: nat) returns (n: nat)
    requires Sized(c, total, across) && r < total
    ensures 0 < n <= c.v
    ensures forall i :: 0 <= i < c.v ==> (i < n <==> Pos(r, c.v, i) < c.height)
  {
    if r < total - 1 {
      n := c.v;
    } else {
      n := c.height % c.v;
      if n == 0 { n := c.v; }
    }
    InLastIs(c.height, c.v, total);
    forall i | 0 <= i < c.v ensures i < n <==> Pos(r, c.v, i) < c.height {
      RealLine(c, total, across, r, i);
    }
  }

  /** The real rows of one iMCU row. */
  method FillRealRows(a: array2<Block>, c: Comp, ghost total: nat, ghost across: nat, first: nat, n: nat, ndummy: nat)
    requires Shaped(a, c, total, across) && c.width + ndummy == a.Length1
    requires first + n <= a.Length0 && first + n <= c.height
    modifies a
    ensures forall row :: first <= row < first + n ==> RowFilled(a, c, across, row)
    ensures forall row :: 0 <= row < a.Length0 && !(first <= row < first + n) ==> RowOf(a, row) == old(RowOf(a, row))
  {
    hide RowOk, Shaped, RowOf;
    var blockRow := 0;
    while blockRow < n
      invariant 0 <= blockRow <= n
      invariant forall row :: first <= row < first + blockRow ==> RowFilled(a, c, across, row)
      invariant forall row :: 0 <= row < a.Length0 && !(first <= row < first + blockRow) ==>
        RowOf(a, row) == old(RowOf(a, row))
    {
      label before:
      FillRealRow(a, c, total, across, first + blockRow, ndummy);
      forall row | first <= row < first + blockRow ensures RowFilled(a, c, across, row) {
        assert old@before(RowFilled(a, c, across, row));
      }
      blockRow := blockRow + 1;
    }
  }

  /** The rows of one iMCU row below the image. */
  method FillDummyRows(a: array2<Block>, c: Comp, ghost total: nat, across: nat, first: nat, n: nat)
    requires Shaped(a, c, total, across) && 0 < c.height <= first && first + n <= a.Length0
    requires RowFilled(a, c, across, first - 1)
    modifies a
    ensures forall row :: first <= row < first + n ==> RowFilled(a, c, across, row)
    ensures forall row :: 0 <= row < a.Length0 && !(first <= row < first + n) ==> RowOf(a, row) == old(RowOf(a, row))
  {
    hide RowOk, Shaped, RowOf;
    var blockRow := 0;
    while blockRow < n
      invariant 0 <= blockRow <= n
      invariant forall row :: first <= row < first + blockRow ==> RowFilled(a, c, across, row)
      invariant forall row :: 0 <= row < a.Length0 && !(first <= row < first + blockRow) ==>
        RowOf(a, row) == old(RowOf(a, row))
    {
      assert blockRow == 0 ==> RowOf(a, first - 1) == old(RowOf(a, first - 1));
      label between:
      FillDummyRow(a, c, total, across, first + blockRow);
      forall row | first <= row < first + blockRow ensures RowFilled(a, c, across, row) {
        assert old@between(RowFilled(a, c, across, row));
      }
      blockRow := blockRow + 1;
    }
  }

  /** Stores one iMCU row of a component, and the dummy blocks that complete it. */
  method FillStrip(a: array2<Block>, c: Comp, total: nat, across: nat, r: nat)
    requires Shaped(a, c, total, across) && r < total
    modifies a
    ensures Pos(r, c.v, 0) >= 0 && Pos(r, c.v, 0) + c.v <= a.Length0
    ensures forall row :: Pos(r, c.v, 0) <= row < Pos(r, c.v, 0) + c.v ==> RowFilled(a, c, across, row)
    ensures forall row :: 0 <= row < a.Length0 && !(Pos(r, c.v, 0) <= row < Pos(r, c.v, 0) + c.v) ==>
              RowOf(a, row) == old(RowOf(a, row))
  {
    hide Pos, RowOk, InLast, RowOf;
    RowsInRange(c, total, r);
    var first: nat := r * c.v;
    var blockRows := CountRows(c, total, across, r);
    var ndummy := CountDummies(c, total, across);
    assert Pos(r, c.v, blockRows - 1) < c.height;
    FillRealRows(a, c, total, across, first, blockRows, ndummy);
    if blockRows < c.v {
      var blocksAcross := c.width + ndummy;
      PartsAcross(c.h, across);
      WidthPositive(c, total, across);
      assert Pos(r, c.v, blockRows) >= c.height;
      label between:
      FillDummyRows(a, c, total, blocksAcross / c.h, first + blockRows, c.v - blockRows);
      forall row | first <= row < first + blockRows ensures RowFilled(a, c, across, row) {
        assert old@between(RowFilled(a, c, across, row));
      }
    }
  }

  lemma RowsInRange(c: Comp, total: nat, r: nat)
    requires r < total
    ensures Pos(r, c.v, 0) >= 0 && Pos(r, c.v, 0) + c.v <= Pos(total, c.v, 0)
    ensures r * c.v == Pos(r, c.v, 0)
    ensures forall i :: 0 <= i < c.v ==> Pos(r, c.v, i) == Pos(r, c.v, 0) + i
  {
    NextPos(r, c.v, 0);
    NextPos(0, c.v, 0);
    PosOrder(0, r, c.v);
    PosOrder(r + 1, total, c.v);
    forall i | 0 <= i < c.v ensures Pos(r, c.v, i) == Pos(r, c.v, 0) + i { NextPos(r, c.v, i); }
  }

  ghost predicate CompFilled(a: array2<Block>, c: Comp, across: nat, rows: int)
    reads a
  {
    forall row :: 0 <= row < rows ==> RowFilled(a, c, across, row)
  }

  /** Storing the next iMCU row of a component. */
  method FillNext(a: array2<Block>, c: Comp, total: nat, across: nat, r: nat)
    requires Shaped(a, c, total, across) && r < total && CompFilled(a, c, across, Pos(r, c.v, 0))
    modifies a
    ensures CompFilled(a, c, across, Pos(r + 1, c.v, 0))
  {
    hide Pos, RowOk, RowOf, Shaped;
    NextPos(r, c.v, 0);
    label before:
    FillStrip(a, c, total, across, r);
    forall row | 0 <= row < Pos(r, c.v, 0) ensures RowFilled(a, c, across, row) {
      assert old@before(RowFilled(a, c, across, row));
    }
  }

  class CoefController {
    const p: Picture
    const whole: seq<array2<Block>>
    var scan: seq<nat>
    var g: Geometry
    var iMcuRow: nat
    var mcuCtr: nat
    var vertOffset: nat
    var rowsPerImcuRow: nat
    var sent: seq<seq<Block>>   // MCUs the entropy coder has accepted in this pass
    ghost var filled: nat       // iMCU rows stored

    ghost predicate Allocated() {
      && ValidPicture(p) && |whole| == |p.comps| && p.total > 0 && p.across > 0
      && (forall ci :: 0 <= ci < |whole| ==> Shaped(whole[ci], p.comps[ci], p.total, p.across))
      && (forall ci, cj :: 0 <= ci < cj < |whole| ==> whole[ci] != whole[cj])
    }

    ghost predicate Stored(ci: nat, n: nat)
      requires ci < |whole| && |whole| == |p.comps|
      reads whole[ci]
    {
      CompFilled(whole[ci], p.comps[ci], p.across, Pos(n, p.comps[ci].v, 0))
    }

    ghost predicate FilledTo(n: nat)
      reads whole
    {
      |whole| == |p.comps| && forall ci :: 0 <= ci < |whole| ==> Stored(ci, n)
    }

    ghost predicate Scanning()
      reads this
    {
      ValidScan(p, scan) && Fits(g, p, scan)
    }

    /** The entropy coder has got exactly the MCUs of this pass before the current position. */
    ghost predicate Valid()
      reads this, whole
    {
      && Allocated() && Scanning() && ForStream(p, scan) && iMcuRow <= p.total && filled <= p.total && FilledTo(filled)
      && rowsPerImcuRow == McuRows(p, scan, iMcuRow)
      && (iMcuRow < p.total ==> vertOffset < rowsPerImcuRow && mcuCtr < g.perRow)
      && (iMcuRow == p.total ==> vertOffset == 0 && mcuCtr == 0)
      && sent == Before(p, scan, iMcuRow, vertOffset, mcuCtr)
    }

    /** Arrays padded to whole iMCUs, one for each component, and the start of the first pass. */
    constructor (p: Picture, scan: seq<nat>, g: Geometry)
      requires ValidPicture(p) && p.total > 0 && p.across > 0 && ValidScan(p, scan) && Fits(g, p, scan)
      ensures Valid() && iMcuRow == 0 && filled == 0 && this.p == p && this.scan == scan
      ensures forall ci :: 0 <= ci < |whole| ==> fresh(whole[ci])
    {
      hide Fits, ValidScan, Before, McuRows, Pos;
      var arrays: seq<array2<Block>> := [];
      var i := 0;
      while i < |p.comps|
        invariant 0 <= i <= |p.comps| && |arrays| == i
        invariant forall ci :: 0 <= ci < i ==> Shaped(arrays[ci], p.comps[ci], p.total, p.across) && fresh(arrays[ci])
        invariant forall ci, cj :: 0 <= ci < cj < i ==> arrays[ci] != arrays[cj]
      {
        var c := p.comps[i];
        assert Sized(c, p.total, p.across);
        NextPos(0, c.v, 0);
        PosOrder(0, p.total, c.v);
        NextPos(0, c.h, 0);
        PosOrder(0, p.across, c.h);
        var a := new Block[Pos(p.total, c.v, 0), Pos(p.across, c.h, 0)]((row, col) => Zero());
        arrays := arrays + [a];
        i := i + 1;
      }
      this.p, this.scan, this.g, whole := p, scan, g, arrays;
      iMcuRow, mcuCtr, vertOffset, rowsPerImcuRow, sent, filled := 0, 0, 0, 0, [], 0;
      new;
      forall ci | 0 <= ci < |whole| ensures Stored(ci, 0) { NextPos(0, p.comps[ci].v, 0); }
      FirstPosition(p, scan, g);
      StartImcuRow();
      BeforeSteps(p, scan, 0, 0, 0);
    }

    /** Resets the counters within an iMCU row. */
    method StartImcuRow()
      requires Scanning() && ForStream(p, scan)
      modifies this`rowsPerImcuRow, this`mcuCtr, this`vertOffset
      ensures rowsPerImcuRow == McuRows(p, scan, iMcuRow) && mcuCtr == 0 && vertOffset == 0
    {
      if |scan| > 1 {
        rowsPerImcuRow := 1;
      } else if iMcuRow + 1 < p.total {
        rowsPerImcuRow := p.comps[scan[0]].v;
      } else {
        assert FitsComp(g, p.comps[scan[0]], true, 0);
        rowsPerImcuRow := g.lastRow[0];
      }
      mcuCtr := 0;
      vertOffset := 0;
    }

    /** The next pass, perhaps over other components. */
    method StartPass(scan: seq<nat>, g: Geometry)
      requires Valid() && ValidScan(p, scan) && Fits(g, p, scan)
      modifies this
      ensures Valid() && iMcuRow == 0 && filled == old(filled) && this.scan == scan
    {
      hide Fits, ValidScan, Before, McuRows, Stored;
      FirstPosition(p, scan, g);
      this.scan, this.g := scan, g;
      iMcuRow, sent := 0, [];
      StartImcuRow();
      BeforeSteps(p, scan, 0, 0, 0);
    }

    /** One line of one component, from the stored array. */
    method GatherLine(ci: nat, yoffset: nat, yindex: nat, col: nat) returns (line: seq<Block>)
      requires Allocated() && Scanning() && ci < |scan| && iMcuRow < p.total && FilledTo(iMcuRow + 1)
      requires col < g.perRow && yoffset < McuRows(p, scan, iMcuRow) && yindex < Lines(p.comps[scan[ci]], |scan| == 1)
      ensures line == McuLine(p.comps[scan[ci]], |scan| == 1, StartRow(p.comps[scan[ci]], iMcuRow, yoffset) + yindex,
        col)
    {
      hide McuRows, Blocks, Cell, Pos, RowOk;
      var c, alone := p.comps[scan[ci]], |scan| == 1;
      RowsThere(p, scan, iMcuRow);
      RowFacts(p, scan, g, ci, iMcuRow, yoffset, yindex, col);
      var row: nat := iMcuRow * c.v + yoffset + yindex;
      InStrip(p, scan, iMcuRow, yoffset, yindex, ci);
      assert Stored(scan[ci], iMcuRow + 1);
      assert RowFilled(whole[scan[ci]], c, p.across, row);
      var startCol := col * g.mcuWidth[ci];
      InRow(c, alone, p.total, p.across, col);
      line := [];
      var xindex: nat := 0;
      while xindex < g.mcuWidth[ci]
        invariant 0 <= xindex <= g.mcuWidth[ci] && |line| == xindex
        invariant forall x :: 0 <= x < xindex ==> line[x] == McuLine(c, alone, row, col)[x]
      {
        assert startCol + xindex == Pos(col, Width(c, alone), xindex) by { NextPos(col, Width(c, alone), xindex); }
        BlockIs(RowOf(whole[scan[ci]], row), c, alone, p.total, p.across, row, col, xindex);
        line := line + [whole[scan[ci]][row, startCol + xindex]];
        xindex := xindex + 1;
      }
    }

    /** The lines of one component. */
    method GatherComp(ci: nat, yoffset: nat, col: nat) returns (blocks: seq<Block>)
      requires Allocated() && Scanning() && ci < |scan| && iMcuRow < p.total && FilledTo(iMcuRow + 1)
      requires col < g.perRow && yoffset < McuRows(p, scan, iMcuRow)
      ensures blocks == McuPart(p.comps[scan[ci]], |scan| == 1, iMcuRow, yoffset, col)
    {
      hide McuRows, Cell, Pos, McuComp, McuLine, Stored, StartRow, Fits;
      ghost var c, alone := p.comps[scan[ci]], |scan| == 1;
      ghost var row := StartRow(c, iMcuRow, yoffset);
      HeightIs(ci);
      NextLine(c, alone, row, col, 0);
      blocks := [];
      var yindex: nat := 0;
      while yindex < g.mcuHeight[ci]
        invariant 0 <= yindex <= g.mcuHeight[ci] && blocks == McuComp(c, alone, row, col, yindex)
      {
        NextLine(c, alone, row, col, yindex);
        var line := GatherLine(ci, yoffset, yindex, col);
        blocks := blocks + line;
        yindex := yindex + 1;
      }
    }

    lemma HeightIs(ci: nat)
      requires Scanning() && ci < |scan|
      ensures ci < |g.mcuHeight| && g.mcuHeight[ci] == Lines(p.comps[scan[ci]], |scan| == 1)
    {
      assert FitsComp(g, p.comps[scan[ci]], |scan| == 1, ci);
    }

    /** The MCU at the given position. */
    method GatherMcu(yoffset: nat, col: nat) returns (mcu: seq<Block>)
      requires Allocated() && Scanning() && iMcuRow < p.total && FilledTo(iMcuRow + 1)
      requires col < g.perRow && yoffset < McuRows(p, scan, iMcuRow)
      ensures mcu == Mcu(p, scan, iMcuRow, yoffset, col, |scan|)
    {
      hide McuPart, Mcu, McuRows, Stored, Fits;
      NextPart(p, scan, iMcuRow, yoffset, col, 0);
      mcu := [];
      var ci: nat := 0;
      while ci < |scan|
        invariant 0 <= ci <= |scan| && mcu == Mcu(p, scan, iMcuRow, yoffset, col, ci)
      {
        NextPart(p, scan, iMcuRow, yoffset, col, ci);
        var part := GatherComp(ci, yoffset, col);
        mcu := mcu + part;
        ci := ci + 1;
      }
    }

    /** One iMCU row from the stored arrays; suspension as in the single-pass controller. */
    method CompressOutput(patience: int) returns (done: bool)
      requires Valid() && iMcuRow < filled
      modifies this
      ensures Valid() && old(sent) <= sent && filled == old(filled) && scan == old(scan)
      ensures iMcuRow == old(iMcuRow) + if done then 1 else 0
      ensures done ==> vertOffset == 0 && mcuCtr == 0
      ensures !done ==> patience >= 0 && |sent| == |old(sent)| + patience
      ensures patience != 0 ==> |sent| > |old(sent)|
    {
      hide Fits, ValidScan, Mcu, McuRows, Before, Stored, Pos;
      FirstPosition(p, scan, g);
      StoredSoFar(filled, iMcuRow + 1);
      var left := patience;
      var yoffset: nat, col: nat := vertOffset, mcuCtr;
      while yoffset < rowsPerImcuRow
        invariant Scanning() && scan == old(scan) && g == old(g) && filled == old(filled)
        invariant iMcuRow == old(iMcuRow) && rowsPerImcuRow == old(rowsPerImcuRow)
        invariant yoffset <= rowsPerImcuRow && (if yoffset < rowsPerImcuRow then col < g.perRow else col == 0)
        invariant old(sent) <= sent && sent == Before(p, scan, iMcuRow, yoffset, col)
        invariant patience >= 0 ==> left >= 0 && |sent| == |old(sent)| + patience - left
        invariant patience < 0 ==> left < 0
        invariant |sent| == |old(sent)| ==> left == patience && yoffset == old(vertOffset) && col == old(mcuCtr)
      {
        while col < g.perRow
          invariant Scanning() && scan == old(scan) && g == old(g) && filled == old(filled)
          invariant iMcuRow == old(iMcuRow) && rowsPerImcuRow == old(rowsPerImcuRow)
          invariant col <= g.perRow
          invariant old(sent) <= sent && sent == Before(p, scan, iMcuRow, yoffset, col)
          invariant patience >= 0 ==> left >= 0 && |sent| == |old(sent)| + patience - left
          invariant patience < 0 ==> left < 0
          invariant |sent| == |old(sent)| ==> left == patience && yoffset == old(vertOffset) && col == old(mcuCtr)
        {
          var mcu := GatherMcu(yoffset, col);
          if left == 0 {
            vertOffset, mcuCtr := yoffset, col;
            return false;
          }
          left := left - 1;
          BeforeSteps(p, scan, iMcuRow, yoffset, col);
          sent := sent + [mcu];
          col := col + 1;
        }
        BeforeSteps(p, scan, iMcuRow, yoffset, 0);
        col := 0;
        yoffset := yoffset + 1;
      }
      BeforeSteps(p, scan, iMcuRow, 0, 0);
      iMcuRow := iMcuRow + 1;
      StartImcuRow();
      RowsThere(p, scan, iMcuRow);
      return true;
    }

    lemma StoredSoFar(m: nat, n: nat)
      requires FilledTo(m) && n <= m
      ensures FilledTo(n)
    {
      hide Pos, RowFilled;
      forall ci | 0 <= ci < |whole| ensures Stored(ci, n) {
        assert Stored(ci, m);
        PosOrder(n, m, p.comps[ci].v);
      }
    }

    /** Stores iMCU row r of every component. */
    method StoreRow(r: nat)
      requires Allocated() && r < p.total && FilledTo(r)
      modifies whole
      ensures FilledTo(r + 1)
    {
      hide Pos, CompFilled;
      ghost var next: nat := r + 1;
      var ci: nat := 0;
      while ci < |whole|
        invariant 0 <= ci <= |whole|
        invariant forall cj :: 0 <= cj < ci ==> Stored(cj, next)
        invariant forall cj :: ci <= cj < |whole| ==> Stored(cj, r)
      {
        assert Stored(ci, r);
        label before:
        FillNext(whole[ci], p.comps[ci], p.total, p.across, r);
        forall cj | 0 <= cj < ci ensures Stored(cj, next) {
          assert whole[cj] != whole[ci] && old@before(Stored(cj, next));
        }
        forall cj | ci < cj < |whole| ensures Stored(cj, r) {
          assert whole[cj] != whole[ci] && old@before(Stored(cj, r));
        }
        ci := ci + 1;
      }
    }

    /** The first pass: stores an iMCU row of all components, then sends the ones of the scan. */
    method CompressFirstPass(patience: int) returns (done: bool)
      requires Valid() && iMcuRow < p.total && filled >= iMcuRow
      modifies this, whole
      ensures Valid() && old(sent) <= sent && filled > old(iMcuRow) && scan == old(scan)
      ensures iMcuRow == old(iMcuRow) + if done then 1 else 0
      ensures done ==> vertOffset == 0 && mcuCtr == 0
      ensures !done ==> patience >= 0 && |sent| == |old(sent)| + patience
      ensures patience != 0 ==> |sent| > |old(sent)|
    {
      hide Fits, ValidScan, Mcu, McuRows, Before, Stored, Pos;
      StoredSoFar(filled, iMcuRow);
      StoreRow(iMcuRow);
      filled := iMcuRow + 1;
      done := CompressOutput(patience);
    }
  }

  lemma FirstPosition(p: Picture, scan: seq<nat>, g: Geometry)
    requires ValidScan(p, scan) && Fits(g, p, scan)
    ensures ForStream(p, scan) && McuRows(p, scan, 0) > 0 && g.perRow > 0 && g.perRow == PerRow(p, scan) && p.total > 0
  {
    RowsThere(p, scan, 0);
  }

  lemma InStrip(p: Picture, scan: seq<nat>, r: nat, y: nat, yi: nat, ci: nat)
    requires ValidScan(p, scan) && ForStream(p, scan) && ci < |scan| && r < p.total && y < McuRows(p, scan, r)
    requires yi < Lines(p.comps[scan[ci]], |scan| == 1)
    ensures var c := p.comps[scan[ci]]; r * c.v + y + yi < Pos(r + 1, c.v, 0) <= Pos(p.total, c.v, 0)
  {
    hide InLast;
    var c := p.comps[scan[ci]];
    assert Sized(c, p.total, p.across);
    InLastIs(c.height, c.v, p.total);
    NextPos(r, c.v, 0);
    PosOrder(r + 1, p.total, c.v);
  }

  lemma InRow(c: Comp, alone: bool, total: nat, across: nat, col: nat)
    requires Sized(c, total, across) && (if alone then col < c.width else col < across)
    ensures Pos(col, Width(c, alone), 0) >= 0 && Pos(col, Width(c, alone), 0) + Width(c, alone) <= Pos(across, c.h, 0)
    ensures col * Width(c, alone) == Pos(col, Width(c, alone), 0)
  {
    if alone {
      assert Pos(col, 1, 0) == col;
    } else {
      InRange(c.h, across, col, 0);
    }
  }

  lemma BlockIs(s: seq<Block>, c: Comp, alone: bool, total: nat, across: nat, row: nat, col: nat, x: nat)
    requires Sized(c, total, across) && RowOk(s, c, across, row) && x < Width(c, alone) && |s| == Pos(across, c.h, 0)
    requires if alone then row < c.height && col < c.width else col < across
    requires 0 <= Pos(col, Width(c, alone), x) < |s|
    ensures s[Pos(col, Width(c, alone), x)] == McuLine(c, alone, row, col)[x]
  {
    hide Cell, Real;
    if alone {
      assert Pos(col, 1, 0) == col;
    }
  }
}
