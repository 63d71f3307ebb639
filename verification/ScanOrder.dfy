/** The order of blocks in a scan, by number (T.81, sections A.2.2 and A.2.3). */
module ScanOrder {
  import opened McuStream
  import opened CoefBlocks

  /** A place inside part k of n parts lies before their end. */
  lemma Inside(k: nat, n: nat, size: nat, i: nat)
    requires k < n && i < size
    ensures 0 <= Pos(k, size, i) < Pos(n, size, 0)
  {
    hide Pos;
    NextPos(k, size, i);
    NextPos(k, size, 0);
    NextPos(0, size, 0);
    PosOrder(0, k, size);
    PosOrder(k + 1, n, size);
  }

  // ---------------------------------------------------------------------------------------------
  // Interleaved scans
  // ---------------------------------------------------------------------------------------------

  lemma {:induction false} CompSize(c: Comp, row: nat, col: nat, n: nat)
    ensures |McuComp(c, false, row, col, n)| == Pos(n, c.h, 0)
    decreases n
  {
    hide McuLine, Pos;
    NextPos(n - 1, c.h, 0);
    NextPos(0, c.h, 0);
    if n > 0 {
      CompSize(c, row, col, n - 1);
    }
  }

  /** The lines of a component in an MCU follow one another. */
  lemma {:induction false} CompBlock(c: Comp, row: nat, col: nat, n: nat, y: nat, x: nat)
    requires y < n && x < c.h
    ensures 0 <= Pos(y, c.h, x) < |McuComp(c, false, row, col, n)|
    ensures McuComp(c, false, row, col, n)[Pos(y, c.h, x)] == Cell(c, row + y, col, x)
    decreases n
  {
    hide Cell, Pos;
    CompSize(c, row, col, n - 1);
    CompSize(c, row, col, n);
    NextPos(n - 1, c.h, x);
    Inside(y, n, c.h, x);
    if y < n - 1 {
      CompBlock(c, row, col, n - 1, y, x);
    }
  }

  lemma LinesOf(c: Comp)
    ensures Area(c, false) == Pos(c.v, c.h, 0)
  {
    assert c.h * c.v == c.v * c.h + 0;
  }

  lemma {:induction false} McuSize(p: Picture, scan: seq<nat>, r: nat, col: nat, n: nat)
    requires |scan| > 1 && n <= |scan| && Known(p, scan)
    ensures |Mcu(p, scan, r, 0, col, n)| == Blocks(p, scan, n)
    decreases n
  {
    hide McuComp, Area, Pos, StartRow;
    if n > 0 {
      McuSize(p, scan, r, col, n - 1);
      var c := CompAt(p, scan, n - 1);
      LinesOf(c);
      CompSize(c, StartRow(c, r, 0), col, c.v);
    }
  }

  /** The components follow one another in an MCU, each with all its blocks. */
  lemma {:induction false} McuBlock(p: Picture, scan: seq<nat>, r: nat, col: nat, n: nat, i: nat, y: nat, x: nat)
    requires |scan| > 1 && i < n <= |scan| && Known(p, scan)
    requires y < CompAt(p, scan, i).v && x < CompAt(p, scan, i).h
    ensures var c, at := CompAt(p, scan, i), Blocks(p, scan, i) + Pos(y, CompAt(p, scan, i).h, x);
            && 0 <= at < |Mcu(p, scan, r, 0, col, n)|
            && Mcu(p, scan, r, 0, col, n)[at] == Cell(c, StartRow(c, r, 0) + y, col, x)
    decreases n
  {
    hide Cell, McuComp, Pos, Area, StartRow, Blocks;
    McuSize(p, scan, r, col, n - 1);
    if i < n - 1 {
      McuBlock(p, scan, r, col, n - 1, i, y, x);
    } else {
      var c := CompAt(p, scan, i);
      CompBlock(c, StartRow(c, r, 0), col, c.v, y, x);
    }
  }

  lemma {:induction false} LineAt(p: Picture, scan: seq<nat>, r: nat, y: nat, n: nat, col: nat)
    requires ForStream(p, scan) && col < n
    ensures |LineUpTo(p, scan, r, y, n)| == n && LineUpTo(p, scan, r, y, n)[col] == Mcu(p, scan, r, y, col, |scan|)
    decreases n
  {
    hide Mcu;
    LineLength(p, scan, r, y, n - 1);
    if col < n - 1 {
      LineAt(p, scan, r, y, n - 1, col);
    }
  }

  lemma OneLine(p: Picture, scan: seq<nat>, r: nat)
    requires ForStream(p, scan) && |scan| > 1
    ensures RowUpTo(p, scan, r, McuRows(p, scan, r)) == LineUpTo(p, scan, r, 0, p.across)
    ensures |LineUpTo(p, scan, r, 0, p.across)| == p.across
  {
    hide LineUpTo;
    LineLength(p, scan, r, 0, p.across);
    assert RowUpTo(p, scan, r, 0) == [];
  }

  lemma {:induction false} InterleavedSize(p: Picture, scan: seq<nat>, n: nat)
    requires ForStream(p, scan) && |scan| > 1
    ensures |StreamUpTo(p, scan, n)| == Pos(n, p.across, 0)
    decreases n
  {
    hide LineUpTo, RowUpTo, Pos;
    NextPos(n - 1, p.across, 0);
    NextPos(0, p.across, 0);
    if n > 0 {
      InterleavedSize(p, scan, n - 1);
      OneLine(p, scan, n - 1);
    }
  }

  lemma {:induction false} InterleavedMcu(p: Picture, scan: seq<nat>, n: nat, r: nat, col: nat)
    requires ForStream(p, scan) && |scan| > 1 && r < n && col < p.across
    ensures 0 <= Pos(r, p.across, col) < |StreamUpTo(p, scan, n)|
    ensures StreamUpTo(p, scan, n)[Pos(r, p.across, col)] == Mcu(p, scan, r, 0, col, |scan|)
    decreases n
  {
    hide Mcu, LineUpTo, Pos, RowUpTo;
    InterleavedSize(p, scan, n - 1);
    InterleavedSize(p, scan, n);
    OneLine(p, scan, n - 1);
    NextPos(n - 1, p.across, col);
    Inside(r, n, p.across, col);
    if r < n - 1 {
      InterleavedMcu(p, scan, n - 1, r, col);
    } else {
      LineAt(p, scan, r, 0, p.across, col);
    }
  }

  /**
   * Interleaved: the MCUs come row by row, and in each one the components in the order of the scan, each with v lines
   * of h blocks; the block in line y and column x of MCU (r, col) is the one at (r * v + y, col * h + x) of the
   * component.
   */
  lemma InterleavedOrder(p: Picture, scan: seq<nat>, r: nat, col: nat, i: nat, y: nat, x: nat)
    requires ValidScan(p, scan) && ForStream(p, scan) && |scan| > 1 && r < p.total && col < p.across && i < |scan|
    requires var c := p.comps[scan[i]];
             y < c.v && x < c.h && r * c.v + y < c.height && col * c.h + x < c.width
    ensures var c, m, n := p.comps[scan[i]], r * p.across + col, Blocks(p, scan, i) + y * p.comps[scan[i]].h + x;
            && |Stream(p, scan)| == p.total * p.across && m < |Stream(p, scan)| && n < |Stream(p, scan)[m]|
            && Sized(c, p.total, p.across) && Stream(p, scan)[m][n] == c.grid[r * c.v + y][col * c.h + x]
  {
    hide Mcu, StreamUpTo, Cell, Blocks, Pos;
    var c := p.comps[scan[i]];
    assert Sized(c, p.total, p.across);
    PosIs(r, p.across, col);
    PosIs(y, c.h, x);
    PosIs(col, c.h, x);
    PosIs(p.total, p.across, 0);
    InterleavedSize(p, scan, p.total);
    InterleavedMcu(p, scan, p.total, r, col);
    McuBlock(p, scan, r, col, |scan|, i, y, x);
    NextPos(r, c.v, 0);
    PosIs(r, c.v, 0);
    CellIsReal(c, r * c.v + y, col, x);
  }

  lemma PosIs(a: nat, n: nat, i: nat)
    ensures Pos(a, n, i) == a * n + i && 0 <= a * n
  {
  }

  // ---------------------------------------------------------------------------------------------
  // Scans of one component
  // ---------------------------------------------------------------------------------------------

  lemma {:induction false} AloneRowSize(p: Picture, scan: seq<nat>, r: nat, n: nat)
    requires ForStream(p, scan) && |scan| == 1
    ensures |RowUpTo(p, scan, r, n)| == Pos(n, PerRow(p, scan), 0)
    decreases n
  {
    hide LineUpTo, Pos;
    NextPos(n - 1, PerRow(p, scan), 0);
    NextPos(0, PerRow(p, scan), 0);
    if n > 0 {
      AloneRowSize(p, scan, r, n - 1);
      LineLength(p, scan, r, n - 1, PerRow(p, scan));
    }
  }

  lemma {:induction false} AloneRow(p: Picture, scan: seq<nat>, r: nat, n: nat, y: nat, col: nat)
    requires ForStream(p, scan) && |scan| == 1 && y < n && col < PerRow(p, scan)
    ensures 0 <= Pos(y, PerRow(p, scan), col) < |RowUpTo(p, scan, r, n)|
    ensures RowUpTo(p, scan, r, n)[Pos(y, PerRow(p, scan), col)] == Mcu(p, scan, r, y, col, 1)
    decreases n
  {
    hide Mcu, LineUpTo, Pos;
    var w := PerRow(p, scan);
    AloneRowSize(p, scan, r, n - 1);
    AloneRowSize(p, scan, r, n);
    NextPos(n - 1, w, col);
    Inside(y, n, w, col);
    LineAt(p, scan, r, n - 1, w, col);
    if y < n - 1 {
      AloneRow(p, scan, r, n - 1, y, col);
    }
  }

  /** Block rows in the first n iMCU rows. */
  function RowsIn(c: Comp, total: nat, n: nat): int {
    if n < total then Pos(n, c.v, 0) else c.height
  }

  lemma RowsStep(p: Picture, scan: seq<nat>, n: nat)
    requires ValidScan(p, scan) && ForStream(p, scan) && |scan| == 1 && 0 < n <= p.total
    ensures var c := p.comps[scan[0]];
            && RowsIn(c, p.total, n - 1) == Pos(n - 1, c.v, 0)
            && RowsIn(c, p.total, n) == RowsIn(c, p.total, n - 1) + McuRows(p, scan, n - 1)
  {
    hide InLast, Pos;
    var c := p.comps[scan[0]];
    assert Sized(c, p.total, p.across);
    InLastIs(c.height, c.v, p.total);
    NextPos(n - 1, c.v, 0);
  }

  /** Rows of places, one set behind another. */
  lemma PosSum(a: int, b: int, n: nat, i: int)
    ensures Pos(a + b, n, i) == Pos(a, n, 0) + Pos(b, n, i)
  {
    assert (a + b) * n == a * n + b * n;
  }

  lemma {:induction false} AloneSize(p: Picture, scan: seq<nat>, n: nat)
    requires ValidScan(p, scan) && ForStream(p, scan) && |scan| == 1 && n <= p.total
    ensures |StreamUpTo(p, scan, n)| == Pos(RowsIn(p.comps[scan[0]], p.total, n), PerRow(p, scan), 0)
    decreases n
  {
    hide RowUpTo, Pos, McuRows, PerRow;
    var c, w := p.comps[scan[0]], PerRow(p, scan);
    NextPos(0, c.v, 0);
    NextPos(0, w, 0);
    if n > 0 {
      AloneSize(p, scan, n - 1);
      AloneRowSize(p, scan, n - 1, McuRows(p, scan, n - 1));
      RowsStep(p, scan, n);
      PosSum(RowsIn(c, p.total, n - 1), McuRows(p, scan, n - 1), w, 0);
    }
  }

  lemma {:induction false} AloneMcu(p: Picture, scan: seq<nat>, n: nat, r: nat, y: nat, col: nat)
    requires ValidScan(p, scan) && ForStream(p, scan) && |scan| == 1 && r < n <= p.total
    requires y < McuRows(p, scan, r) && col < PerRow(p, scan)
    ensures var at := Pos(Pos(r, p.comps[scan[0]].v, y), PerRow(p, scan), col);
            0 <= at < |StreamUpTo(p, scan, n)| && StreamUpTo(p, scan, n)[at] == Mcu(p, scan, r, y, col, 1)
    decreases n
  {
    hide Mcu, RowUpTo, McuRows, Pos, PerRow;
    var c, w := p.comps[scan[0]], PerRow(p, scan);
    AloneSize(p, scan, n - 1);
    if r < n - 1 {
      AloneMcu(p, scan, n - 1, r, y, col);
    } else {
      RowsStep(p, scan, n);
      AloneRow(p, scan, r, McuRows(p, scan, r), y, col);
      NextPos(r, c.v, y);
      PosSum(Pos(r, c.v, 0), y, w, col);
    }
  }

  /** A component alone in its scan: its real blocks, one to an MCU, row by row. */
  lemma AloneOrder(p: Picture, scan: seq<nat>, row: nat, col: nat)
    requires ValidScan(p, scan) && ForStream(p, scan) && |scan| == 1
    requires row < p.comps[scan[0]].height && col < p.comps[scan[0]].width
    ensures var c := p.comps[scan[0]];
            && Sized(c, p.total, p.across) && |Stream(p, scan)| == c.height * c.width
            && row * c.width + col < c.height * c.width
            && Stream(p, scan)[row * c.width + col] == [c.grid[row][col]]
  {
    hide StreamUpTo, Pos, McuRows, Mcu;
    var c := p.comps[scan[0]];
    assert Sized(c, p.total, p.across);
    AloneSize(p, scan, p.total);
    var r, y := RowParts(p, scan, row);
    AloneMcu(p, scan, p.total, r, y, col);
    AloneBlock(p, scan, r, y, col);
    PosIs(row, c.width, col);
    PosIs(c.height, c.width, 0);
    Inside(row, c.height, c.width, col);
  }

  lemma AloneBlock(p: Picture, scan: seq<nat>, r: nat, y: nat, col: nat)
    requires |scan| == 1 && Known(p, scan)
    ensures var c := p.comps[scan[0]]; Mcu(p, scan, r, y, col, 1) == [Real(c, Pos(r, c.v, y), col)]
  {
    hide Real, Pos;
    var c := p.comps[scan[0]];
    assert McuComp(c, true, StartRow(c, r, y), col, 0) == [];
    assert Mcu(p, scan, r, y, col, 0) == [];
  }

  /** Where a block row stands. */
  lemma RowParts(p: Picture, scan: seq<nat>, row: nat) returns (r: nat, y: nat)
    requires ValidScan(p, scan) && ForStream(p, scan) && |scan| == 1 && row < p.comps[scan[0]].height
    ensures r < p.total && y < McuRows(p, scan, r) && Pos(r, p.comps[scan[0]].v, y) == row
  {
    hide InLast, Pos;
    var c := p.comps[scan[0]];
    assert Sized(c, p.total, p.across);
    InLastIs(c.height, c.v, p.total);
    r, y := row / c.v, row % c.v;
    DivMod(row, c.v);
    if r >= p.total {
      PosOrder(p.total, r, c.v);
      NextPos(r, c.v, y);
      assert false;
    }
    NextPos(r, c.v, y);
  }

  lemma DivMod(v: nat, n: nat)
    requires n > 0
    ensures Pos(v / n, n, v % n) == v && v % n < n
  {
  }
}
