/**
 * The MCU stream of a scan: which blocks of which components make up each MCU, dummy blocks at the right and bottom
 * edges included, and the order in which the entropy coder is to get the MCUs.
 */
module McuStream {
  import opened Integers
  import opened Coefficients
  import ContextRows

  const MAX_BLOCKS_IN_MCU := 10

  function Zero(): (b: Block)
    ensures forall k :: 0 <= k < DCTSIZE2 ==> b[k] == 0
  {
    seq(DCTSIZE2, _ => 0)
  }

  /** A dummy block: nothing but the DC value of the block before it. */
  function Dummy(dc: Coef): (b: Block)
    ensures b[0] == dc && forall k :: 0 < k < DCTSIZE2 ==> b[k] == 0
  {
    Zero()[0 := dc]
  }

  predicate IsDummy(b: Block) {
    forall k :: 0 < k < DCTSIZE2 ==> b[k] == 0
  }

  lemma DummyIs(b: Block)
    requires IsDummy(b)
    ensures b == Dummy(b[0])
  {
  }

  /**
   * A component: its sampling factors, its size in blocks, and its blocks as the transform or another file gives them.
   */
  datatype Comp = Comp(h: nat, v: nat, width: nat, height: nat, grid: seq<seq<Block>>)

  /** total iMCU rows of across iMCUs. */
  datatype Picture = Picture(comps: seq<Comp>, total: nat, across: nat)

  /** Index i of part col, parts being n long. */
  function Pos(col: int, n: nat, i: int): (p: int) {
    col * n + i
  }

  lemma NextPos(col: int, n: nat, i: int)
    ensures Pos(col + 1, n, i) == Pos(col, n, i) + n
    ensures Pos(col, n, i) == Pos(col, n, 0) + i
    ensures Pos(0, n, i) == i
  {
    PreviousMultiple(col + 1, n);
  }

  lemma PosOrder(a: int, b: int, n: nat)
    requires a <= b
    ensures Pos(a, n, 0) <= Pos(b, n, 0)
  {
    ContextRows.ProductKeepsOrder(a, b, n);
  }

  ghost predicate Sized(c: Comp, total: nat, across: nat) {
    && 0 < c.h <= 4 && 0 < c.v <= 4 && total > 0 && across > 0
    && Pos(total - 1, c.v, 0) < c.height <= Pos(total, c.v, 0)
    && Pos(across - 1, c.h, 0) < c.width <= Pos(across, c.h, 0)
    && |c.grid| == c.height && (forall row :: 0 <= row < c.height ==> |c.grid[row]| == c.width)
  }

  ghost predicate ValidPicture(p: Picture) {
    forall ci :: 0 <= ci < |p.comps| ==> Sized(p.comps[ci], p.total, p.across)
  }

  ghost predicate ValidScan(p: Picture, scan: seq<nat>) {
    && 0 < |scan| <= MAX_COMPS_IN_SCAN && p.total > 0 && p.across > 0
    && Known(p, scan) && forall i :: 0 <= i < |scan| ==> Sized(p.comps[scan[i]], p.total, p.across)
  }

  /** The sizes computed from the image dimensions fit: every component ends in the last iMCU row and column. */
  lemma SizesFromImage(imageHeight: nat, imageWidth: nat, unitV: nat, unitH: nat, c: Comp)
    requires imageHeight > 0 && imageWidth > 0 && unitV > 0 && unitH > 0 && 0 < c.h <= 4 && 0 < c.v <= 4
    requires c.height == ContextRows.CeilDiv(imageHeight * c.v, unitV)
    requires c.width == ContextRows.CeilDiv(imageWidth * c.h, unitH)
    requires |c.grid| == c.height && (forall row :: 0 <= row < c.height ==> |c.grid[row]| == c.width)
    ensures Sized(c, ContextRows.CeilDiv(imageHeight, unitV), ContextRows.CeilDiv(imageWidth, unitH))
  {
    ContextRows.ImcuCount(imageHeight, unitV, c.v);
    ContextRows.ImcuCount(imageWidth, unitH, c.h);
  }

  /** The number of items left for the last part, when all parts before it are full. */
  function InLast(n: nat, part: nat): (last: nat)
    requires part > 0
    ensures last <= part
  {
    if n % part == 0 then part else n % part
  }

  lemma InLastIs(n: nat, part: nat, parts: nat)
    requires 0 < part <= 4 && parts > 0 && Pos(parts - 1, part, 0) < n <= Pos(parts, part, 0)
    ensures InLast(n, part) == n - Pos(parts - 1, part, 0) && 0 < InLast(n, part) <= part
  {
    hide Pos;
    var r := n - Pos(parts - 1, part, 0);
    NextPos(parts - 1, part, r);
    PartAndRest(parts - 1, part, r);
    if r < part {
      RestOf(n, part, parts - 1, r);
    } else {
      PartAndRest(parts, part, 0);
      RestOf(n, part, parts, 0);
    }
  }

  lemma PartAndRest(col: int, n: nat, i: int)
    ensures Pos(col, n, i) == n * col + i
  {
  }

  method Remaining(n: nat, part: nat) returns (last: nat)
    requires part > 0
    ensures last == InLast(n, part)
  {
    last := n % part;
    if last == 0 { last := part; }
  }

  // ---------------------------------------------------------------------------------------------
  // Blocks
  // ---------------------------------------------------------------------------------------------

  function Real(c: Comp, row: int, pos: int): Block {
    if 0 <= row < |c.grid| && 0 <= pos < |c.grid[row]| then c.grid[row][pos] else Zero()
  }

  /** Block x of the part of row that belongs to MCU column col of an interleaved scan. */
  function Cell(c: Comp, row: nat, col: nat, x: nat): Block
    decreases row
  {
    if row < c.height then
      if Pos(col, c.h, x) < c.width then Real(c, row, Pos(col, c.h, x)) else Dummy(Real(c, row, c.width - 1)[0])
    else if row == 0 || c.h == 0 then Zero()
    else Dummy(Cell(c, row - 1, col, c.h - 1)[0])
  }

  /** One row of the blocks of one component in one MCU. */
  function McuLine(c: Comp, alone: bool, row: nat, col: nat): (line: seq<Block>)
    ensures |line| == if alone then 1 else c.h
  {
    if alone then [Real(c, row, col)] else seq(c.h, x requires 0 <= x < c.h => Cell(c, row, col, x))
  }

  /** The first n lines of one component in one MCU; the MCU's lines start at block row row. */
  function McuComp(c: Comp, alone: bool, row: nat, col: nat, n: nat): (blocks: seq<Block>) {
    if n == 0 then [] else McuComp(c, alone, row, col, n - 1) + McuLine(c, alone, row + n - 1, col)
  }

  function Lines(c: Comp, alone: bool): nat {
    if alone then 1 else c.v
  }

  /** The scan names components of the picture. */
  predicate Known(p: Picture, scan: seq<nat>) {
    forall i :: 0 <= i < |scan| ==> scan[i] < |p.comps|
  }

  predicate ForStream(p: Picture, scan: seq<nat>) {
    Known(p, scan) && forall i :: 0 <= i < |scan| ==> p.comps[scan[i]].v > 0
  }

  function CompAt(p: Picture, scan: seq<nat>, i: nat): Comp
    requires Known(p, scan) && i < |scan|
  {
    p.comps[scan[i]]
  }

  /** The blocks of the first n components of the MCU at iMCU row r, MCU row y within it, column col. */
  function Mcu(p: Picture, scan: seq<nat>, r: nat, y: nat, col: nat, n: nat): (blocks: seq<Block>)
    requires n <= |scan| && Known(p, scan)
  {
    if n == 0 then []
    else Mcu(p, scan, r, y, col, n - 1) + McuPart(CompAt(p, scan, n - 1), |scan| == 1, r, y, col)
  }

  /** The blocks of one component in one MCU. */
  function McuPart(c: Comp, alone: bool, r: nat, y: nat, col: nat): (blocks: seq<Block>) {
    McuComp(c, alone, StartRow(c, r, y), col, Lines(c, alone))
  }

  function StartRow(c: Comp, r: nat, y: nat): (row: nat)
    ensures row == Pos(r, c.v, y)
  {
    r * c.v + y
  }

  // ---------------------------------------------------------------------------------------------
  // The stream
  // ---------------------------------------------------------------------------------------------

  function PerRow(p: Picture, scan: seq<nat>): (n: nat)
    requires Known(p, scan)
  {
    if |scan| == 1 then p.comps[scan[0]].width else p.across
  }

  /** MCU rows in iMCU row r. */
  function McuRows(p: Picture, scan: seq<nat>, r: nat): (n: nat)
    requires ForStream(p, scan)
  {
    if |scan| != 1 then 1
    else if r + 1 < p.total then p.comps[scan[0]].v
    else InLast(p.comps[scan[0]].height, p.comps[scan[0]].v)
  }

  /** The first n MCUs of one MCU row. */
  function LineUpTo(p: Picture, scan: seq<nat>, r: nat, y: nat, n: nat): seq<seq<Block>>
    requires ForStream(p, scan)
  {
    if n == 0 then [] else LineUpTo(p, scan, r, y, n - 1) + [Mcu(p, scan, r, y, n - 1, |scan|)]
  }

  /** The first y MCU rows of one iMCU row. */
  function RowUpTo(p: Picture, scan: seq<nat>, r: nat, y: nat): seq<seq<Block>>
    requires ForStream(p, scan)
  {
    if y == 0 then [] else RowUpTo(p, scan, r, y - 1) + LineUpTo(p, scan, r, y - 1, PerRow(p, scan))
  }

  /** The first r iMCU rows. */
  function StreamUpTo(p: Picture, scan: seq<nat>, r: nat): seq<seq<Block>>
    requires ForStream(p, scan)
  {
    if r == 0 then [] else StreamUpTo(p, scan, r - 1) + RowUpTo(p, scan, r - 1, McuRows(p, scan, r - 1))
  }

  /** All MCUs of the scan. */
  function Stream(p: Picture, scan: seq<nat>): seq<seq<Block>>
    requires ForStream(p, scan)
  {
    StreamUpTo(p, scan, p.total)
  }

  /** All MCUs before position (r, y, col). */
  function Before(p: Picture, scan: seq<nat>, r: nat, y: nat, col: nat): seq<seq<Block>>
    requires ForStream(p, scan)
  {
    StreamUpTo(p, scan, r) + RowUpTo(p, scan, r, y) + LineUpTo(p, scan, r, y, col)
  }

  lemma BeforeSteps(p: Picture, scan: seq<nat>, r: nat, y: nat, col: nat)
    requires ForStream(p, scan)
    ensures Before(p, scan, 0, 0, 0) == []
    ensures Before(p, scan, r, y, col + 1) == Before(p, scan, r, y, col) + [Mcu(p, scan, r, y, col, |scan|)]
    ensures Before(p, scan, r, y, PerRow(p, scan)) == Before(p, scan, r, y + 1, 0)
    ensures Before(p, scan, r, McuRows(p, scan, r), 0) == Before(p, scan, r + 1, 0, 0)
    ensures Before(p, scan, r, 0, 0) == StreamUpTo(p, scan, r)
  {
    hide Mcu;
  }

  lemma {:induction false} LineLength(p: Picture, scan: seq<nat>, r: nat, y: nat, n: nat)
    requires ForStream(p, scan)
    ensures |LineUpTo(p, scan, r, y, n)| == n
  {
    hide Mcu;
    if n > 0 {
      LineLength(p, scan, r, y, n - 1);
    }
  }

  lemma {:induction false} RowsGrow(p: Picture, scan: seq<nat>, r: nat, y: nat, y1: nat)
    requires ForStream(p, scan) && y <= y1
    ensures |RowUpTo(p, scan, r, y)| <= |RowUpTo(p, scan, r, y1)|
    decreases y1 - y
  {
    hide LineUpTo;
    if y < y1 {
      RowsGrow(p, scan, r, y, y1 - 1);
    }
  }

  lemma {:induction false} StreamGrows(p: Picture, scan: seq<nat>, r: nat, r1: nat)
    requires ForStream(p, scan) && r <= r1
    ensures |StreamUpTo(p, scan, r)| <= |StreamUpTo(p, scan, r1)|
    decreases r1 - r
  {
    hide RowUpTo;
    if r < r1 {
      StreamGrows(p, scan, r, r1 - 1);
    }
  }

  /** At every position there is at least one MCU still to come. */
  lemma MoreToCome(p: Picture, scan: seq<nat>, r: nat, y: nat, col: nat)
    requires ForStream(p, scan) && r < p.total && y < McuRows(p, scan, r) && col < PerRow(p, scan)
    ensures |Before(p, scan, r, y, col)| < |StreamUpTo(p, scan, p.total)|
  {
    hide LineUpTo;
    LineLength(p, scan, r, y, col);
    LineLength(p, scan, r, y, PerRow(p, scan));
    RowsGrow(p, scan, r, y + 1, McuRows(p, scan, r));
    StreamGrows(p, scan, r + 1, p.total);
  }

  // ---------------------------------------------------------------------------------------------
  // Scan geometry
  // ---------------------------------------------------------------------------------------------

  /** What the compressor computes at the start of a scan; the lists run over the components of the scan. */
  datatype Geometry = Geometry(perRow: nat, mcuWidth: seq<nat>, mcuHeight: seq<nat>, lastCol: seq<nat>,
      lastRow: seq<nat>, blocks: nat)

  function Width(c: Comp, alone: bool): nat {
    if alone then 1 else c.h
  }

  function Area(c: Comp, alone: bool): nat {
    Width(c, alone) * Lines(c, alone)
  }

  function Blocks(p: Picture, scan: seq<nat>, n: nat): nat
    requires n <= |scan| && Known(p, scan)
  {
    if n == 0 then 0
    else Blocks(p, scan, n - 1) + Area(CompAt(p, scan, n - 1), |scan| == 1)
  }

  ghost predicate Fits(g: Geometry, p: Picture, scan: seq<nat>)
    requires ValidScan(p, scan)
  {
    && g.perRow == PerRow(p, scan)
    && |g.mcuWidth| == |g.mcuHeight| == |g.lastCol| == |g.lastRow| == |scan|
    && g.blocks == Blocks(p, scan, |scan|) <= MAX_BLOCKS_IN_MCU
    && forall i :: 0 <= i < |scan| ==> FitsComp(g, p.comps[scan[i]], |scan| == 1, i)
  }

  ghost predicate FitsComp(g: Geometry, c: Comp, alone: bool, i: nat) {
    && i < |g.mcuWidth| == |g.mcuHeight| == |g.lastCol| == |g.lastRow| && c.h > 0 && c.v > 0
    && g.mcuWidth[i] == Width(c, alone) && g.mcuHeight[i] == Lines(c, alone)
    && g.lastCol[i] == (if alone then 1 else InLast(c.width, c.h))
    && g.lastRow[i] == InLast(c.height, c.v)
  }

  lemma NextBlocks(p: Picture, scan: seq<nat>, i: nat)
    requires Known(p, scan) && i < |scan|
    ensures Blocks(p, scan, i + 1) == Blocks(p, scan, i) + Area(CompAt(p, scan, i), |scan| == 1)
    ensures Blocks(p, scan, 0) == 0
  {
  }

  /** Refuses exactly the interleaved scans whose MCUs are too large. */
  method PerScanSetup(p: Picture, scan: seq<nat>) returns (ok: bool, g: Geometry)
    requires ValidScan(p, scan)
    ensures ok <==> |scan| == 1 || Blocks(p, scan, |scan|) <= MAX_BLOCKS_IN_MCU
    ensures ok ==> Fits(g, p, scan)
  {
    hide InLast, Blocks, Pos;
    NextBlocks(p, scan, 0);
    g := Geometry(0, [], [], [], [], 0);
    if |scan| == 1 {
      var c := p.comps[scan[0]];
      var tmp := Remaining(c.height, c.v);
      ok, g := true, Geometry(c.width, [1], [1], [1], [tmp], 1);
    } else {
      var mcuWidth: seq<nat>, mcuHeight: seq<nat>, lastCol: seq<nat>, lastRow: seq<nat> := [], [], [], [];
      var blocks: nat := 0;
      var i := 0;
      while i < |scan|
        invariant 0 <= i <= |scan|
        invariant |mcuWidth| == |mcuHeight| == |lastCol| == |lastRow| == i
        invariant blocks == Blocks(p, scan, i) <= MAX_BLOCKS_IN_MCU
        invariant forall j :: 0 <= j < i ==>
                    FitsComp(Geometry(0, mcuWidth, mcuHeight, lastCol, lastRow, 0), p.comps[scan[j]], false, j)
      {
        var c := p.comps[scan[i]];
        var col := Remaining(c.width, c.h);
        var row := Remaining(c.height, c.v);
        var mcublks := c.h * c.v;
        NextBlocks(p, scan, i);
        if blocks + mcublks > MAX_BLOCKS_IN_MCU {
          MoreBlocks(p, scan, i + 1, |scan|);
          return false, g;
        }
        blocks := blocks + mcublks;
        mcuWidth, mcuHeight, lastCol, lastRow := mcuWidth + [c.h], mcuHeight + [c.v], lastCol + [col], lastRow + [row];
        i := i + 1;
      }
      ok, g := true, Geometry(p.across, mcuWidth, mcuHeight, lastCol, lastRow, blocks);
      forall j | 0 <= j < i ensures FitsComp(g, p.comps[scan[j]], false, j) {
        assert FitsComp(Geometry(0, mcuWidth, mcuHeight, lastCol, lastRow, 0), p.comps[scan[j]], false, j);
      }
    }
  }

  lemma {:induction false} MoreBlocks(p: Picture, scan: seq<nat>, m: nat, n: nat)
    requires m <= n <= |scan| && Known(p, scan)
    ensures Blocks(p, scan, m) <= Blocks(p, scan, n)
  {
    if m < n {
      MoreBlocks(p, scan, m, n - 1);
    }
  }

  lemma {:induction false} CompLength(c: Comp, alone: bool, row: nat, col: nat, n: nat)
    ensures |McuComp(c, alone, row, col, n)| == n * Width(c, alone)
  {
    hide McuLine;
    if n > 0 {
      CompLength(c, alone, row, col, n - 1);
      PreviousMultiple(n, Width(c, alone));
    }
  }

  lemma {:induction false} McuLength(p: Picture, scan: seq<nat>, r: nat, y: nat, col: nat, n: nat)
    requires n <= |scan| && Known(p, scan)
    ensures |Mcu(p, scan, r, y, col, n)| == Blocks(p, scan, n)
  {
    hide McuComp;
    if n > 0 {
      McuLength(p, scan, r, y, col, n - 1);
      var c := p.comps[scan[n - 1]];
      CompLength(c, |scan| == 1, StartRow(c, r, y), col, Lines(c, |scan| == 1));
      ContextRows.Commute2(1, Lines(c, |scan| == 1), Width(c, |scan| == 1));
    }
  }
}
