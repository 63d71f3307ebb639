/**
 * Where the blocks of an MCU stream belong in the picture: every real block of the scan's components is in the stream,
 * and each block of the stream is a real one in its place, or a dummy that belongs nowhere.
 */
module ImagePlaces {
  import opened Coefficients
  import opened McuStream
  import CoefBlocks

  /** A block of the picture, by component, row and position within the row. */
  datatype Place = Kept(ci: nat, row: nat, pos: int) | Dropped

  predicate IsReal(p: Picture, pl: Place) {
    && pl.Kept? && pl.ci < |p.comps|
    && pl.row < |p.comps[pl.ci].grid| && 0 <= pl.pos < |p.comps[pl.ci].grid[pl.row]|
  }

  function BlockOf(p: Picture, pl: Place): Block
    requires IsReal(p, pl)
  {
    p.comps[pl.ci].grid[pl.row][pl.pos]
  }

  // ---------------------------------------------------------------------------------------------
  // The places, in the order of the stream
  // ---------------------------------------------------------------------------------------------

  function LinePlaces(c: Comp, ci: nat, alone: bool, row: nat, col: nat): (line: seq<Place>)
    ensures |line| == if alone then 1 else c.h
  {
    if alone then [Kept(ci, row, col)]
    else
      seq(c.h, x requires 0 <= x < c.h =>
        if row < c.height && Pos(col, c.h, x) < c.width then Kept(ci, row, Pos(col, c.h, x)) else Dropped)
  }

  function CompPlaces(c: Comp, ci: nat, alone: bool, row: nat, col: nat, n: nat): (places: seq<Place>) {
    if n == 0 then [] else CompPlaces(c, ci, alone, row, col, n - 1) + LinePlaces(c, ci, alone, row + n - 1, col)
  }

  function McuPlaces(p: Picture, scan: seq<nat>, r: nat, y: nat, col: nat, n: nat): (places: seq<Place>)
    requires n <= |scan| && Known(p, scan)
  {
    if n == 0 then []
    else
      var c := CompAt(p, scan, n - 1);
      McuPlaces(p, scan, r, y, col, n - 1)
      + CompPlaces(c, scan[n - 1], |scan| == 1, StartRow(c, r, y), col, Lines(c, |scan| == 1))
  }

  function PlacesInLine(p: Picture, scan: seq<nat>, r: nat, y: nat, n: nat): seq<seq<Place>>
    requires ForStream(p, scan)
  {
    if n == 0 then [] else PlacesInLine(p, scan, r, y, n - 1) + [McuPlaces(p, scan, r, y, n - 1, |scan|)]
  }

  function PlacesInRow(p: Picture, scan: seq<nat>, r: nat, y: nat): seq<seq<Place>>
    requires ForStream(p, scan)
  {
    if y == 0 then [] else PlacesInRow(p, scan, r, y - 1) + PlacesInLine(p, scan, r, y - 1, PerRow(p, scan))
  }

  function PlacesUpTo(p: Picture, scan: seq<nat>, r: nat): seq<seq<Place>>
    requires ForStream(p, scan)
  {
    if r == 0 then [] else PlacesUpTo(p, scan, r - 1) + PlacesInRow(p, scan, r - 1, McuRows(p, scan, r - 1))
  }

  /** The places of the whole stream. */
  function Places(p: Picture, scan: seq<nat>): seq<seq<Place>>
    requires ForStream(p, scan)
  {
    PlacesUpTo(p, scan, p.total)
  }

  // ---------------------------------------------------------------------------------------------
  // The blocks are those of their places
  // ---------------------------------------------------------------------------------------------

  /** Blocks with their places: those that are kept are the picture's, and belong to a component of the scan. */
  predicate Match(p: Picture, scan: seq<nat>, places: seq<Place>, blocks: seq<Block>) {
    && |places| == |blocks|
    && forall n :: 0 <= n < |places| && places[n].Kept? ==>
         IsReal(p, places[n]) && places[n].ci in scan && blocks[n] == BlockOf(p, places[n])
  }

  predicate AllMatch(p: Picture, scan: seq<nat>, places: seq<seq<Place>>, mcus: seq<seq<Block>>) {
    |places| == |mcus| && forall i :: 0 <= i < |places| ==> Match(p, scan, places[i], mcus[i])
  }

  lemma MatchConcat(p: Picture, scan: seq<nat>, a: seq<Place>, x: seq<Block>, b: seq<Place>, y: seq<Block>)
    requires Match(p, scan, a, x) && Match(p, scan, b, y)
    ensures Match(p, scan, a + b, x + y)
  {
    hide IsReal;
  }

  lemma AllMatchConcat(p: Picture, scan: seq<nat>, a: seq<seq<Place>>, x: seq<seq<Block>>, b: seq<seq<Place>>,
      y: seq<seq<Block>>)
    requires AllMatch(p, scan, a, x) && AllMatch(p, scan, b, y)
    ensures AllMatch(p, scan, a + b, x + y)
  {
    hide Match;
  }

  lemma LineMatches(p: Picture, scan: seq<nat>, ci: nat, alone: bool, row: nat, col: nat)
    requires ci in scan && ci < |p.comps| && Sized(p.comps[ci], p.total, p.across)
    requires if alone then row < p.comps[ci].height && col < p.comps[ci].width else col < p.across
    ensures Match(p, scan, LinePlaces(p.comps[ci], ci, alone, row, col), McuLine(p.comps[ci], alone, row, col))
  {
    hide Cell, Pos;
    var c := p.comps[ci];
    if !alone {
      forall x | 0 <= x < c.h && row < c.height && Pos(col, c.h, x) < c.width
        ensures Pos(col, c.h, x) >= 0 && Cell(c, row, col, x) == c.grid[row][Pos(col, c.h, x)]
      {
        NextPos(col, c.h, x);
        NextPos(0, c.h, 0);
        PosOrder(0, col, c.h);
        CoefBlocks.CellIsReal(c, row, col, x);
      }
    }
  }

  lemma {:induction false} CompMatches(p: Picture, scan: seq<nat>, ci: nat, alone: bool, row: nat, col: nat, n: nat)
    requires ci in scan && ci < |p.comps| && Sized(p.comps[ci], p.total, p.across)
    requires if alone then row + n <= p.comps[ci].height && col < p.comps[ci].width else col < p.across
    ensures Match(p, scan, CompPlaces(p.comps[ci], ci, alone, row, col, n), McuComp(p.comps[ci], alone, row, col, n))
  {
    hide Match, McuLine, LinePlaces;
    var c := p.comps[ci];
    if n == 0 {
      NothingMatches(p, scan);
    } else {
      CompMatches(p, scan, ci, alone, row, col, n - 1);
      LineMatches(p, scan, ci, alone, row + n - 1, col);
      MatchConcat(p, scan, CompPlaces(c, ci, alone, row, col, n - 1), McuComp(c, alone, row, col, n - 1),
                  LinePlaces(c, ci, alone, row + n - 1, col), McuLine(c, alone, row + n - 1, col));
    }
  }

  lemma NothingMatches(p: Picture, scan: seq<nat>)
    ensures Match(p, scan, [], []) && AllMatch(p, scan, [], [])
  {
  }

  /** The rows of a component that is alone in its scan are real ones. */
  lemma RowThere(p: Picture, scan: seq<nat>, r: nat, y: nat)
    requires ValidScan(p, scan) && ForStream(p, scan) && |scan| == 1 && r < p.total && y < McuRows(p, scan, r)
    ensures StartRow(p.comps[scan[0]], r, y) < p.comps[scan[0]].height
  {
    hide InLast;
    var c := p.comps[scan[0]];
    assert Sized(c, p.total, p.across);
    InLastIs(c.height, c.v, p.total);
    NextPos(r, c.v, y);
    if r + 1 < p.total {
      PosOrder(r + 1, p.total - 1, c.v);
    }
  }

  lemma {:induction false} McuMatches(p: Picture, scan: seq<nat>, r: nat, y: nat, col: nat, n: nat)
    requires ValidScan(p, scan) && ForStream(p, scan) && n <= |scan|
    requires r < p.total && y < McuRows(p, scan, r) && col < PerRow(p, scan)
    ensures Match(p, scan, McuPlaces(p, scan, r, y, col, n), Mcu(p, scan, r, y, col, n))
  {
    hide Match, McuComp, CompPlaces, McuRows, StartRow;
    if n == 0 {
      NothingMatches(p, scan);
    } else {
      var c, alone := CompAt(p, scan, n - 1), |scan| == 1;
      if alone {
        RowThere(p, scan, r, y);
      }
      McuMatches(p, scan, r, y, col, n - 1);
      assert Sized(p.comps[scan[n - 1]], p.total, p.across);
      CompMatches(p, scan, scan[n - 1], alone, StartRow(c, r, y), col, Lines(c, alone));
      MatchConcat(p, scan, McuPlaces(p, scan, r, y, col, n - 1), Mcu(p, scan, r, y, col, n - 1),
                  CompPlaces(c, scan[n - 1], alone, StartRow(c, r, y), col, Lines(c, alone)),
                  McuComp(c, alone, StartRow(c, r, y), col, Lines(c, alone)));
    }
  }

  lemma {:induction false} LinesMatch(p: Picture, scan: seq<nat>, r: nat, y: nat, n: nat)
    requires ValidScan(p, scan) && ForStream(p, scan)
    requires r < p.total && y < McuRows(p, scan, r) && n <= PerRow(p, scan)
    ensures AllMatch(p, scan, PlacesInLine(p, scan, r, y, n), LineUpTo(p, scan, r, y, n))
  {
    hide Match, AllMatch, Mcu, McuPlaces, McuRows, PerRow;
    if n == 0 {
      NothingMatches(p, scan);
    } else {
      LinesMatch(p, scan, r, y, n - 1);
      McuMatches(p, scan, r, y, n - 1, |scan|);
      OneMatches(p, scan, McuPlaces(p, scan, r, y, n - 1, |scan|), Mcu(p, scan, r, y, n - 1, |scan|));
      AllMatchConcat(p, scan, PlacesInLine(p, scan, r, y, n - 1), LineUpTo(p, scan, r, y, n - 1),
                     [McuPlaces(p, scan, r, y, n - 1, |scan|)], [Mcu(p, scan, r, y, n - 1, |scan|)]);
    }
  }

  lemma OneMatches(p: Picture, scan: seq<nat>, a: seq<Place>, x: seq<Block>)
    requires Match(p, scan, a, x)
    ensures AllMatch(p, scan, [a], [x])
  {
    hide Match;
  }

  lemma {:induction false} RowsMatch(p: Picture, scan: seq<nat>, r: nat, y: nat)
    requires ValidScan(p, scan) && ForStream(p, scan) && r < p.total && y <= McuRows(p, scan, r)
    ensures AllMatch(p, scan, PlacesInRow(p, scan, r, y), RowUpTo(p, scan, r, y))
  {
    hide AllMatch, PlacesInLine, LineUpTo, McuRows, PerRow;
    if y == 0 {
      NothingMatches(p, scan);
    } else {
      RowsMatch(p, scan, r, y - 1);
      LinesMatch(p, scan, r, y - 1, PerRow(p, scan));
      AllMatchConcat(p, scan, PlacesInRow(p, scan, r, y - 1), RowUpTo(p, scan, r, y - 1),
                     PlacesInLine(p, scan, r, y - 1, PerRow(p, scan)), LineUpTo(p, scan, r, y - 1, PerRow(p, scan)));
    }
  }

  lemma {:induction false} StreamMatches(p: Picture, scan: seq<nat>, r: nat)
    requires ValidScan(p, scan) && ForStream(p, scan) && r <= p.total
    ensures AllMatch(p, scan, PlacesUpTo(p, scan, r), StreamUpTo(p, scan, r))
  {
    hide AllMatch, PlacesInRow, RowUpTo, McuRows;
    if r == 0 {
      NothingMatches(p, scan);
    } else {
      StreamMatches(p, scan, r - 1);
      RowsMatch(p, scan, r - 1, McuRows(p, scan, r - 1));
      AllMatchConcat(p, scan, PlacesUpTo(p, scan, r - 1), StreamUpTo(p, scan, r - 1),
                     PlacesInRow(p, scan, r - 1, McuRows(p, scan, r - 1)),
                       RowUpTo(p, scan, r - 1, McuRows(p, scan, r - 1)));
    }
  }

  // ---------------------------------------------------------------------------------------------
  // Every real block has its place
  // ---------------------------------------------------------------------------------------------

  predicate Named(places: seq<seq<Place>>, pl: Place) {
    exists i :: 0 <= i < |places| && pl in places[i]
  }

  lemma NamedConcat(a: seq<seq<Place>>, b: seq<seq<Place>>, pl: Place)
    requires Named(a, pl) || Named(b, pl)
    ensures Named(a + b, pl)
  {
    if Named(a, pl) {
      var i :| 0 <= i < |a| && pl in a[i];
      assert pl in (a + b)[i];
    } else {
      var i :| 0 <= i < |b| && pl in b[i];
      assert pl in (a + b)[|a| + i];
    }
  }

  lemma {:induction false} InComp(c: Comp, ci: nat, alone: bool, row: nat, col: nat, yi: nat, n: nat, pl: Place)
    requires yi < n && pl in LinePlaces(c, ci, alone, row + yi, col)
    ensures pl in CompPlaces(c, ci, alone, row, col, n)
  {
    hide LinePlaces;
    if yi < n - 1 {
      InComp(c, ci, alone, row, col, yi, n - 1, pl);
    }
  }

  lemma {:induction false} InMcu(p: Picture, scan: seq<nat>, r: nat, y: nat, col: nat, k: nat, n: nat, pl: Place)
    requires k < n <= |scan| && Known(p, scan)
    requires var c := CompAt(p, scan, k);
             pl in CompPlaces(c, scan[k], |scan| == 1, StartRow(c, r, y), col, Lines(c, |scan| == 1))
    ensures pl in McuPlaces(p, scan, r, y, col, n)
  {
    hide CompPlaces, StartRow;
    if k < n - 1 {
      InMcu(p, scan, r, y, col, k, n - 1, pl);
    }
  }

  lemma {:induction false} InLine(p: Picture, scan: seq<nat>, r: nat, y: nat, col: nat, n: nat, pl: Place)
    requires ForStream(p, scan) && col < n && pl in McuPlaces(p, scan, r, y, col, |scan|)
    ensures Named(PlacesInLine(p, scan, r, y, n), pl)
  {
    hide McuPlaces, Named;
    if col < n - 1 {
      InLine(p, scan, r, y, col, n - 1, pl);
    } else {
      NamedOne(McuPlaces(p, scan, r, y, col, |scan|), pl);
    }
    NamedConcat(PlacesInLine(p, scan, r, y, n - 1), [McuPlaces(p, scan, r, y, n - 1, |scan|)], pl);
  }

  lemma NamedOne(places: seq<Place>, pl: Place)
    requires pl in places
    ensures Named([places], pl)
  {
    assert pl in [places][0];
  }

  lemma {:induction false} InRow(p: Picture, scan: seq<nat>, r: nat, y: nat, n: nat, pl: Place)
    requires ForStream(p, scan) && y < n && Named(PlacesInLine(p, scan, r, y, PerRow(p, scan)), pl)
    ensures Named(PlacesInRow(p, scan, r, n), pl)
  {
    hide PlacesInLine, Named, PerRow;
    if y < n - 1 {
      InRow(p, scan, r, y, n - 1, pl);
    }
    NamedConcat(PlacesInRow(p, scan, r, n - 1), PlacesInLine(p, scan, r, n - 1, PerRow(p, scan)), pl);
  }

  lemma {:induction false} InStream(p: Picture, scan: seq<nat>, r: nat, n: nat, pl: Place)
    requires ForStream(p, scan) && r < n && Named(PlacesInRow(p, scan, r, McuRows(p, scan, r)), pl)
    ensures Named(PlacesUpTo(p, scan, n), pl)
  {
    hide PlacesInRow, Named, McuRows;
    if r < n - 1 {
      InStream(p, scan, r, n - 1, pl);
    }
    NamedConcat(PlacesUpTo(p, scan, n - 1), PlacesInRow(p, scan, n - 1, McuRows(p, scan, n - 1)), pl);
  }

  /** Which part an index lies in, and where in it. */
  lemma PartOfIndex(i: nat, part: nat, parts: nat)
    requires part > 0 && i < Pos(parts, part, 0)
    ensures i / part < parts && 0 <= i % part < part && i == Pos(i / part, part, i % part)
  {
    if i / part >= parts {
      PosOrder(parts, i / part, part);
    }
  }

  lemma Covered(p: Picture, scan: seq<nat>, k: nat, pl: Place)
    requires ValidScan(p, scan) && ForStream(p, scan) && k < |scan| && IsReal(p, pl) && pl.ci == scan[k]
    ensures Named(Places(p, scan), pl)
  {
    hide Named, CompPlaces, McuPlaces, PlacesInLine, PlacesInRow, PlacesUpTo, InLast, Pos;
    var c, alone := CompAt(p, scan, k), |scan| == 1;
    assert Sized(p.comps[scan[k]], p.total, p.across);
    PartOfIndex(pl.row, c.v, p.total);
    PartOfIndex(pl.pos, c.h, p.across);
    var r, yi := pl.row / c.v, pl.row % c.v;
    NextPos(r, c.v, yi);
    if alone {
      InLastIs(c.height, c.v, p.total);
      LastRows(pl.row, c, p.total);
      InComp(c, scan[k], true, StartRow(c, r, yi), pl.pos, 0, 1, pl);
      InMcu(p, scan, r, yi, pl.pos, k, |scan|, pl);
      InLine(p, scan, r, yi, pl.pos, PerRow(p, scan), pl);
      InRow(p, scan, r, yi, McuRows(p, scan, r), pl);
    } else {
      var col, x := pl.pos / c.h, pl.pos % c.h;
      assert LinePlaces(c, scan[k], false, pl.row, col)[x] == pl;
      InComp(c, scan[k], false, StartRow(c, r, 0), col, yi, c.v, pl);
      InMcu(p, scan, r, 0, col, k, |scan|, pl);
      InLine(p, scan, r, 0, col, PerRow(p, scan), pl);
      InRow(p, scan, r, 0, McuRows(p, scan, r), pl);
    }
    InStream(p, scan, r, p.total, pl);
  }

  /** In the last part only the rows left over count. */
  lemma LastRows(row: nat, c: Comp, total: nat)
    requires c.v > 0 && row < c.height && total > 0 && row == Pos(row / c.v, c.v, row % c.v) && row / c.v < total
    requires InLast(c.height, c.v) == c.height - Pos(total - 1, c.v, 0)
    ensures row / c.v + 1 == total ==> row % c.v < InLast(c.height, c.v)
  {
    hide InLast, Pos;
    NextPos(row / c.v, c.v, row % c.v);
  }
}
