/**
 * The compressor's main controller in pass-through mode: scanlines come in as the application likes, the coefficient
 * controller may suspend, and iMCU rows of row groups go out.
 */
module PrepMain {
  import opened PrepContext

  /** An iMCU row holds the n row groups handed out from number first on. */
  predicate TakenAt(row: seq<seq<int>>, handed: seq<seq<int>>, first: nat, n: nat) {
    |row| == n && first + n <= |handed| && forall j :: 0 <= j < n ==> row[j] == handed[first + j]
  }

  predicate AllTaken(accepted: seq<seq<seq<int>>>, handed: seq<seq<int>>, n: nat) {
    forall i :: 0 <= i < |accepted| ==> TakenAt(accepted[i], handed, Start(i, n), n)
  }

  lemma StillTaken(accepted: seq<seq<seq<int>>>, was: seq<seq<int>>, handed: seq<seq<int>>, n: nat)
    requires AllTaken(accepted, was, n) && was <= handed
    ensures AllTaken(accepted, handed, n)
  {
    hide Start;
    forall i | 0 <= i < |accepted| ensures TakenAt(accepted[i], handed, Start(i, n), n) {
      assert TakenAt(accepted[i], was, Start(i, n), n);
    }
  }

  lemma TakeOne(accepted: seq<seq<seq<int>>>, handed: seq<seq<int>>, n: nat)
    requires AllTaken(accepted, handed, n) && |handed| == Start(|accepted|, n) + n
    ensures AllTaken(accepted + [handed[|handed| - n..]], handed, n)
  {
    hide Start;
    var all := accepted + [handed[|handed| - n..]];
    forall i | 0 <= i < |all| ensures TakenAt(all[i], handed, Start(i, n), n) {
      if i < |accepted| { assert TakenAt(accepted[i], handed, Start(i, n), n); }
    }
  }

  class MainController {
    const prep: PrepController
    const groupsPerRow: nat   // row groups in an iMCU row
    const totalRows: nat      // iMCU rows in the image
    var curRow: nat
    var rowgroupCtr: nat
    var suspended: bool
    var nextScanline: nat
    var accepted: seq<seq<seq<int>>>  // iMCU rows the coefficient controller has taken

    /** The iMCU rows taken are the row groups handed out, in order, none lost and none twice. */
    ghost predicate Delivered()
      reads this, prep
    {
      && |accepted| == curRow
      && |prep.handed| == Start(curRow, groupsPerRow) + rowgroupCtr
      && AllTaken(accepted, prep.handed, groupsPerRow)
    }

    /** An application sees one row less than was read while the controller is suspended. */
    ghost predicate Counted()
      reads this, prep
    {
      && prep.rowsToGo <= prep.height
      && prep.height - prep.rowsToGo == nextScanline + if suspended then 1 else 0
    }

    ghost predicate Valid()
      reads this, prep, prep.buf
    {
      && prep.Valid() && Delivered() && Counted()
      && groupsPerRow > 0 && curRow <= totalRows
      && Start(Start(totalRows, groupsPerRow), prep.v) >= prep.height
      && (suspended ==> rowgroupCtr == groupsPerRow && curRow < totalRows)
      && (!suspended ==> rowgroupCtr < groupsPerRow && (curRow == totalRows || prep.rowsToGo != 0))
    }

    constructor (v: nat, height: nat, groupsPerRow: nat, totalRows: nat)
      requires v > 0 && height > 0 && groupsPerRow > 0 && Start(Start(totalRows, groupsPerRow), v) >= height
      ensures Valid() && fresh(prep) && fresh(prep.buf) && nextScanline == 0 && accepted == []
      ensures prep.v == v && prep.height == height && this.groupsPerRow == groupsPerRow && this.totalRows == totalRows
    {
      prep := new PrepController(v, height);
      this.groupsPerRow, this.totalRows := groupsPerRow, totalRows;
      curRow, rowgroupCtr, suspended, nextScanline, accepted := 0, 0, false, 0, [];
      new;
      NextStart(0, groupsPerRow);
    }

    /** The coefficient controller takes the full main buffer, which is then empty. */
    method CompressRow()
      requires Delivered() && rowgroupCtr == groupsPerRow
      modifies this`accepted, this`rowgroupCtr, this`curRow
      ensures Delivered() && old(accepted) <= accepted && rowgroupCtr == 0 && curRow == old(curRow) + 1
    {
      hide Start, AllTaken, TakenAt;
      NextStart(curRow, groupsPerRow);
      TakeOne(accepted, prep.handed, groupsPerRow);
      accepted := accepted + [prep.handed[|prep.handed| - groupsPerRow..]];
      rowgroupCtr := 0;
      curRow := curRow + 1;
    }

    /**
     * Offers the rows of inputBuf; the coefficient controller takes iMCU rows until its patience runs out (never, if it
     * is negative).
     */
    method ProcessData(inputBuf: seq<int>, patience: int) returns (inRowCtr: nat)
      requires Valid() && nextScanline + |inputBuf| <= prep.height
      requires suspended ==> |inputBuf| > 0
      requires forall i :: 0 <= i < |inputBuf| ==> inputBuf[i] == nextScanline + i
      modifies this, prep, prep.buf
      ensures prep.Valid() && Delivered() && old(accepted) <= accepted && curRow <= totalRows
      ensures inRowCtr <= |inputBuf| && nextScanline == old(nextScanline)
      ensures prep.rowsToGo <= prep.height
      ensures prep.height - prep.rowsToGo == nextScanline + inRowCtr + if suspended then 1 else 0
      ensures suspended ==> rowgroupCtr == groupsPerRow && curRow < totalRows
      ensures !suspended ==> rowgroupCtr < groupsPerRow && (curRow == totalRows || prep.rowsToGo != 0)
      ensures !suspended && curRow < totalRows ==> inRowCtr == |inputBuf|
      ensures patience < 0 ==> !suspended
    {
      hide PrepController.Valid, Start, AllTaken, TakenAt;
      inRowCtr := 0;
      var left := patience;
      ghost var scan := nextScanline;
      while curRow < totalRows
        invariant prep.Valid() && Delivered() && old(accepted) <= accepted && curRow <= totalRows
        invariant nextScanline == scan && inRowCtr <= |inputBuf| && prep.rowsToGo <= prep.height
        invariant prep.height - prep.rowsToGo == nextScanline + inRowCtr + if suspended then 1 else 0
        invariant suspended ==> rowgroupCtr == groupsPerRow && |inputBuf| > inRowCtr
        invariant !suspended ==> rowgroupCtr < groupsPerRow
        invariant inRowCtr == 0 && !suspended && curRow < totalRows ==> prep.rowsToGo != 0
        invariant suspended ==> curRow < totalRows
        invariant patience < 0 ==> left < 0
        decreases totalRows - curRow
      {
        ghost var was := prep.handed;
        if rowgroupCtr < groupsPerRow {
          inRowCtr, rowgroupCtr := prep.PreProcessContext(inputBuf, inRowCtr, rowgroupCtr, groupsPerRow);
          StillTaken(accepted, was, prep.handed, groupsPerRow);
        }
        if rowgroupCtr != groupsPerRow {
          return;
        }
        if left == 0 {
          if !suspended {
            inRowCtr := inRowCtr - 1;
            suspended := true;
          }
          return;
        }
        left := left - 1;
        CompressRow();
        if suspended {
          inRowCtr := inRowCtr + 1;
          suspended := false;
        }
      }
    }

    /**
     * Writes the next numLines scanlines, or as many as are left; fewer are taken if the controller suspends.  When
     * the application has written the whole image, the coefficient controller has taken all of it.
     */
    method WriteScanlines(numLines: nat, patience: int) returns (written: nat)
      requires Valid() && nextScanline < prep.height && numLines > 0
      modifies this, prep, prep.buf
      ensures Valid() && nextScanline == old(nextScanline) + written && written <= numLines
      ensures old(accepted) <= accepted
      ensures patience < 0 ==> written == (if numLines < prep.height - old(nextScanline) then numLines
                                           else prep.height - old(nextScanline))
      ensures nextScanline == prep.height ==> |accepted| == totalRows
    {
      var rowsLeft := prep.height - nextScanline;
      var n: nat := if numLines > rowsLeft then rowsLeft else numLines;
      var first := nextScanline;
      var inputBuf := seq(n, i => first + i);
      written := ProcessData(inputBuf, patience);
      nextScanline := nextScanline + written;
      if curRow == totalRows { AllRead(); }
    }

    /** When all iMCU rows are out, all rows of the image have been read. */
    lemma AllRead()
      requires prep.Valid() && Delivered() && curRow == totalRows && groupsPerRow > 0
      requires Start(Start(totalRows, groupsPerRow), prep.v) >= prep.height
      ensures prep.rowsToGo == 0
    {
    }
  }

  /**
   * At every moment, the j-th row group of the i-th iMCU row taken was downsampled between its true neighbours: the
   * image rows of that group, of the one above and of the one below, the first and last rows of the image repeated
   * outside.
   */
  lemma EveryGroupIsRight(m: MainController, i: nat, j: nat, x: nat)
    requires m.Valid() && i < |m.accepted| && j < m.groupsPerRow && x < 3 * m.prep.v
    ensures j < |m.accepted[i]| && |m.accepted[i][j]| == 3 * m.prep.v
    ensures var r := (i * m.groupsPerRow + j) * m.prep.v - m.prep.v + x;
            m.accepted[i][j][x] == if r < 0 then 0 else if r >= m.prep.height then m.prep.height - 1 else r
  {
    hide Neighbourhood, Start;
    assert TakenAt(m.accepted[i], m.prep.handed, Start(i, m.groupsPerRow), m.groupsPerRow);
    NeighbourAt(Start(i, m.groupsPerRow) + j, m.prep.v, m.prep.height, x);
    StartIs(i, m.groupsPerRow);
  }

  lemma StartIs(i: nat, n: nat)
    ensures Start(i, n) == i * n
  {
  }
}
