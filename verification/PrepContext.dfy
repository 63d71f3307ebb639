/**
 * The compressor's preprocessor with context rows: three row groups in a wrapped buffer, whose pointer list is five row
 * groups high.  A row is known by its number in the image; all components go through buffers of this one shape.
 */
module PrepContext {
  import opened Integers

  /** The first row of row group k. */
  function Start(k: nat, v: nat): (r: nat) {
    k * v
  }

  lemma {:induction false} FirstOfSome(k: nat, v: nat)
    requires v > 0
    ensures k == 0 ==> Start(k, v) == 0
    ensures k > 0 ==> Start(k, v) >= v
  {
    if k > 0 {
      FirstOfSome(k - 1, v);
      NextStart(k - 1, v);
    }
  }

  lemma NextStart(k: nat, v: nat)
    ensures Start(k + 1, v) == Start(k, v) + v
    ensures Start(0, v) == 0
  {
  }

  /** What the downsampler should see for row group k: its rows, and one row group above and below. */
  function Neighbourhood(k: nat, v: nat, height: nat): (s: seq<int>)
    requires height > 0
    ensures |s| == 3 * v
  {
    seq(3 * v, j => Clamp(Start(k, v) - v + j, height))
  }

  /** Around row group k of v rows: the rows of the groups above, at and below, kept within the image. */
  lemma NeighbourAt(k: nat, v: nat, height: nat, j: nat)
    requires height > 0 && j < 3 * v
    ensures var r := k * v - v + j;
            Neighbourhood(k, v, height)[j] == if r < 0 then 0 else if r >= height then height - 1 else r
  {
    assert Neighbourhood(k, v, height)[j] == Clamp(Start(k, v) - v + j, height);
  }

  /** Where index i of the pointer list points. */
  function Wrap(i: int, v: nat): int {
    if i < 0 then i + 3 * v else if i >= 3 * v then i - 3 * v else i
  }

  predicate Wrapped(fake: seq<int>, v: nat) {
    |fake| == 5 * v && forall i :: 0 <= i < 5 * v ==> fake[i] == Wrap(i - v, v)
  }

  /** The pointer list: the true rows in the middle, wrapped around above and below. */
  method CreateContextBuffer(v: nat) returns (fake: array<int>)
    requires v > 0
    ensures fresh(fake) && Wrapped(fake[..], v)
  {
    fake := new int[5 * v];
    var j := 0;
    while j < 3 * v
      invariant 0 <= j <= 3 * v
      invariant forall a :: v <= a < v + j ==> fake[a] == a - v
    {
      fake[v + j] := j;
      j := j + 1;
    }
    var i := 0;
    while i < v
      invariant 0 <= i <= v
      invariant forall a :: v <= a < 4 * v ==> fake[a] == a - v
      invariant forall a :: 0 <= a < i ==> fake[a] == 2 * v + a
      invariant forall a :: 4 * v <= a < 4 * v + i ==> fake[a] == a - 4 * v
    {
      fake[i] := 2 * v + i;
      fake[4 * v + i] := i;
      i := i + 1;
    }
  }

  /** Around position base, the buffer shows the rows from one group above row start up to row stored. */
  ghost predicate Shows(buf: seq<int>, base: int, start: int, stored: int, v: nat, height: nat)
    requires |buf| == 3 * v && height > 0 && 0 <= base <= 2 * v && stored <= start + 2 * v
  {
    forall i :: base - v <= i < base + stored - start ==> buf[Wrap(i, v)] == Clamp(start + i - base, height)
  }

  /** Moving on by one row group changes nothing in what the buffer shows. */
  lemma MoveOn(buf: seq<int>, base: int, start: int, v: nat, height: nat)
    requires |buf| == 3 * v && height > 0 && (base == 0 || base == v || base == 2 * v) && v > 0
    requires Shows(buf, base, start, start + 2 * v, v, height)
    ensures Shows(buf, if base == 2 * v then 0 else base + v, start + v, start + 2 * v, v, height)
  {
    var next := if base == 2 * v then 0 else base + v;
    forall i | next - v <= i < next + v ensures buf[Wrap(i, v)] == Clamp(start + v + i - next, height) {
      assert Wrap(i, v) == Wrap(base + v + i - next, v);
    }
  }

  /** New rows go to places the pointer list does not show yet. */
  lemma StoreMore(was: seq<int>, buf: seq<int>, base: int, start: int, stored: int, n: nat, v: nat, height: nat)
    requires |was| == |buf| == 3 * v && height > 0 && (base == 0 || base == v || base == 2 * v) && v > 0
    requires start <= stored && stored + n <= start + 2 * v
    requires base == 2 * v ==> stored >= start + v
    requires stored < start + 2 * v
    requires Shows(was, base, start, stored, v, height)
    requires var next := Wrap(base + stored - start, v);
             && next + n <= 3 * v
             && (forall p :: next <= p < next + n ==> buf[p] == Clamp(stored + p - next, height))
             && (forall p :: 0 <= p < 3 * v && !(next <= p < next + n) ==> buf[p] == was[p])
    ensures Shows(buf, base, start, stored + n, v, height)
  {
    forall i | base - v <= i < base + stored + n - start ensures buf[Wrap(i, v)] == Clamp(start + i - base, height) {
      var p := Wrap(i, v);
      if i < base + stored - start {
        assert was[p] == Clamp(start + i - base, height);
      }
    }
  }

  /** The downsampler saw every row group as it should be. */
  predicate AllRight(handed: seq<seq<int>>, v: nat, height: nat) {
    height > 0 && forall k :: 0 <= k < |handed| ==> handed[k] == Neighbourhood(k, v, height)
  }

  /** Where the buffer stands after stored rows, when the row group at first is next. */
  predicate PlacedAt(base: int, first: int, stored: int, nextRow: int, stop: int, handed: nat, v: nat) {
    && (base == 0 || base == v || base == 2 * v)
    && first <= stored <= first + 2 * v
    && (handed > 0 ==> stored >= first + v)
    && (handed == 0 ==> base == 0)
    && stop == (if base == 2 * v then v else base + 2 * v)
    && nextRow == (if stored == first + 2 * v then stop else Wrap(base + stored - first, v))
  }

  /** There is room up to the stop, and the next row goes where the pointer list has it. */
  lemma Room(base: int, first: int, stored: int, nextRow: int, stop: int, handed: nat, v: nat)
    requires PlacedAt(base, first, stored, nextRow, stop, handed, v) && v > 0 && stored < first + 2 * v
    ensures 0 <= nextRow < stop <= 3 * v && stop - nextRow == first + 2 * v - stored
    ensures nextRow == Wrap(base + stored - first, v) && first <= stored && 0 <= Wrap(nextRow - 1, v) < 3 * v
    ensures base == 2 * v ==> stored >= first + v
    ensures base == 0 || base == v || base == 2 * v
    ensures stored == 0 && first == 0 && handed == 0 ==> nextRow == 0 && base == 0
  {
  }

  lemma Fill(base: int, first: int, stored: int, nextRow: int, stop: int, handed: nat, v: nat, n: nat)
    requires PlacedAt(base, first, stored, nextRow, stop, handed, v) && v > 0 && stored + n <= first + 2 * v
    requires stored < first + 2 * v
    ensures PlacedAt(base, first, stored + n, nextRow + n, stop, handed, v)
  {
  }

  class PrepController {
    const v: nat        // rows in a row group
    const height: nat   // rows in the image
    const buf: array<int>
    const fake: seq<int>  // the pointer list, never changed once made
    var rowsToGo: nat
    var nextBufRow: nat
    var thisRowGroup: nat
    var nextBufStop: nat
    ghost var stored: nat                // rows stored so far, padding included
    var handed: seq<seq<int>>            // what the downsampler saw, call by call

    ghost predicate Fixed() {
      v > 0 && height > 0 && buf.Length == 3 * v && Wrapped(fake, v)
    }

    ghost function First(): nat
      reads this
    {
      Start(|handed|, v)
    }

    ghost predicate Placed()
      reads this
    {
      PlacedAt(thisRowGroup, First(), stored, nextBufRow, nextBufStop, |handed|, v)
    }

    ghost predicate Progress()
      reads this
    {
      && rowsToGo <= height
      && (rowsToGo > 0 ==> stored == height - rowsToGo)
      && (rowsToGo == 0 ==> stored >= height)
    }

    ghost predicate Valid()
      reads this, buf
    {
      && Fixed() && AllRight(handed, v, height) && Placed() && Progress() && stored < First() + 2 * v
      && (stored > 0 ==> Shows(buf[..], thisRowGroup, First(), stored, v, height))
    }

    /** Allocates the buffers and starts the pass. */
    constructor (v: nat, height: nat)
      requires v > 0 && height > 0
      ensures Valid() && fresh(buf)
      ensures this.v == v && this.height == height && rowsToGo == height && handed == []
    {
      this.v, this.height := v, height;
      var f := CreateContextBuffer(v);
      fake := f[..];
      buf := new int[3 * v];
      rowsToGo, nextBufRow, thisRowGroup, nextBufStop := height, 0, 0, 2 * v;
      stored, handed := 0, [];
      new;
      NextStart(0, v);
    }

    /** Converted rows go straight to their places. */
    method ColorConvert(inputBuf: seq<int>, from: nat, to: nat, numRows: nat)
      requires Fixed() && from + numRows <= |inputBuf| && to + numRows <= 3 * v
      modifies buf
      ensures forall p :: to <= p < to + numRows ==> buf[p] == inputBuf[from + p - to]
      ensures forall p :: 0 <= p < 3 * v && !(to <= p < to + numRows) ==> buf[p] == old(buf[p])
    {
      var i := 0;
      while i < numRows
        invariant 0 <= i <= numRows && Fixed()
        invariant forall p :: to <= p < to + i ==> buf[p] == inputBuf[from + p - to]
        invariant forall p :: 0 <= p < 3 * v && !(to <= p < to + i) ==> buf[p] == old(buf[p])
      {
        assert fake[v + to + i] == to + i;
        buf[fake[v + to + i]] := inputBuf[from + i];
        i := i + 1;
      }
    }

    /** Dummy context above the image. */
    method PadTop()
      requires Fixed()
      modifies buf
      ensures forall p :: 0 <= p < 3 * v ==> buf[p] == if p >= 2 * v then old(buf[0]) else old(buf[p])
    {
      var row := 1;
      while row <= v
        invariant 1 <= row <= v + 1 && Fixed()
        invariant forall p :: 0 <= p < 3 * v ==> buf[p] == if p > 3 * v - row then old(buf[0]) else old(buf[p])
      {
        assert fake[v] == 0 && fake[v - row] == 3 * v - row;
        buf[fake[v - row]] := buf[fake[v]];
        row := row + 1;
      }
    }

    /** Repeats the row above inputRows. */
    method ExpandBottomEdge(inputRows: nat, outputRows: nat)
      requires Fixed() && inputRows <= outputRows <= 3 * v
      requires inputRows == 0 ==> outputRows < 3 * v
      modifies buf
      ensures forall p :: inputRows <= p < outputRows ==> buf[p] == old(buf[Wrap(inputRows - 1, v)])
      ensures forall p :: 0 <= p < 3 * v && !(inputRows <= p < outputRows) ==> buf[p] == old(buf[p])
    {
      var row := inputRows;
      while row < outputRows
        invariant inputRows <= row <= outputRows && Fixed()
        invariant forall p :: inputRows <= p < row ==> buf[p] == old(buf[Wrap(inputRows - 1, v)])
        invariant forall p :: 0 <= p < 3 * v && !(inputRows <= p < row) ==> buf[p] == old(buf[p])
      {
        assert fake[v + row] == row && fake[v + inputRows - 1] == Wrap(inputRows - 1, v);
        buf[fake[v + row]] := buf[fake[v + inputRows - 1]];
        row := row + 1;
      }
    }

    /** One call of the downsampler. */
    method Downsample()
      requires Fixed() && AllRight(handed, v, height) && Placed() && stored == First() + 2 * v
      requires Shows(buf[..], thisRowGroup, First(), stored, v, height)
      modifies this`handed
      ensures handed == old(handed) + [Neighbourhood(|old(handed)|, v, height)]
    {
      var window := seq(3 * v, j requires 0 <= j < 3 * v && Fixed() && 0 <= thisRowGroup <= 2 * v reads this, buf =>
        assert fake[thisRowGroup + j] == Wrap(thisRowGroup - v + j, v); buf[fake[thisRowGroup + j]]);
      forall j | 0 <= j < 3 * v ensures window[j] == Neighbourhood(|handed|, v, height)[j] {
        assert fake[thisRowGroup + j] == Wrap(thisRowGroup - v + j, v);
      }
      assert window == Neighbourhood(|handed|, v, height);
      handed := handed + [window];
    }

    /** Valid, except that the buffer may have reached its stop. */
    ghost predicate Ready()
      reads this, buf
    {
      && Fixed() && AllRight(handed, v, height) && Placed() && Progress()
      && (stored > 0 ==> Shows(buf[..], thisRowGroup, First(), stored, v, height))
    }

    /** Converts numRows rows of the image, with the dummy context above the first ones. */
    method Convert(inputBuf: seq<int>, inRowCtr: nat, numRows: nat)
      requires Valid() && 0 < numRows <= rowsToGo && inRowCtr + numRows <= |inputBuf|
        && nextBufRow + numRows <= nextBufStop
      requires forall i :: inRowCtr <= i < |inputBuf| ==> inputBuf[i] == height - rowsToGo + i - inRowCtr
      modifies buf
      ensures stored + numRows <= First() + 2 * v
      ensures Shows(buf[..], thisRowGroup, First(), stored + numRows, v, height)
    {
      hide Shows, Clamp, AllRight, Wrapped, PlacedAt, Wrap;
      Room(thisRowGroup, First(), stored, nextBufRow, nextBufStop, |handed|, v);
      AtTheTop();
      ghost var was := buf[..];
      ColorConvert(inputBuf, inRowCtr, nextBufRow, numRows);
      if rowsToGo == height {
        ghost var converted := buf[..];
        PadTop();
        ShowsFirst(converted, buf[..], First(), numRows, v, height);
      } else {
        ShowsMore(was, buf[..], thisRowGroup, First(), stored, numRows, v, height);
      }
    }

    /** The next rows of the image, as many as fit or as there are. */
    method ReadRows(inputBuf: seq<int>, inRowCtr: nat) returns (ctr: nat)
      requires Valid() && inRowCtr < |inputBuf| <= inRowCtr + rowsToGo
      requires forall i :: inRowCtr <= i < |inputBuf| ==> inputBuf[i] == height - rowsToGo + i - inRowCtr
      modifies this`rowsToGo, this`nextBufRow, this`stored, buf
      ensures inRowCtr < ctr <= |inputBuf| && rowsToGo == old(rowsToGo) - (ctr - inRowCtr)
      ensures Ready()
    {
      hide Shows, Clamp, AllRight, Wrapped, PlacedAt, Wrap;
      Room(thisRowGroup, First(), stored, nextBufRow, nextBufStop, |handed|, v);
      var inRows := |inputBuf| - inRowCtr;
      var numRows: nat := nextBufStop - nextBufRow;
      if inRows < numRows { numRows := inRows; }
      Fill(thisRowGroup, First(), stored, nextBufRow, nextBufStop, |handed|, v, numRows);
      AtTheTop();
      Convert(inputBuf, inRowCtr, numRows);
      ctr := inRowCtr + numRows;
      nextBufRow := nextBufRow + numRows;
      rowsToGo := rowsToGo - numRows;
      stored := stored + numRows;
    }

    lemma AtTheTop()
      requires v > 0 && height > 0 && Placed() && Progress()
      ensures rowsToGo == height ==> stored == 0 && handed == [] && First() == 0 && thisRowGroup == 0
      ensures rowsToGo != height ==> stored > 0
    {
      FirstOfSome(|handed|, v);
    }

    lemma NotAtTheVeryTop()
      requires v > 0 && Placed() && stored > 0 && stored < First() + 2 * v
      ensures nextBufRow == 0 ==> nextBufStop < 3 * v
    {
      FirstOfSome(|handed|, v);
    }

    /** At the bottom of the image: repeats the last row up to the stop. */
    method PadRows()
      requires Valid() && rowsToGo == 0
      modifies this`nextBufRow, this`stored, buf
      ensures Ready() && stored == First() + 2 * v
    {
      hide Shows, Clamp, Start, AllRight, Wrapped, PlacedAt, Wrap;
      Room(thisRowGroup, First(), stored, nextBufRow, nextBufStop, |handed|, v);
      Fill(thisRowGroup, First(), stored, nextBufRow, nextBufStop, |handed|, v, First() + 2 * v - stored);
      ghost var was, first, base, before := buf[..], First(), thisRowGroup, stored;
      NotAtTheVeryTop();
      if nextBufRow < nextBufStop {
        ExpandBottomEdge(nextBufRow, nextBufStop);
        nextBufRow := nextBufStop;
      }
      stored := First() + 2 * v;
      ShowsPadding(was, buf[..], base, first, before, v, height);
    }

    /** One row group to the downsampler, and on to the next. */
    method HandOn()
      requires Ready() && stored == First() + 2 * v
      modifies this`handed, this`thisRowGroup, this`nextBufRow, this`nextBufStop
      ensures Valid() && |handed| == |old(handed)| + 1 && old(handed) <= handed
    {
      hide Shows, Clamp, Start, Wrapped, Neighbourhood;
      Downsample();
      NextStart(|handed| - 1, v);
      MoveOn(buf[..], thisRowGroup, First() - v, v, height);
      thisRowGroup := thisRowGroup + v;
      if thisRowGroup >= 3 * v { thisRowGroup := 0; }
      if nextBufRow >= 3 * v { nextBufRow := 0; }
      nextBufStop := nextBufRow + v;
    }

    /**
     * Takes rows from inputBuf and hands out row groups, each with its true neighbours, until the output is full or
     * more rows are needed; at the bottom of the image the output is always filled.
     */
    method PreProcessContext(inputBuf: seq<int>, inRowCtr: nat, outRowGroupCtr: nat, outRowGroupsAvail: nat)
      returns (ctr: nat, groups: nat)
      requires Valid() && inRowCtr <= |inputBuf| <= inRowCtr + rowsToGo && outRowGroupCtr <= outRowGroupsAvail
      requires forall i :: inRowCtr <= i < |inputBuf| ==> inputBuf[i] == height - rowsToGo + i - inRowCtr
      modifies this, buf
      ensures Valid()
      ensures inRowCtr <= ctr <= |inputBuf| && rowsToGo == old(rowsToGo) - (ctr - inRowCtr)
      ensures outRowGroupCtr <= groups <= outRowGroupsAvail
      ensures old(handed) <= handed && |handed| == |old(handed)| + groups - outRowGroupCtr
      ensures groups == outRowGroupsAvail || (ctr == |inputBuf| && rowsToGo != 0)
      ensures groups > outRowGroupCtr && old(rowsToGo) > 0 ==> ctr > inRowCtr
    {
      hide Valid, Ready, Placed, AllRight, Shows, Wrapped, Start;
      ctr, groups := inRowCtr, outRowGroupCtr;
      while groups < outRowGroupsAvail
        invariant Valid() && inRowCtr <= ctr <= |inputBuf| && rowsToGo == old(rowsToGo) - (ctr - inRowCtr)
        invariant outRowGroupCtr <= groups <= outRowGroupsAvail
        invariant old(handed) <= handed && |handed| == |old(handed)| + groups - outRowGroupCtr
        invariant groups > outRowGroupCtr && old(rowsToGo) > 0 ==> ctr > inRowCtr
        decreases outRowGroupsAvail - groups + |inputBuf| - ctr
      {
        if ctr < |inputBuf| {
          ctr := ReadRows(inputBuf, ctr);
        } else {
          if rowsToGo != 0 { break; }
          PadRows();
        }
        AtStop();
        if nextBufRow == nextBufStop {
          HandOn();
          groups := groups + 1;
        }
      }
    }

    lemma AtStop()
      requires Ready()
      ensures nextBufRow == nextBufStop <==> stored == First() + 2 * v
      ensures stored != First() + 2 * v ==> Valid()
    {
      hide Shows, AllRight, Start, Wrapped;
    }
  }

  lemma ShowsFirst(converted: seq<int>, buf: seq<int>, start: int, n: nat, v: nat, height: nat)
    requires |converted| == |buf| == 3 * v && v > 0 && start == 0 && 0 < n <= 2 * v && n <= height
    requires forall p :: 0 <= p < n ==> converted[p] == p
    requires forall p :: 0 <= p < 3 * v ==> buf[p] == if p >= 2 * v then converted[0] else converted[p]
    ensures Shows(buf, 0, start, n, v, height)
  {
  }

  lemma ShowsMore(was: seq<int>, buf: seq<int>, base: int, start: int, stored: nat, n: nat, v: nat, height: nat)
    requires |was| == |buf| == 3 * v && (base == 0 || base == v || base == 2 * v) && v > 0
    requires start <= stored < start + 2 * v && stored + n <= start + 2 * v && 0 < stored + n <= height
    requires base == 2 * v ==> stored >= start + v
    requires Shows(was, base, start, stored, v, height)
    requires var next := Wrap(base + stored - start, v);
             && next + n <= 3 * v
             && (forall p :: next <= p < next + n ==> buf[p] == stored + p - next)
             && (forall p :: 0 <= p < 3 * v && !(next <= p < next + n) ==> buf[p] == was[p])
    ensures Shows(buf, base, start, stored + n, v, height)
  {
    hide Shows;
    StoreMore(was, buf, base, start, stored, n, v, height);
  }

  lemma ShowsPadding(was: seq<int>, buf: seq<int>, base: int, start: int, stored: nat, v: nat, height: nat)
    requires |was| == |buf| == 3 * v && (base == 0 || base == v || base == 2 * v) && v > 0 && 0 < height <= stored
    requires start <= stored < start + 2 * v
    requires base == 2 * v ==> stored >= start + v
    requires Shows(was, base, start, stored, v, height)
    requires var next := Wrap(base + stored - start, v); var n := start + 2 * v - stored;
             && next + n <= 3 * v
             && (forall p :: next <= p < next + n ==> buf[p] == was[Wrap(next - 1, v)])
             && (forall p :: 0 <= p < 3 * v && !(next <= p < next + n) ==> buf[p] == was[p])
    ensures Shows(buf, base, start, start + 2 * v, v, height)
  {
    var next := Wrap(base + stored - start, v);
    assert Wrap(next - 1, v) == Wrap(base + stored - start - 1, v);
    StoreMore(was, buf, base, start, stored, start + 2 * v - stored, v, height);
  }
}
