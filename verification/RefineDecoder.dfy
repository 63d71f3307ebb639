/**
 * The AC refinement decoder.  The data source may suspend before any read; new coefficients are then taken back, while
 * correction bits that were already applied stay and are recognised on the next call.
 */
module RefineDecoder {
  import opened Words
  import opened BitStrings
  import opened Coefficients
  import opened HuffTables
  import opened HuffDerived
  import opened HuffBitReader
  import opened HuffDecode
  import opened RefineDecoding

  /** b agrees with cur except that some nonzero coefficients already have the value they get in the end. */
  predicate Mixed(b: seq<Coef>, cur: seq<Coef>, final: seq<Coef>) {
    && |b| == |cur| == |final| == DCTSIZE2
    && forall j :: 0 <= j < DCTSIZE2 ==> b[j] == cur[j] || (cur[j] != 0 && b[j] == final[j])
  }

  /** From the block as it came, cur differs in final values of old coefficients and in new coefficients at newnz. */
  predicate Undoable(orig: seq<Coef>, cur: seq<Coef>, final: seq<Coef>, newnz: seq<nat>) {
    && |orig| == |cur| == |final| == DCTSIZE2
    && (forall i :: 0 <= i < |newnz| ==> newnz[i] < DCTSIZE2 && orig[newnz[i]] == 0)
    && forall j :: 0 <= j < DCTSIZE2 ==>
         cur[j] == orig[j] || (orig[j] != 0 && cur[j] == final[j] && cur[j] != 0) || (orig[j] == 0 && j in newnz)
  }

  function Cleared(b: seq<Coef>, positions: seq<nat>): (c: seq<Coef>)
    ensures |c| == |b|
  {
    seq(|b|, j requires 0 <= j < |b| => if j in positions then 0 else b[j])
  }

  lemma UndoneIsMixed(b: seq<Coef>, orig: seq<Coef>, cur: seq<Coef>, final: seq<Coef>, newnz: seq<nat>)
    requires Mixed(b, cur, final) && Undoable(orig, cur, final, newnz)
    ensures Mixed(Cleared(b, newnz), orig, final)
  {
    forall j | 0 <= j < DCTSIZE2
      ensures Cleared(b, newnz)[j] == orig[j] || (orig[j] != 0 && Cleared(b, newnz)[j] == final[j])
    {
      if j in newnz {
        var i :| 0 <= i < |newnz| && newnz[i] == j;
      }
    }
  }

  /** Applying a correction bit to a coefficient that may have it already. */
  lemma MixedCorrected(b: seq<Coef>, cur: seq<Coef>, final: seq<Coef>, i: nat, bit0: bit, al: nat)
    requires Mixed(b, cur, final) && Marked(cur, final, al) && i < DCTSIZE2 && cur[i] != 0 && al <= 13
    ensures b[i] != 0 && Corrected(cur[i], bit0, al) != 0
    ensures Mixed(b[i := Corrected(b[i], bit0, al)], cur[i := Corrected(cur[i], bit0, al)], final)
  {
    BitOfZero(al);
    hide BitOf, Grown;
    CorrectedMarks(cur[i], bit0, al);
  }

  lemma BitOfZero(al: nat)
    ensures BitOf(0, al) == 0
  {
    QuotientOfZero(Pow2(al));
  }

  class RefineDecoder {
    const band: Band
    const t: Table
    const tbl: DecodeTable
    var perm: BitReader      // reading state as of the last completed block
    var eobrun: nat
    var badCodes: nat

    ghost predicate Set() {
      IsBand(band) && Usable(tbl, t) && IsTable(t) && Legal(t.bits)
    }

    ghost predicate Valid()
      reads this, perm
    {
      Set() && perm.Valid()
    }

    constructor (band: Band, t: Table, tbl: DecodeTable, br: BitReader)
      requires IsBand(band) && Usable(tbl, t) && br.Valid()
      ensures Valid() && this.band == band && this.t == t && perm == br && eobrun == 0 && badCodes == 0
    {
      this.band, this.t, this.tbl, perm, eobrun, badCodes := band, t, tbl, br, 0, 0;
    }

    /** The source suspends before this read,
      if patience is used up; a negative patience lasts for ever.  Once the marker
     * that ends the segment has been seen nothing more is read from the source. */
    predicate Suspends(w: BitReader, patience: int)
      reads w
    {
      patience == 0 && w.unreadMarker == 0
    }

    /** The working copy has moved on from position at, and has reported a shortage exactly if it passed the end. */
    ghost predicate Moved(w: BitReader, insufficient: bool, at: nat)
      reads w
    {
      w.Valid() && w.at >= at && w.insufficientData == (insufficient || w.at > 8 * |w.data|)
    }

    method ReadBit(w: BitReader) returns (b: bit)
      requires w.Valid()
      modifies w
      ensures Moved(w, old(w.insufficientData), old(w.at)) && w.at == old(w.at) + 1 && b == BitAt(w.data, old(w.at))
    {
      hide BitReader.Valid, BitAt, BitsAt;
      NextBit(w.data, w.at, 0);
      b := w.Get(1);
    }

    method ReadSymbol(w: BitReader) returns (r: nat, s: nat)
      requires Set() && w.Valid()
      modifies w, this`badCodes
      ensures Moved(w, old(w.insufficientData), old(w.at)) && r <= 15 && s <= 15
      ensures SymbolRead(t, w.data, old(w.at)) == (16 * r + s, w.at)
    {
      hide BitReader.Valid, Usable, IsBand, Legal, IsTable, Decoded, SymbolRead;
      ghost var at := w.at;
      var sym, bad := Decode(w, tbl, t);
      DecodedIsRead(t, w.data, at, sym, w.at, bad);
      if bad {
        badCodes := badCodes + 1;
      }
      r, s := sym / 16, sym % 16;
    }

    /** Corrects the coefficient at position i by one bit. */
    method Correct(blk: array<Coef>, i: nat, b: bit)
      requires blk.Length == DCTSIZE2 && i < DCTSIZE2
      modifies blk
      ensures blk[..] == old(blk[..])[i := Corrected(old(blk[i]), b, band.al)]
    {
      if b == 1 {
        if BitOf(blk[i], band.al) == 0 {  // else it has been done already
          blk[i] := Grown(blk[i], band.al);
        }
      }
    }

    /** Positions of the band before k and the last one have their final values. */
    ghost predicate Settled(cur: seq<Coef>, final: seq<Coef>, k: nat)
      requires IsBand(band) && |cur| == |final| == DCTSIZE2
    {
      forall j :: band.ss <= j < k && j < band.se ==> final[band.order[j]] == cur[band.order[j]]
    }

    /** What follows the walk turns its block into final. */
    ghost predicate Leads(walk: Walk, final: seq<Coef>)
      requires IsBand(band) && |walk.b| == |final| == DCTSIZE2
    {
      Marked(walk.b, final, band.al) && Settled(walk.b, final, walk.k)
    }

    /**
     * At position k: cur is the block of an uninterrupted decoder, and everything can be undone as long as bits are
     * read.
     */
    ghost predicate Tracks(b: seq<Coef>, orig: seq<Coef>, cur: seq<Coef>, final: seq<Coef>, newnz: seq<nat>, k: nat)
      requires IsBand(band)
    {
      && band.ss <= k && Mixed(b, cur, final) && Marked(cur, final, band.al)
      && (k <= band.se ==> Undoable(orig, cur, final, newnz) && forall i :: 0 <= i < |newnz| ==> Passed(newnz[i], k))
    }

    ghost predicate Passed(i: nat, k: nat)
      requires IsBand(band) && k <= band.se
    {
      exists j :: band.ss <= j < k && band.order[j] == i
    }

    /** Correcting the coefficient at position k. */
    lemma TracksCorrected(b: seq<Coef>, orig: seq<Coef>, cur: seq<Coef>, final: seq<Coef>, newnz: seq<nat>, k: nat,
        bit0: bit)
      requires IsBand(band) && k <= band.se && Tracks(b, orig, cur, final, newnz, k) && cur[band.order[k]] != 0
      requires var cur1 := cur[band.order[k] := Corrected(cur[band.order[k]], bit0, band.al)];
               Marked(cur1, final, band.al) && Settled(cur1, final, k + 1)
      ensures var i := band.order[k];
              Tracks(b[i := Corrected(b[i], bit0, band.al)], orig, cur[i := Corrected(cur[i], bit0, band.al)], final,
                newnz, k + 1)
    {
      hide BitOf, Corrected, Marked;
      var i := band.order[k];
      MixedCorrected(b, cur, final, i, bit0, band.al);
      assert i !in newnz;
      if k + 1 <= band.se {
        assert forall m :: 0 <= m < |newnz| && Passed(newnz[m], k) ==> Passed(newnz[m], k + 1);
      }
    }

    lemma TracksPassed(b: seq<Coef>, orig: seq<Coef>, cur: seq<Coef>, final: seq<Coef>, newnz: seq<nat>, k: nat)
      requires IsBand(band) && k <= band.se && Tracks(b, orig, cur, final, newnz, k)
      ensures Tracks(b, orig, cur, final, newnz, k + 1)
    {
      hide BitOf, Marked, Mixed, Undoable;
      if k + 1 <= band.se {
        assert forall m :: 0 <= m < |newnz| && Passed(newnz[m], k) ==> Passed(newnz[m], k + 1);
      }
    }

    lemma StepLeads(cur: seq<Coef>, k: nat, r: nat, data: seq<byte>, at: nat, final: seq<Coef>)
      requires IsBand(band) && |cur| == |final| == DCTSIZE2 && k <= band.se + 1
      requires Leads(Advance(band, cur, k, r, data, at), final)
      ensures Marked(cur, final, band.al) && Settled(cur, final, k)
    {
      hide Advance, Marked;
      AdvanceMarks(band, cur, k, r, data, at);
      var walk := Advance(band, cur, k, r, data, at);
      MarkedTwice(cur, walk.b, final, band.al);
      forall j | band.ss <= j < k && j < band.se
        ensures final[band.order[j]] == cur[band.order[j]]
      {
        AdvanceKeeps(band, cur, k, r, data, at, j);
      }
    }

    lemma AdvanceUnroll(cur: seq<Coef>, k: nat, r: nat, data: seq<byte>, at: nat)
      requires IsBand(band) && |cur| == DCTSIZE2
      ensures Advance(band, cur, k, r, data, at)
              == if k > band.se then Walk(cur, k, at)
                 else if cur[band.order[k]] != 0 then
                   Advance(band, cur[band.order[k] := Corrected(cur[band.order[k]], BitAt(data, at), band.al)],
                           k + 1, r, data, at + 1)
                 else if r == 0 then Walk(cur, k, at)
                 else Advance(band, cur, k + 1, r - 1, data, at)
    {
    }

    lemma ZeroAlike(b: seq<Coef>, cur: seq<Coef>, final: seq<Coef>, i: nat)
      requires Mixed(b, cur, final) && Marked(cur, final, band.al) && IsBand(band) && i < DCTSIZE2
      ensures b[i] == 0 <==> cur[i] == 0
    {
      hide BitOf;
      BitOfZero(band.al);
    }

    /** Walks over nonzero coefficients, correcting them, and over r zeros. */
    method Pass(w: BitReader, blk: array<Coef>, k0: nat, r0: nat, patience0: int, ghost orig: seq<Coef>,
        ghost cur0: seq<Coef>, ghost final: seq<Coef>, ghost newnz: seq<nat>)
      returns (ok: bool, k: nat, patience: int, ghost cur: seq<Coef>)
      requires IsBand(band) && w.Valid() && blk.Length == DCTSIZE2 && k0 <= band.se && |cur0| == |final| == DCTSIZE2
      requires Tracks(blk[..], orig, cur0, final, newnz, k0) && Leads(Advance(band, cur0, k0, r0, w.data, w.at), final)
      modifies w, blk
      ensures Moved(w, old(w.insufficientData), old(w.at)) && k0 <= k <= band.se + 1
      ensures Tracks(blk[..], orig, cur, final, newnz, k) && (!ok ==> k <= band.se)
      ensures ok ==> Walk(cur, k, w.at) == Advance(band, cur0, k0, r0, w.data, old(w.at))
      ensures patience0 < 0 ==> ok && patience < 0
    {
      hide BitReader.Valid, IsBand, Tracks, Leads, Advance, Corrected, BitAt, Settled;
      OrderInRange();
      StillMoved(w);
      k, patience, cur := k0, patience0, cur0;
      var r: nat := r0;
      while k <= band.se
        invariant Moved(w, old(w.insufficientData), old(w.at)) && k0 <= k <= band.se + 1
        invariant |cur| == DCTSIZE2 && Tracks(blk[..], orig, cur, final, newnz, k)
        invariant Advance(band, cur, k, r, w.data, w.at) == Advance(band, cur0, k0, r0, w.data, old(w.at))
        invariant patience0 < 0 ==> patience < 0
      {
        AdvanceUnroll(cur, k, r, w.data, w.at);
        var i := band.order[k];
        TracksParts(blk[..], orig, cur, final, newnz, k);
        ZeroAlike(blk[..], cur, final, i);
        if blk[i] != 0 {
          if Suspends(w, patience) {
            ok := false;
            return;
          }
          patience := if patience > 0 then patience - 1 else patience;
          ghost var at := w.at;
          var b := ReadBit(w);
          ghost var cur1 := cur[i := Corrected(cur[i], b, band.al)];
          StepLeads(cur1, k + 1, r, w.data, w.at, final);
          TracksCorrected(blk[..], orig, cur, final, newnz, k, b);
          Correct(blk, i, b);
          cur := cur1;
        } else {
          if r == 0 {
            break;  // reached the target zero coefficient
          }
          TracksPassed(blk[..], orig, cur, final, newnz, k);
          r := r - 1;
        }
        k := k + 1;
      }
      AdvanceUnroll(cur, k, r, w.data, w.at);
      ok := true;
    }

    lemma OrderInRange()
      requires IsBand(band)
      ensures |band.order| > band.se + 1 && band.se <= 63 && forall k :: 0 <= k <= band.se + 1 ==>
        band.order[k] < DCTSIZE2
    {
    }

    lemma StillMoved(w: BitReader)
      requires w.Valid()
      ensures Moved(w, w.insufficientData, w.at)
    {
    }

    lemma TracksParts(b: seq<Coef>, orig: seq<Coef>, cur: seq<Coef>, final: seq<Coef>, newnz: seq<nat>, k: nat)
      requires IsBand(band) && Tracks(b, orig, cur, final, newnz, k)
      ensures Mixed(b, cur, final) && Marked(cur, final, band.al)
      ensures k <= band.se ==> Undoable(orig, cur, final, newnz)
    {
    }

    lemma FinishUnroll(cur: seq<Coef>, k: nat, data: seq<byte>, at: nat)
      requires IsBand(band) && |cur| == DCTSIZE2
      ensures Finish(band, cur, k, data, at)
              == if k > band.se then Walk(cur, k, at)
                 else if cur[band.order[k]] != 0 then
                   Finish(band, cur[band.order[k] := Corrected(cur[band.order[k]], BitAt(data, at), band.al)], k + 1,
                     data, at + 1)
                 else Finish(band, cur, k + 1, data, at)
    {
    }

    lemma FinishLeads(cur: seq<Coef>, k: nat, data: seq<byte>, at: nat, final: seq<Coef>)
      requires IsBand(band) && |cur| == |final| == DCTSIZE2 && k <= band.se + 1
      requires Finish(band, cur, k, data, at).b == final
      ensures Marked(cur, final, band.al) && Settled(cur, final, k)
    {
      hide Finish, Marked;
      FinishMarks(band, cur, k, data, at);
      forall j | band.ss <= j < k && j < band.se
        ensures final[band.order[j]] == cur[band.order[j]]
      {
        FinishKeeps(band, cur, k, data, at, j);
      }
    }

    /** Corrects the nonzero coefficients in the rest of the band. */
    method PassRest(w: BitReader, blk: array<Coef>, k0: nat, patience0: int, ghost orig: seq<Coef>,
        ghost cur0: seq<Coef>, ghost final: seq<Coef>, ghost newnz: seq<nat>)
      returns (ok: bool, ghost cur: seq<Coef>)
      requires IsBand(band) && w.Valid() && blk.Length == DCTSIZE2 && k0 <= band.se && |cur0| == |final| == DCTSIZE2
      requires Tracks(blk[..], orig, cur0, final, newnz, k0) && Finish(band, cur0, k0, w.data, w.at).b == final
      modifies w, blk
      ensures Moved(w, old(w.insufficientData), old(w.at))
      ensures ok ==> blk[..] == final && w.at == Finish(band, cur0, k0, w.data, old(w.at)).at
      ensures !ok ==> Mixed(blk[..], cur, final) && Undoable(orig, cur, final, newnz)
      ensures patience0 < 0 ==> ok
    {
      hide BitReader.Valid, IsBand, Tracks, Finish, Corrected, BitAt, Settled;
      OrderInRange();
      StillMoved(w);
      var k, patience := k0, patience0;
      cur := cur0;
      while k <= band.se
        invariant Moved(w, old(w.insufficientData), old(w.at)) && k0 <= k <= band.se + 1
        invariant |cur| == DCTSIZE2 && Tracks(blk[..], orig, cur, final, newnz, k)
        invariant Finish(band, cur, k, w.data, w.at) == Finish(band, cur0, k0, w.data, old(w.at))
        invariant patience0 < 0 ==> patience < 0
      {
        FinishUnroll(cur, k, w.data, w.at);
        var i := band.order[k];
        TracksParts(blk[..], orig, cur, final, newnz, k);
        ZeroAlike(blk[..], cur, final, i);
        if blk[i] != 0 {
          if Suspends(w, patience) {
            ok := false;
            return;
          }
          patience := if patience > 0 then patience - 1 else patience;
          var b := ReadBit(w);
          ghost var cur1 := cur[i := Corrected(cur[i], b, band.al)];
          FinishLeads(cur1, k + 1, w.data, w.at, final);
          TracksCorrected(blk[..], orig, cur, final, newnz, k, b);
          Correct(blk, i, b);
          cur := cur1;
        } else {
          TracksPassed(blk[..], orig, cur, final, newnz, k);
        }
        k := k + 1;
      }
      FinishUnroll(cur, k, w.data, w.at);
      TracksParts(blk[..], orig, cur, final, newnz, k);
      MixedEnd(blk[..], cur, final);
      ok := true;
    }

    lemma MixedEnd(b: seq<Coef>, cur: seq<Coef>, final: seq<Coef>)
      requires Mixed(b, cur, final) && cur == final
      ensures b == final
    {
    }

    /** The walk to the target of a symbol leads to the block's final values. */
    lemma WalkLeads(walk: Walk, v: Coef, data: seq<byte>, final: seq<Coef>)
      requires IsBand(band) && IsTable(t) && |walk.b| == DCTSIZE2 && walk.k <= band.se + 1
      requires v != 0 ==> BitOf(v, band.al) == 1
      requires Remaining(band, t, Placed(band, walk, v), walk.k + 1, data, walk.at).b == final
      ensures Leads(walk, final) && Marked(Placed(band, walk, v), final, band.al)
    {
      hide Remaining, Marked, Placed;
      PlacedMarks(band, walk, v);
      RemainingMarks(band, t, Placed(band, walk, v), walk.k + 1, data, walk.at);
      MarkedTwice(walk.b, Placed(band, walk, v), final, band.al);
      forall j | band.ss <= j < walk.k && j < band.se
        ensures final[band.order[j]] == walk.b[band.order[j]]
      {
        ContinuationKeeps(band, t, walk, v, data, j);
      }
    }

    /** Entering the new coefficient v, if it is not 0, at position k. */
    lemma TracksPlaced(b: seq<Coef>, orig: seq<Coef>, walk: Walk, final: seq<Coef>, newnz: seq<nat>, v: Coef)
      requires IsBand(band) && |walk.b| == DCTSIZE2 && walk.k <= band.se + 1
      requires Tracks(b, orig, walk.b, final, newnz, walk.k) && (walk.k <= band.se ==> walk.b[band.order[walk.k]] == 0)
      requires Marked(Placed(band, walk, v), final, band.al)
      ensures var p := band.order[walk.k];
              Tracks(if v != 0 then b[p := v] else b, orig, Placed(band, walk, v), final,
                     if v != 0 then newnz + [p] else newnz, walk.k + 1)
    {
      hide BitOf, Marked;
      var p := band.order[walk.k];
      if walk.k + 1 <= band.se {
        var newnz1 := if v != 0 then newnz + [p] else newnz;
        assert forall m :: 0 <= m < |newnz| && Passed(newnz[m], walk.k) ==> Passed(newnz[m], walk.k + 1);
        assert Passed(p, walk.k + 1) by { assert band.order[walk.k] == p; }
        NewUndoable(orig, walk.b, final, newnz, p, v, walk.k);
      }
    }

    lemma NewUndoable(orig: seq<Coef>, cur: seq<Coef>, final: seq<Coef>, newnz: seq<nat>, p: nat, v: Coef, k: nat)
      requires IsBand(band) && k <= band.se && Undoable(orig, cur, final, newnz) && p == band.order[k] && cur[p] == 0
      requires forall i :: 0 <= i < |newnz| ==> Passed(newnz[i], k)
      ensures v != 0 ==> Undoable(orig, cur[p := v], final, newnz + [p])
    {
      assert p !in newnz;
      assert orig[p] == 0;
    }

    /** Where a walk stops short of the end of the band, the coefficient is zero. */
    lemma {:induction false} TargetIsZero(cur: seq<Coef>, k: nat, r: nat, data: seq<byte>, at: nat)
      requires IsBand(band) && |cur| == DCTSIZE2 && k <= band.se + 1
      ensures var w := Advance(band, cur, k, r, data, at);
              w.k <= band.se ==> w.b[band.order[w.k]] == 0
      decreases band.se + 1 - k
    {
      hide Corrected, BitAt;
      if k <= band.se {
        if cur[band.order[k]] != 0 {
          TargetIsZero(cur[band.order[k] := Corrected(cur[band.order[k]], BitAt(data, at), band.al)], k + 1, r, data,
            at + 1);
        } else if r > 0 {
          TargetIsZero(cur, k + 1, r - 1, data, at);
        }
      }
    }

    /** The coefficient value that a symbol's sign bit announces. */
    method ReadSign(w: BitReader, s: nat) returns (v: Coef)
      requires Set() && w.Valid() && s > 0
      modifies w, this`badCodes
      ensures Moved(w, old(w.insufficientData), old(w.at)) && w.at == old(w.at) + 1
      ensures v == NewCoef(BitAt(w.data, old(w.at)), band.al) && v != 0 && BitOf(v, band.al) == 1
    {
      hide BitReader.Valid, BitAt, Usable, BitOf, NewCoef;
      if s != 1 {
        badCodes := badCodes + 1;  // the size of a new coefficient should always be 1
      }
      var b := ReadBit(w);
      NewHasBit(b, band.al);
      v := NewCoef(b, band.al);
    }

    /** The length of an end-of-band run. */
    method ReadRun(w: BitReader, r: nat) returns (run: nat)
      requires w.Valid() && r < 15
      modifies w
      ensures Moved(w, old(w.insufficientData), old(w.at)) && w.at == old(w.at) + r
      ensures run == RunLength(r, w.data, old(w.at)) > 0
    {
      hide BitReader.Valid, BitsAt, Pow2;
      NumberEmpty();
      StillMoved(w);
      NoBits(w.data, w.at);
      run := Pow2(r);
      if r != 0 {
        var x := w.Get(r);
        run := run + x;
      }
    }

    lemma NoBits(data: seq<byte>, at: nat)
      ensures Number(BitsAt(data, at, 0)) == 0
    {
    }

    /** One pass through the symbol loop; eob reports an end-of-band symbol. */
    method DecodeOne(w: BitReader, blk: array<Coef>, k0: nat, newnz0: seq<nat>, patience0: int, ghost orig: seq<Coef>,
                     ghost cur0: seq<Coef>, ghost out: Outcome)
      returns (ok: bool, eob: bool, k: nat, run: nat, newnz: seq<nat>, patience: int, ghost cur: seq<Coef>)
      requires Set() && w.Valid() && blk.Length == DCTSIZE2 && k0 <= band.se && |cur0| == |out.b| == DCTSIZE2
      requires Tracks(blk[..], orig, cur0, out.b, newnz0, k0) && Remaining(band, t, cur0, k0, w.data, w.at) == out
      modifies w, blk, this`badCodes
      ensures Moved(w, old(w.insufficientData), old(w.at)) && |cur| == DCTSIZE2
      ensures !ok ==> Mixed(blk[..], cur, out.b) && Undoable(orig, cur, out.b, newnz)
      ensures ok ==> Tracks(blk[..], orig, cur, out.b, newnz, k)
      ensures ok && eob ==> k == k0 && run > 0 && EndBand(band, cur, k, run, w.data, w.at) == out
      ensures ok && !eob ==> k > k0 && Remaining(band, t, cur, k, w.data, w.at) == out
      ensures patience0 < 0 ==> ok && patience < 0
    {
      hide BitReader.Valid, IsBand, IsTable, Legal, Usable, Tracks, Remaining, EndBand, RunLength, Advance, BitAt,
        NewCoef, SymbolRead;
      hide Placed, Leads, Mixed, Undoable, BitOf, Marked;
      OrderInRange();
      StillMoved(w);
      TracksParts(blk[..], orig, cur0, out.b, newnz0, k0);
      ok, eob, k, run, newnz, patience, cur := false, false, k0, 0, newnz0, patience0, cur0;
      if Suspends(w, patience) {
        return;
      }
      patience := if patience > 0 then patience - 1 else patience;
      ghost var at := w.at;
      var r, s := ReadSymbol(w);
      ghost var at1 := w.at;
      RemainingUnroll(band, t, cur0, k0, w.data, at, r, s, at1);
      if s == 0 && r != 15 {
        if r != 0 && Suspends(w, patience) {
          return;
        }
        patience := if patience > 0 then patience - 1 else patience;
        run := ReadRun(w, r);
        ok, eob := true, true;
        return;
      }
      var v: Coef := 0;
      if s != 0 {
        if Suspends(w, patience) {
          return;
        }
        patience := if patience > 0 then patience - 1 else patience;
        v := ReadSign(w, s);
      }
      ghost var walk := Advance(band, cur0, k0, r, w.data, w.at);
      WalkInRange(cur0, k0, r, w.data, w.at);
      WalkLeads(walk, v, w.data, out.b);
      TargetIsZero(cur0, k0, r, w.data, w.at);
      ok, k, patience, cur := Pass(w, blk, k0, r, patience, orig, cur0, out.b, newnz0);
      TracksParts(blk[..], orig, cur, out.b, newnz, k);
      if !ok {
        return;
      }
      TracksPlaced(blk[..], orig, walk, out.b, newnz, v);
      if v != 0 {
        var pos := band.order[k];
        blk[pos] := v;
        newnz := newnz + [pos];
      }
      cur := Placed(band, walk, v);
      k := k + 1;
    }

    lemma WalkInRange(cur: seq<Coef>, k: nat, r: nat, data: seq<byte>, at: nat)
      requires IsBand(band) && |cur| == DCTSIZE2 && k <= band.se
      ensures var w := Advance(band, cur, k, r, data, at);
              |w.b| == DCTSIZE2 && k <= w.k <= band.se + 1
    {
    }

    /** Takes the new coefficients back. */
    method Undo(blk: array<Coef>, newnz: seq<nat>)
      requires blk.Length == DCTSIZE2 && forall i :: 0 <= i < |newnz| ==> newnz[i] < DCTSIZE2
      modifies blk
      ensures blk[..] == Cleared(old(blk[..]), newnz)
    {
      var n := |newnz|;
      while n > 0
        invariant 0 <= n <= |newnz|
        invariant forall j :: 0 <= j < DCTSIZE2 ==> blk[j] == if j in newnz[n..] then 0 else old(blk[j])
      {
        n := n - 1;
        blk[newnz[n]] := 0;
        assert newnz[n..] == [newnz[n]] + newnz[n + 1..];
      }
      assert newnz[0..] == newnz;
    }

    /** Decodes the symbols of a block until its end or an end-of-band symbol. */
    method DecodeSymbols(w: BitReader, blk: array<Coef>, patience0: int, ghost orig: seq<Coef>, ghost out: Outcome)
      returns (ok: bool, k: nat, run: nat, newnz: seq<nat>, patience: int, ghost cur: seq<Coef>)
      requires Set() && w.Valid() && blk.Length == DCTSIZE2 && |orig| == |out.b| == DCTSIZE2
      requires Tracks(blk[..], orig, orig, out.b, [], band.ss) && Remaining(band, t, orig, band.ss, w.data, w.at) == out
      modifies w, blk, this`badCodes
      ensures Moved(w, old(w.insufficientData), old(w.at)) && |cur| == DCTSIZE2
      ensures !ok ==> Mixed(blk[..], cur, out.b) && Undoable(orig, cur, out.b, newnz)
      ensures ok && run == 0 ==> blk[..] == out.b && out.run == 0 && w.at == out.at
      ensures ok && run > 0 ==>
                k <= band.se && Tracks(blk[..], orig, cur, out.b, newnz, k)
                  && EndBand(band, cur, k, run, w.data, w.at) == out
      ensures patience0 < 0 ==> ok && patience < 0
    {
      hide BitReader.Valid, IsBand, IsTable, Legal, Usable, Tracks, Remaining, EndBand, Mixed, Undoable;
      BandStarts();
      StillMoved(w);
      k, run, newnz, patience, cur := band.ss, 0, [], patience0, orig;
      while k <= band.se
        invariant Moved(w, old(w.insufficientData), old(w.at)) && |cur| == DCTSIZE2 && run == 0
        invariant Tracks(blk[..], orig, cur, out.b, newnz, k) && Remaining(band, t, cur, k, w.data, w.at) == out
        invariant patience0 < 0 ==> patience < 0
        decreases band.se + 1 - k
      {
        var eob;
        ok, eob, k, run, newnz, patience, cur := DecodeOne(w, blk, k, newnz, patience, orig, cur, out);
        if !ok || eob {
          return;
        }
        run := 0;
      }
      RemainingDone(band, t, cur, k, w.data, w.at);
      TracksParts(blk[..], orig, cur, out.b, newnz, k);
      MixedEnd(blk[..], cur, out.b);
      ok := true;
    }

    lemma BandStarts()
      requires IsBand(band)
      ensures band.ss <= band.se
    {
    }

    lemma StartTracks(b: seq<Coef>, orig: seq<Coef>, run: nat, data: seq<byte>, at: nat)
      requires IsBand(band) && IsTable(t) && |orig| == DCTSIZE2
      requires Mixed(b, orig, Refined(band, t, orig, run, data, at).b)
      ensures Tracks(b, orig, orig, Refined(band, t, orig, run, data, at).b, [], band.ss)
    {
      hide Mixed, Refined, Marked;
      RefinedMarks(band, t, orig, run, data, at);
    }

    lemma RefinedCases(b: seq<Coef>, run: nat, data: seq<byte>, at: nat)
      requires IsBand(band) && IsTable(t) && |b| == DCTSIZE2
      ensures Refined(band, t, b, run, data, at)
              == if run > 0 then EndBand(band, b, band.ss, run, data, at) else Remaining(band, t, b, band.ss, data, at)
    {
    }

    lemma EndBandIs(b: seq<Coef>, k: nat, run: nat, data: seq<byte>, at: nat)
      requires IsBand(band) && |b| == DCTSIZE2 && run > 0
      ensures var w := Finish(band, b, k, data, at); EndBand(band, b, k, run, data, at) == Outcome(w.b, run - 1, w.at)
    {
    }

    /**
     * One attempt to decode a block; patience is how many reads the source serves before it suspends.  orig is the
     * block before the first attempt.  Completed attempts end as the uninterrupted decoder does; a suspended one
     * changes no permanent state and leaves a block from which the next attempt gets to the same end.
     */
    method DecodeMcu(blk: array<Coef>, patience0: int, ghost orig: seq<Coef>) returns (done: bool)
      requires Valid() && blk.Length == DCTSIZE2 && |orig| == DCTSIZE2
      requires Mixed(blk[..], orig, Refined(band, t, orig, eobrun, perm.data, perm.at).b)
      modifies this, blk
      ensures Valid() && fresh({perm} - {old(perm)})
      ensures var out := Refined(band, t, orig, old(eobrun), old(perm.data), old(perm.at));
              && (old(perm.insufficientData) ==>
                 done && blk[..] == old(blk[..]) && eobrun == old(eobrun) && perm == old(perm))
              && (done && !old(perm.insufficientData) ==>
                    && blk[..] == out.b && eobrun == out.run && perm.at == out.at && perm.data == old(perm.data)
                    && perm.insufficientData == (perm.at > 8 * |perm.data|))
              && (!done ==> Mixed(blk[..], orig, out.b) && eobrun == old(eobrun) && perm == old(perm))
      ensures patience0 < 0 ==> done
    {
      hide BitReader.Valid, IsBand, IsTable, Legal, Usable, Tracks, Remaining, EndBand, Finish, Mixed, Undoable,
        Refined;
      if perm.insufficientData {
        return true;
      }
      var w := new BitReader.Copy(perm);
      StillMoved(w);
      ghost var out := Refined(band, t, orig, eobrun, w.data, w.at);
      RefinedCases(orig, eobrun, w.data, w.at);
      StartTracks(blk[..], orig, eobrun, w.data, w.at);
      BandStarts();
      var run, k, newnz, patience := eobrun, band.ss, [], patience0;
      ghost var cur := orig;
      if run == 0 {
        done, k, run, newnz, patience, cur := DecodeSymbols(w, blk, patience, orig, out);
        if !done {
          UndoneIsMixed(blk[..], orig, cur, out.b, newnz);
          UndoPositions(orig, cur, out.b, newnz);
          Undo(blk, newnz);
          return;
        }
      }
      if run > 0 {
        EndBandIs(cur, k, run, w.data, w.at);
        done, cur := PassRest(w, blk, k, patience, orig, cur, out.b, newnz);
        if !done {
          UndoneIsMixed(blk[..], orig, cur, out.b, newnz);
          UndoPositions(orig, cur, out.b, newnz);
          Undo(blk, newnz);
          return;
        }
        run := run - 1;
      }
      perm, eobrun := w, run;
      done := true;
    }

    lemma UndoPositions(orig: seq<Coef>, cur: seq<Coef>, final: seq<Coef>, newnz: seq<nat>)
      requires Undoable(orig, cur, final, newnz)
      ensures forall i :: 0 <= i < |newnz| ==> newnz[i] < DCTSIZE2
    {
    }

    /**
     * Repeats a suspended call until it succeeds or the schedule is used up: whatever the schedule, a block that gets
     * decoded, the end-of-band run and the bit position are those of one uninterrupted call.
     */
    method DecodeUnderSchedule(blk: array<Coef>, schedule: seq<int>) returns (done: bool)
      requires Valid() && blk.Length == DCTSIZE2 && !perm.insufficientData
      modifies this, blk
      ensures Valid()
      ensures var out := Refined(band, t, old(blk[..]), old(eobrun), old(perm.data), old(perm.at));
              if done then
                && blk[..] == out.b && eobrun == out.run && perm.at == out.at && perm.data == old(perm.data)
                && perm.insufficientData == (perm.at > 8 * |perm.data|)
              else Mixed(blk[..], old(blk[..]), out.b) && eobrun == old(eobrun) && perm == old(perm)
      ensures (exists i :: 0 <= i < |schedule| && schedule[i] < 0) ==> done
    {
      hide BitReader.Valid, IsBand, IsTable, Legal, Usable, Refined;
      ghost var orig := blk[..];
      done := false;
      for i := 0 to |schedule|
        invariant Valid() && eobrun == old(eobrun) && perm == old(perm)
        invariant Mixed(blk[..], orig, Refined(band, t, orig, eobrun, perm.data, perm.at).b)
        invariant forall k :: 0 <= k < i ==> schedule[k] >= 0
      {
        done := DecodeMcu(blk, schedule[i], orig);
        if done {
          return;
        }
      }
      done := false;
    }
  }
}
