/** The recommended progressive script, written through an advancing pointer into reusable space. */
module ScriptGeneration {
  import opened Coefficients
  import opened ScanScripts

  const TOP := 10       // highest bit position of 8-bit data
  const HIGH_TOP := 13  // highest bit position of data of high precision

  /** Coefficients ss..se of component c can be sent next with bits ah/al. */
  ghost predicate CanSend(scans: seq<Scan>, c: int, ss: int, se: int, ah: int, al: int) {
    && (ss != 0 ==> LastAl(scans, c, 0) >= 0)
    && forall k :: ss <= k <= se ==> BitsFollow(scans, c, k, ah, al)
  }

  /** Between the two scripts, exactly coefficients ss..se of components lo..hi-1 moved to bit al. */
  ghost predicate Moved(before: seq<Scan>, after: seq<Scan>, lo: int, hi: int, ss: int, se: int, al: int) {
    forall c, k :: LastAl(after, c, k) == if lo <= c < hi && ss <= k <= se then al else LastAl(before, c, k)
  }

  /** Coefficients lo..hi of component c stand at bit al. */
  ghost predicate Stands(scans: seq<Scan>, c: int, lo: int, hi: int, al: int) {
    forall k :: lo <= k <= hi ==> LastAl(scans, c, k) == al
  }

  predicate Band(ss: int, se: int, ah: int, al: int) {
    0 <= ss <= se < DCTSIZE2 && 0 <= ah <= TOP && 0 <= al <= TOP
  }

  lemma SendsOnly(s: Scan, ci: int, c: int)
    requires s.comps == 1 && s.index[0] == ci
    ensures Sends(s, c) <==> c == ci
  {
    if c == ci { assert s.index[0] == c; }
  }

  lemma AppendOne(scans: seq<Scan>, s: Scan, ci: int, n: nat)
    requires ScansOk(true, scans, n, TOP) && 0 <= ci < n && s.comps == 1 && s.index[0] == ci
    requires Band(s.ss, s.se, s.ah, s.al) && (s.ss == 0 ==> s.se == 0) && CanSend(scans, ci, s.ss, s.se, s.ah, s.al)
    ensures ScansOk(true, scans + [s], n, TOP)
    ensures Moved(scans, scans + [s], ci, ci + 1, s.ss, s.se, s.al)
  {
    hide LastAl, BitsFollow, ScansOk, Sends;
    forall c ensures Sends(s, c) <==> c == ci { SendsOnly(s, ci, c); }
    assert Follows(scans, s, ci);
    ScansOkAppend(true, scans, s, n, TOP);
    forall c, k { LastAlAppend(scans, s, c, k); }
  }

  lemma AppendAll(scans: seq<Scan>, s: Scan, n: nat)
    requires ScansOk(true, scans, n, TOP) && 0 < n == s.comps <= MAX_COMPS_IN_SCAN
    requires forall ci :: 0 <= ci < n ==> s.index[ci] == ci
    requires Band(s.ss, s.se, s.ah, s.al) && s.se == 0
    requires forall ci :: 0 <= ci < n ==> CanSend(scans, ci, s.ss, s.se, s.ah, s.al)
    ensures ScansOk(true, scans + [s], n, TOP)
    ensures Moved(scans, scans + [s], 0, n, s.ss, s.se, s.al)
  {
    hide LastAl, BitsFollow, ScansOk;
    forall c ensures Sends(s, c) <==> 0 <= c < n {
      if 0 <= c < n { assert s.index[c] == c; }
    }
    forall c | Sends(s, c) ensures Follows(scans, s, c) {
      assert CanSend(scans, c, s.ss, s.se, s.ah, s.al);
    }
    ScansOkAppend(true, scans, s, n, TOP);
    forall c, k { LastAlAppend(scans, s, c, k); }
  }

  lemma StillCan(scans: seq<Scan>, all: seq<Scan>, ci: nat, ss: int, se: int, ah: int, al: int)
    requires Moved(scans, all, 0, ci, ss, se, al) && CanSend(scans, ci, ss, se, ah, al)
    ensures CanSend(all, ci, ss, se, ah, al)
  {
    hide LastAl;
    assert LastAl(all, ci, 0) == LastAl(scans, ci, 0);
    forall k | ss <= k <= se ensures BitsFollow(all, ci, k, ah, al) {
      assert BitsFollow(scans, ci, k, ah, al) && LastAl(all, ci, k) == LastAl(scans, ci, k);
    }
  }

  lemma MovedOn(a: seq<Scan>, b: seq<Scan>, c: seq<Scan>, ci: nat, ss: int, se: int, al: int)
    requires Moved(a, b, 0, ci, ss, se, al) && Moved(b, c, ci, ci + 1, ss, se, al)
    ensures Moved(a, c, 0, ci + 1, ss, se, al)
  {
    hide LastAl;
  }

  // ---------------------------------------------------------------------------------------------
  // Where a component stands: its DC coefficient, its low AC band 1..5, its high AC band 6..63
  // ---------------------------------------------------------------------------------------------

  ghost predicate Place(scans: seq<Scan>, c: int, dc: int, low: int, high: int) {
    Stands(scans, c, 0, 0, dc) && Stands(scans, c, 1, 5, low) && Stands(scans, c, 6, 63, high)
  }

  predicate IsBand(ss: int, se: int) {
    (ss == 0 && se == 0) || (ss == 1 && se == 5) || (ss == 6 && se == 63) || (ss == 1 && se == 63)
  }

  /** The next bits after last: everything above al at first, then one bit at a time. */
  predicate Continues(last: int, ah: int, al: int) {
    if last < 0 then ah == 0 else ah == last && al == ah - 1
  }

  lemma Ready(scans: seq<Scan>, c: int, dc: int, low: int, high: int, ss: int, se: int, ah: int, al: int)
    requires Place(scans, c, dc, low, high) && IsBand(ss, se)
    requires if ss == 0 then Continues(dc, ah, al) else dc >= 0
    requires ss == 1 ==> Continues(low, ah, al)
    requires se == 63 ==> Continues(high, ah, al)
    ensures CanSend(scans, c, ss, se, ah, al)
  {
    hide LastAl;
    assert LastAl(scans, c, 0) == dc;
  }

  lemma Advance(a: seq<Scan>, b: seq<Scan>, lo: int, hi: int, ss: int, se: int, al: int,
                c: int, dc: int, low: int, high: int)
    requires Moved(a, b, lo, hi, ss, se, al) && IsBand(ss, se) && Place(a, c, dc, low, high)
    ensures Place(b, c,
                  if lo <= c < hi && ss == 0 then al else dc,
                  if lo <= c < hi && ss == 1 then al else low,
                  if lo <= c < hi && se == 63 then al else high)
  {
    hide LastAl;
  }

  lemma Start(c: int, n: nat)
    ensures Place([], c, -1, -1, -1) && ScansOk(true, [], n, TOP)
  {
  }

  /** A scan of one component. */
  predicate IsAlone(s: Scan, ci: int, ss: int, se: int, ah: int, al: int) {
    s.comps == 1 && s.index[0] == ci && s.ss == ss && s.se == se && s.ah == ah && s.al == al
  }

  /** Scans p..p+n-1, one for each of n components. */
  predicate AreAlone(scans: seq<Scan>, p: nat, n: nat, ss: int, se: int, ah: int, al: int) {
    p + n <= |scans| && forall i :: p <= i < p + n ==> IsAlone(scans[i], i - p, ss, se, ah, al)
  }

  /** The DC scans from p on: one of all n components, or one for each if these are too many for a scan. */
  predicate AreDc(scans: seq<Scan>, p: nat, n: nat, ah: int, al: int) {
    if n > 4 then AreAlone(scans, p, n, 0, 0, ah, al)
    else
      && p < |scans| && scans[p].comps == n && (forall c :: 0 <= c < n ==> scans[p].index[c] == c)
      && scans[p].ss == 0 && scans[p].se == 0 && scans[p].ah == ah && scans[p].al == al
  }

  /** The script for any color space, scan by scan. */
  predicate IsAllPurpose(scans: seq<Scan>, n: nat) {
    var d := if n > 4 then n else 1;
    && |scans| == 2 * d + 4 * n
    && AreDc(scans, 0, n, 0, 1)
    && AreAlone(scans, d, n, 1, 5, 0, 2) && AreAlone(scans, d + n, n, 6, 63, 0, 2)
    && AreAlone(scans, d + 2 * n, n, 1, 63, 2, 1)
    && AreDc(scans, d + 3 * n, n, 1, 0)
    && AreAlone(scans, 2 * d + 3 * n, n, 1, 63, 1, 0)
  }

  /** The script for luminance-chrominance images, scan by scan: the second chroma component comes before the first. */
  predicate IsYcc(scans: seq<Scan>) {
    && |scans| == 10 && AreDc(scans, 0, 3, 0, 1)
    && IsAlone(scans[1], 0, 1, 5, 0, 2)
    && IsAlone(scans[2], 2, 1, 63, 0, 1) && IsAlone(scans[3], 1, 1, 63, 0, 1)
    && IsAlone(scans[4], 0, 6, 63, 0, 2) && IsAlone(scans[5], 0, 1, 63, 2, 1)
    && AreDc(scans, 6, 3, 1, 0)
    && IsAlone(scans[7], 2, 1, 63, 1, 0) && IsAlone(scans[8], 1, 1, 63, 1, 0)
    && IsAlone(scans[9], 0, 1, 63, 1, 0)
  }

  lemma AloneKept(a: seq<Scan>, b: seq<Scan>, p: nat, n: nat, ss: int, se: int, ah: int, al: int)
    requires a <= b && AreAlone(a, p, n, ss, se, ah, al)
    ensures AreAlone(b, p, n, ss, se, ah, al)
  {
    assert forall i :: 0 <= i < |a| ==> a[i] == b[i];
  }

  lemma DcKept(a: seq<Scan>, b: seq<Scan>, p: nat, n: nat, ah: int, al: int)
    requires a <= b && AreDc(a, p, n, ah, al)
    ensures AreDc(b, p, n, ah, al)
  {
    assert forall i :: 0 <= i < |a| ==> a[i] == b[i];
    if n > 4 {
      AloneKept(a, b, p, n, 0, 0, ah, al);
    }
  }

  class ScriptParameters {
    const n: nat          // number of components
    const ycc: bool       // a luminance-chrominance color space
    var space: array<Scan>
    var spaceSize: nat
    var numScans: nat

    ghost predicate Valid()
      reads this
    {
      n > 0 && spaceSize == space.Length
    }

    /** The scans before position p. */
    ghost predicate Written(p: nat, scans: seq<Scan>)
      reads this, space
    {
      p <= space.Length && scans == space[..p] && ScansOk(true, scans, n, TOP)
    }

    constructor (n: nat, ycc: bool)
      requires n > 0
      ensures Valid() && fresh(space) && this.n == n && this.ycc == ycc
    {
      this.n := n;
      this.ycc := ycc;
      space := new Scan[0];
      spaceSize, numScans := 0, 0;
    }

    method FillAScan(scanptr: nat, ci: nat, ss: int, se: int, ah: int, al: int, ghost scans: seq<Scan>)
      returns (next: nat, ghost all: seq<Scan>)
      requires scanptr < space.Length && Written(scanptr, scans) && ci < n
      requires Band(ss, se, ah, al) && (ss == 0 ==> se == 0) && CanSend(scans, ci, ss, se, ah, al)
      modifies space
      ensures next == scanptr + 1 && Written(next, all) && Moved(scans, all, ci, ci + 1, ss, se, al)
      ensures |all| == |scans| + 1 && scans <= all && IsAlone(all[|scans|], ci, ss, se, ah, al)
    {
      hide ScansOk, CanSend, LastAl, Moved;
      var s := space[scanptr];
      space[scanptr] := ScanInfo(1, s.index[0 := ci], ss, se, ah, al);
      assert space[..scanptr + 1] == scans + [space[scanptr]];
      AppendOne(scans, space[scanptr], ci, n);
      next, all := scanptr + 1, space[..scanptr + 1];
    }

    method FillScans(start: nat, ncomps: nat, ss: int, se: int, ah: int, al: int, ghost scans: seq<Scan>)
      returns (next: nat, ghost all: seq<Scan>)
      requires ncomps == n && start + ncomps <= space.Length && Written(start, scans)
      requires Band(ss, se, ah, al) && (ss == 0 ==> se == 0)
      requires forall c :: 0 <= c < n ==> CanSend(scans, c, ss, se, ah, al)
      modifies space
      ensures next == start + ncomps && Written(next, all) && Moved(scans, all, 0, ncomps, ss, se, al)
      ensures scans <= all && AreAlone(all, start, ncomps, ss, se, ah, al)
    {
      hide ScansOk, LastAl, BitsFollow;
      var scanptr, ci := start, 0;
      all := scans;
      while ci < ncomps
        invariant 0 <= ci <= ncomps && scanptr == start + ci
        invariant Written(scanptr, all) && Moved(scans, all, 0, ci, ss, se, al)
        invariant scans <= all && AreAlone(all, start, ci, ss, se, ah, al)
      {
        StillCan(scans, all, ci, ss, se, ah, al);
        ghost var soFar := all;
        scanptr, all := FillAScan(scanptr, ci, ss, se, ah, al, all);
        MovedOn(scans, soFar, all, ci, ss, se, al);
        AloneKept(soFar, all, start, ci, ss, se, ah, al);
        ci := ci + 1;
      }
      next := scanptr;
    }

    method FillDcScans(scanptr: nat, ncomps: nat, ah: int, al: int, ghost scans: seq<Scan>)
      returns (next: nat, ghost all: seq<Scan>)
      requires ncomps == n > 0 && Written(scanptr, scans)
      requires scanptr + (if n <= MAX_COMPS_IN_SCAN then 1 else n) <= space.Length
      requires Band(0, 0, ah, al)
      requires forall c :: 0 <= c < n ==> CanSend(scans, c, 0, 0, ah, al)
      modifies space
      ensures next == scanptr + if n <= MAX_COMPS_IN_SCAN then 1 else n
      ensures Written(next, all) && Moved(scans, all, 0, ncomps, 0, 0, al)
      ensures scans <= all && AreDc(all, scanptr, ncomps, ah, al)
    {
      hide ScansOk, LastAl, CanSend, Moved;
      if ncomps <= MAX_COMPS_IN_SCAN {
        var s := space[scanptr];
        var index := s.index;
        var ci := 0;
        while ci < ncomps
          invariant 0 <= ci <= ncomps && |index| == MAX_COMPS_IN_SCAN
          invariant forall a :: 0 <= a < ci ==> index[a] == a
        {
          index := index[ci := ci];
          ci := ci + 1;
        }
        space[scanptr] := ScanInfo(ncomps, index, 0, 0, ah, al);
        assert space[..scanptr + 1] == scans + [space[scanptr]];
        AppendAll(scans, space[scanptr], n);
        next, all := scanptr + 1, space[..scanptr + 1];
      } else {
        next, all := FillScans(scanptr, ncomps, 0, 0, ah, al, scans);
      }
    }

    /** Every component at the same place: DC at dc, the AC bands 1..5 and 6..63 at low and high. */
    ghost predicate At(scans: seq<Scan>, dc: int, low: int, high: int) {
      forall c :: 0 <= c < n ==> Place(scans, c, dc, low, high)
    }

    /** How many DC scans of all components there are for one bit position. */
    function DcScans(): nat {
      if n <= MAX_COMPS_IN_SCAN then 1 else n
    }

    /** Successive approximation for any color space. */
    method AllPurpose(nscans: nat)
      requires Valid() && nscans <= space.Length
      requires nscans == if n > MAX_COMPS_IN_SCAN then 6 * n else 2 + 4 * n
      modifies space
      ensures Written(nscans, space[..nscans]) && At(space[..nscans], 0, 0, 0)
      ensures IsAllPurpose(space[..nscans], n)
    {
      hide ScansOk, LastAl, CanSend, Moved, Place, AreAlone, AreDc;
      ghost var a, b;
      var p: nat;
      p, a := FirstBits();
      p, b := LastBits(p, a);
      var d := DcScans();
      DcKept(a, b, 0, n, 0, 1);
      AloneKept(a, b, d, n, 1, 5, 0, 2);
      AloneKept(a, b, d + n, n, 6, 63, 0, 2);
      AloneKept(a, b, d + 2 * n, n, 1, 63, 2, 1);
    }

    /** DC but for its last bit, then the AC coefficients but for two bits, then one of these. */
    method FirstBits() returns (p: nat, ghost a: seq<Scan>)
      requires Valid() && DcScans() + 3 * n <= space.Length
      modifies space
      ensures p == DcScans() + 3 * n && Written(p, a) && At(a, 1, 1, 1)
      ensures AreDc(a, 0, n, 0, 1) && AreAlone(a, DcScans(), n, 1, 5, 0, 2)
      ensures AreAlone(a, DcScans() + n, n, 6, 63, 0, 2) && AreAlone(a, DcScans() + 2 * n, n, 1, 63, 2, 1)
    {
      hide ScansOk, LastAl, CanSend, Moved, Place, AreAlone, AreDc;
      ghost var b: seq<Scan>;
      a := [];
      forall c | 0 <= c < n ensures CanSend(a, c, 0, 0, 0, 1) && Place(a, c, -1, -1, -1) {
        Start(c, n);
        Ready(a, c, -1, -1, -1, 0, 0, 0, 1);
      }
      Start(0, n);
      p, b := FillDcScans(0, n, 0, 1, a);
      forall c | 0 <= c < n ensures CanSend(b, c, 1, 5, 0, 2) && Place(b, c, 1, -1, -1) {
        Advance(a, b, 0, n, 0, 0, 1, c, -1, -1, -1);
        Ready(b, c, 1, -1, -1, 1, 5, 0, 2);
      }
      p, a := FillScans(p, n, 1, 5, 0, 2, b);
      DcKept(b, a, 0, n, 0, 1);
      forall c | 0 <= c < n ensures CanSend(a, c, 6, 63, 0, 2) && Place(a, c, 1, 2, -1) {
        Advance(b, a, 0, n, 1, 5, 2, c, 1, -1, -1);
        Ready(a, c, 1, 2, -1, 6, 63, 0, 2);
      }
      p, b := FillScans(p, n, 6, 63, 0, 2, a);
      DcKept(a, b, 0, n, 0, 1);
      AloneKept(a, b, DcScans(), n, 1, 5, 0, 2);
      forall c | 0 <= c < n ensures CanSend(b, c, 1, 63, 2, 1) && Place(b, c, 1, 2, 2) {
        Advance(a, b, 0, n, 6, 63, 2, c, 1, 2, -1);
        Ready(b, c, 1, 2, 2, 1, 63, 2, 1);
      }
      p, a := FillScans(p, n, 1, 63, 2, 1, b);
      DcKept(b, a, 0, n, 0, 1);
      AloneKept(b, a, DcScans(), n, 1, 5, 0, 2);
      AloneKept(b, a, DcScans() + n, n, 6, 63, 0, 2);
      forall c | 0 <= c < n ensures Place(a, c, 1, 1, 1) {
        Advance(b, a, 0, n, 1, 63, 1, c, 1, 2, 2);
      }
    }

    /** The last bit of the DC coefficients, then of the AC coefficients. */
    method LastBits(start: nat, ghost scans: seq<Scan>) returns (p: nat, ghost all: seq<Scan>)
      requires Valid() && start == DcScans() + 3 * n && 2 * DcScans() + 4 * n <= space.Length
      requires Written(start, scans) && At(scans, 1, 1, 1)
      modifies space
      ensures p == 2 * DcScans() + 4 * n && Written(p, all) && At(all, 0, 0, 0) && scans <= all
      ensures AreDc(all, DcScans() + 3 * n, n, 1, 0) && AreAlone(all, 2 * DcScans() + 3 * n, n, 1, 63, 1, 0)
    {
      hide ScansOk, LastAl, CanSend, Moved, Place, AreAlone, AreDc;
      ghost var a, b := scans, scans;
      forall c | 0 <= c < n ensures CanSend(a, c, 0, 0, 1, 0) {
        Ready(a, c, 1, 1, 1, 0, 0, 1, 0);
      }
      p, b := FillDcScans(start, n, 1, 0, a);
      forall c | 0 <= c < n ensures CanSend(b, c, 1, 63, 1, 0) && Place(b, c, 0, 1, 1) {
        Advance(a, b, 0, n, 0, 0, 0, c, 1, 1, 1);
        Ready(b, c, 0, 1, 1, 1, 63, 1, 0);
      }
      p, all := FillScans(p, n, 1, 63, 1, 0, b);
      DcKept(b, all, DcScans() + 3 * n, n, 1, 0);
      forall c | 0 <= c < n ensures Place(all, c, 0, 0, 0) {
        Advance(b, all, 0, n, 1, 63, 0, c, 0, 1, 1);
      }
    }

    /** The three components at their own places. */
    ghost predicate At3(scans: seq<Scan>, y: (int, int, int), cb: (int, int, int), cr: (int, int, int)) {
      Place(scans, 0, y.0, y.1, y.2) && Place(scans, 1, cb.0, cb.1, cb.2) && Place(scans, 2, cr.0, cr.1, cr.2)
    }

    lemma Advance3(a: seq<Scan>, b: seq<Scan>, lo: int, hi: int, ss: int, se: int, al: int,
                   y: (int, int, int), cb: (int, int, int), cr: (int, int, int))
      requires Moved(a, b, lo, hi, ss, se, al) && IsBand(ss, se) && At3(a, y, cb, cr)
      ensures At3(b, Place3(y, lo <= 0 < hi, ss, se, al), Place3(cb, lo <= 1 < hi, ss, se, al),
        Place3(cr, lo <= 2 < hi, ss, se, al))
    {
      hide Moved, Place;
      Advance(a, b, lo, hi, ss, se, al, 0, y.0, y.1, y.2);
      Advance(a, b, lo, hi, ss, se, al, 1, cb.0, cb.1, cb.2);
      Advance(a, b, lo, hi, ss, se, al, 2, cr.0, cr.1, cr.2);
    }

    function Place3(p: (int, int, int), moves: bool, ss: int, se: int, al: int): (int, int, int) {
      if moves then (if ss == 0 then al else p.0, if ss == 1 then al else p.1, if se == 63 then al else p.2) else p
    }

    lemma Ready3(scans: seq<Scan>, c: int, p: (int, int, int), ss: int, se: int, ah: int, al: int)
      requires Place(scans, c, p.0, p.1, p.2) && IsBand(ss, se)
      requires if ss == 0 then Continues(p.0, ah, al) else p.0 >= 0
      requires ss == 1 ==> Continues(p.1, ah, al)
      requires se == 63 ==> Continues(p.2, ah, al)
      ensures CanSend(scans, c, ss, se, ah, al)
    {
      Ready(scans, c, p.0, p.1, p.2, ss, se, ah, al);
    }

    /** The custom script for luminance-chrominance images. */
    method ForYcc(nscans: nat)
      requires Valid() && n == 3 && nscans == 10 <= space.Length
      modifies space
      ensures Written(nscans, space[..nscans]) && At(space[..nscans], 0, 0, 0) && IsYcc(space[..nscans])
    {
      hide ScansOk, LastAl, Moved, Place, AreDc, IsAlone;
      ghost var a: seq<Scan>, b: seq<Scan>;
      var p: nat;
      p, a := YccApproximation();
      p, b := YccCompletion(p, a);
      DcKept(a, b, 0, 3, 0, 1);
      SamePrefix(a, b);
    }

    lemma SamePrefix(a: seq<Scan>, b: seq<Scan>)
      requires a <= b
      ensures forall i :: 0 <= i < |a| ==> a[i] == b[i]
    {
    }

    /** Six scans: DC, a first look at luma, chroma, the rest of luma, one more luma bit. */
    method YccApproximation() returns (p: nat, ghost a: seq<Scan>)
      requires n == 3 && space.Length >= 10
      modifies space
      ensures p == 6 && Written(p, a) && At3(a, (1, 1, 1), (1, 1, 1), (1, 1, 1))
      ensures |a| == 6 && AreDc(a, 0, 3, 0, 1) && IsAlone(a[1], 0, 1, 5, 0, 2)
      ensures IsAlone(a[2], 2, 1, 63, 0, 1) && IsAlone(a[3], 1, 1, 63, 0, 1)
      ensures IsAlone(a[4], 0, 6, 63, 0, 2) && IsAlone(a[5], 0, 1, 63, 2, 1)
    {
      hide ScansOk, LastAl, CanSend, Moved, Place, AreDc, IsAlone;
      ghost var b: seq<Scan>;
      a := [];
      forall c | 0 <= c < 3 ensures CanSend(a, c, 0, 0, 0, 1) && Place(a, c, -1, -1, -1) {
        Start(c, n);
        Ready(a, c, -1, -1, -1, 0, 0, 0, 1);
      }
      Start(0, n);
      p, b := FillDcScans(0, n, 0, 1, a);
      Advance3(a, b, 0, 3, 0, 0, 1, (-1, -1, -1), (-1, -1, -1), (-1, -1, -1));
      Ready3(b, 0, (1, -1, -1), 1, 5, 0, 2);
      p, a := FillAScan(p, 0, 1, 5, 0, 2, b);
      DcKept(b, a, 0, 3, 0, 1);
      SamePrefix(b, a);
      Advance3(b, a, 0, 1, 1, 5, 2, (1, -1, -1), (1, -1, -1), (1, -1, -1));
      Ready3(a, 2, (1, -1, -1), 1, 63, 0, 1);
      p, b := FillAScan(p, 2, 1, 63, 0, 1, a);
      DcKept(a, b, 0, 3, 0, 1);
      SamePrefix(a, b);
      Advance3(a, b, 2, 3, 1, 63, 1, (1, 2, -1), (1, -1, -1), (1, -1, -1));
      Ready3(b, 1, (1, -1, -1), 1, 63, 0, 1);
      p, a := FillAScan(p, 1, 1, 63, 0, 1, b);
      DcKept(b, a, 0, 3, 0, 1);
      SamePrefix(b, a);
      Advance3(b, a, 1, 2, 1, 63, 1, (1, 2, -1), (1, -1, -1), (1, 1, 1));
      Ready3(a, 0, (1, 2, -1), 6, 63, 0, 2);
      p, b := FillAScan(p, 0, 6, 63, 0, 2, a);
      DcKept(a, b, 0, 3, 0, 1);
      SamePrefix(a, b);
      Advance3(a, b, 0, 1, 6, 63, 2, (1, 2, -1), (1, 1, 1), (1, 1, 1));
      Ready3(b, 0, (1, 2, 2), 1, 63, 2, 1);
      p, a := FillAScan(p, 0, 1, 63, 2, 1, b);
      DcKept(b, a, 0, 3, 0, 1);
      SamePrefix(b, a);
      Advance3(b, a, 0, 1, 1, 63, 1, (1, 2, 2), (1, 1, 1), (1, 1, 1));
    }

    /** Four scans: the last bit of DC, of chroma, of luma. */
    method YccCompletion(start: nat, ghost scans: seq<Scan>) returns (p: nat, ghost b: seq<Scan>)
      requires n == 3 && space.Length >= 10 && start == 6 && Written(start, scans)
      requires At3(scans, (1, 1, 1), (1, 1, 1), (1, 1, 1))
      modifies space
      ensures p == 10 && Written(p, b) && At(b, 0, 0, 0) && scans <= b
      ensures |b| == 10 && AreDc(b, 6, 3, 1, 0)
      ensures IsAlone(b[7], 2, 1, 63, 1, 0) && IsAlone(b[8], 1, 1, 63, 1, 0) && IsAlone(b[9], 0, 1, 63, 1, 0)
    {
      hide ScansOk, LastAl, CanSend, Moved, Place, AreDc, IsAlone;
      ghost var a := scans;
      forall c | 0 <= c < 3 ensures CanSend(a, c, 0, 0, 1, 0) { Ready3(a, c, (1, 1, 1), 0, 0, 1, 0); }
      p, b := FillDcScans(start, n, 1, 0, a);
      Advance3(a, b, 0, 3, 0, 0, 0, (1, 1, 1), (1, 1, 1), (1, 1, 1));
      Ready3(b, 2, (0, 1, 1), 1, 63, 1, 0);
      p, a := FillAScan(p, 2, 1, 63, 1, 0, b);
      DcKept(b, a, 6, 3, 1, 0);
      SamePrefix(b, a);
      Advance3(b, a, 2, 3, 1, 63, 0, (0, 1, 1), (0, 1, 1), (0, 1, 1));
      Ready3(a, 1, (0, 1, 1), 1, 63, 1, 0);
      p, b := FillAScan(p, 1, 1, 63, 1, 0, a);
      DcKept(a, b, 6, 3, 1, 0);
      SamePrefix(a, b);
      Advance3(a, b, 1, 2, 1, 63, 0, (0, 1, 1), (0, 1, 1), (0, 0, 0));
      Ready3(b, 0, (0, 1, 1), 1, 63, 1, 0);
      p, a := FillAScan(p, 0, 1, 63, 1, 0, b);
      DcKept(b, a, 6, 3, 1, 0);
      SamePrefix(b, a);
      Advance3(b, a, 0, 1, 1, 63, 0, (0, 1, 1), (0, 0, 0), (0, 0, 0));
      b := a;
    }

    /** Fills exactly the scans it counted; the script is valid and sends every bit of every coefficient. */
    method SimpleProgression()
      requires Valid()
      modifies this, space
      ensures Valid() && numScans <= space.Length
      ensures numScans == if n == 3 && ycc then 10 else if n > MAX_COMPS_IN_SCAN then 6 * n else 2 + 4 * n
      ensures ValidScript(space[..numScans], n, TOP) && ValidScript(space[..numScans], n, HIGH_TOP)
      ensures Progressive(space[..numScans])
      ensures forall c, k :: 0 <= c < n && 0 <= k < DCTSIZE2 ==> LastAl(space[..numScans], c, k) == 0
      ensures if n == 3 && ycc then IsYcc(space[..numScans]) else IsAllPurpose(space[..numScans], n)
    {
      hide ScansOk, LastAl, IsYcc, IsAllPurpose;
      var custom := n == 3 && ycc;
      var nscans: nat := if custom then 10 else if n > MAX_COMPS_IN_SCAN then 6 * n else 2 + 4 * n;
      if spaceSize < nscans {
        spaceSize := if nscans > 10 then nscans else 10;
        space := new Scan[spaceSize];
      }
      numScans := nscans;
      if custom {
        ForYcc(nscans);
      } else {
        AllPurpose(nscans);
      }
      FullyDown(space[..nscans], n);
      HigherTop(space[..nscans], n, TOP, HIGH_TOP);
    }
  }

  lemma FullyDown(scans: seq<Scan>, n: nat)
    requires |scans| > 0 && n > 0 && ScansOk(true, scans, n, TOP)
    requires forall c :: 0 <= c < n ==> Place(scans, c, 0, 0, 0)
    ensures ValidScript(scans, n, TOP) && Progressive(scans)
    ensures forall c, k :: 0 <= c < n && 0 <= k < DCTSIZE2 ==> LastAl(scans, c, k) == 0
  {
    hide LastAl;
    assert ScanOk(true, scans[..0], scans[0], n, TOP);
    forall c, k | 0 <= c < n && 0 <= k < DCTSIZE2 ensures LastAl(scans, c, k) == 0 {
      assert Place(scans, c, 0, 0, 0);
      assert Stands(scans, c, if k == 0 then 0 else if k < 6 then 1 else 6, if k == 0 then 0 else if k < 6 then 5
        else 63, 0);
    }
  }
}
