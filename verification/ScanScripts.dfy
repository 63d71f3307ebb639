/**
 * Scan scripts: which scans a JPEG file is made of, which bits of which coefficients each of them sends, and when a
 * list of scans is in order.
 */
module ScanScripts {
  import opened Coefficients

  const MAX_COMPONENTS := 10

  datatype ScanInfo = ScanInfo(comps: int, index: seq<int>, ss: int, se: int, ah: int, al: int)

  /** The component list is a fixed array, of which the first comps entries count. */
  type Scan = s: ScanInfo | |s.index| == MAX_COMPS_IN_SCAN witness ScanInfo(0, [0, 0, 0, 0], 0, 0, 0, 0)

  ghost predicate Sends(s: Scan, c: int) {
    exists ci :: 0 <= ci < s.comps && ci < MAX_COMPS_IN_SCAN && s.index[ci] == c
  }

  ghost predicate Covers(s: Scan, c: int, k: int) {
    Sends(s, c) && s.ss <= k <= s.se
  }

  /** The lowest bit of coefficient k of component c that the scans have sent; -1 if they never sent any. */
  ghost function LastAl(scans: seq<Scan>, c: int, k: int): int {
    if |scans| == 0 then -1
    else if Covers(scans[|scans| - 1], c, k) then scans[|scans| - 1].al
    else LastAl(scans[..|scans| - 1], c, k)
  }

  ghost predicate Sent(scans: seq<Scan>, c: int) {
    exists j :: 0 <= j < |scans| && Sends(scans[j], c)
  }

  /** Between one and four components of the image, in frame order. */
  predicate ComponentsOk(s: Scan, n: int) {
    && 0 < s.comps <= MAX_COMPS_IN_SCAN
    && (forall ci :: 0 <= ci < s.comps ==> 0 <= s.index[ci] < n)
    && (forall ci, cj :: 0 <= ci < cj < s.comps ==> s.index[ci] < s.index[cj])
  }

  /** The parameters of a progressive scan by themselves. */
  predicate BandOk(s: Scan, top: int) {
    && 0 <= s.ss <= s.se < DCTSIZE2 && 0 <= s.ah <= top && 0 <= s.al <= top
    && (if s.ss == 0 then s.se == 0 else s.comps == 1)
  }

  /** Coefficient k of component c may be sent next with these bits: all of them at once, or one more. */
  ghost predicate BitsFollow(before: seq<Scan>, c: int, k: int, ah: int, al: int) {
    var last := LastAl(before, c, k);
    if last < 0 then ah == 0 else ah == last && al == ah - 1
  }

  /** AC bits only after DC bits, and every coefficient continues where it stopped. */
  ghost predicate Follows(before: seq<Scan>, s: Scan, c: int) {
    && (s.ss != 0 ==> LastAl(before, c, 0) >= 0)
    && forall k :: s.ss <= k <= s.se ==> BitsFollow(before, c, k, s.ah, s.al)
  }

  ghost predicate ProgressiveOk(before: seq<Scan>, s: Scan, n: int, top: int) {
    && ComponentsOk(s, n) && BandOk(s, top)
    && forall c :: Sends(s, c) ==> Follows(before, s, c)
  }

  ghost predicate SequentialOk(before: seq<Scan>, s: Scan, n: int) {
    && ComponentsOk(s, n)
    && s.ss == 0 && s.se == DCTSIZE2 - 1 && s.ah == 0 && s.al == 0
    && forall c :: Sends(s, c) ==> !Sent(before, c)
  }

  predicate Progressive(scans: seq<Scan>)
    requires |scans| > 0
  {
    scans[0].ss != 0 || scans[0].se != DCTSIZE2 - 1
  }

  ghost predicate ScanOk(progressive: bool, before: seq<Scan>, s: Scan, n: int, top: int) {
    if progressive then ProgressiveOk(before, s, n, top) else SequentialOk(before, s, n)
  }

  ghost predicate ScansOk(progressive: bool, scans: seq<Scan>, n: int, top: int) {
    forall j :: 0 <= j < |scans| ==> ScanOk(progressive, scans[..j], scans[j], n, top)
  }

  /** Every component is there, at least with some of its DC bits. */
  ghost predicate Complete(progressive: bool, scans: seq<Scan>, n: int) {
    forall c :: 0 <= c < n ==> if progressive then LastAl(scans, c, 0) >= 0 else Sent(scans, c)
  }

  /** The scripts that are valid for an image with n components, top being the highest bit position in use. */
  ghost predicate ValidScript(scans: seq<Scan>, n: int, top: int) {
    |scans| > 0 && ScansOk(Progressive(scans), scans, n, top) && Complete(Progressive(scans), scans, n)
  }

  /** One more scan. */
  lemma ScansOkAppend(progressive: bool, scans: seq<Scan>, s: Scan, n: int, top: int)
    ensures ScansOk(progressive, scans + [s], n, top) <==>
      ScansOk(progressive, scans, n, top) && ScanOk(progressive, scans, s, n, top)
  {
    hide ScanOk;
    var all := scans + [s];
    assert all[..|scans|] == scans && all[|scans|] == s;
    forall j | 0 <= j < |scans| ensures all[..j] == scans[..j] && all[j] == scans[j] {}
  }

  /** A script that is valid for some highest bit position is valid for any higher one. */
  lemma HigherTop(scans: seq<Scan>, n: int, top: int, higher: int)
    requires ValidScript(scans, n, top) && top <= higher
    ensures ValidScript(scans, n, higher)
  {
    hide ComponentsOk, Follows, Sends, SequentialOk;
    forall j | 0 <= j < |scans|
      ensures ScanOk(Progressive(scans), scans[..j], scans[j], n, higher)
    {
      assert ScanOk(Progressive(scans), scans[..j], scans[j], n, top);
    }
  }

  lemma LastAlAppend(scans: seq<Scan>, s: Scan, c: int, k: int)
    ensures LastAl(scans + [s], c, k) == if Covers(s, c, k) then s.al else LastAl(scans, c, k)
  {
    assert (scans + [s])[..|scans|] == scans;
  }

  lemma SentAppend(scans: seq<Scan>, s: Scan, c: int)
    ensures Sent(scans + [s], c) <==> Sent(scans, c) || Sends(s, c)
  {
    var all := scans + [s];
    if Sends(s, c) { assert Sends(all[|scans|], c); }
    if Sent(scans, c) {
      var j :| 0 <= j < |scans| && Sends(scans[j], c);
      assert Sends(all[j], c);
    }
  }

  lemma SendsOne(s: Scan, ci: int)
    requires 0 <= ci < s.comps <= MAX_COMPS_IN_SCAN
    ensures Sends(s, s.index[ci])
  {
  }

  lemma {:induction false} LastAlAtLeast(scans: seq<Scan>, n: int, top: int, c: int, k: int)
    requires ScansOk(true, scans, n, top)
    ensures -1 <= LastAl(scans, c, k) && (top >= 0 ==> LastAl(scans, c, k) <= top)
  {
    hide Follows, Sends, ComponentsOk;
    if |scans| > 0 {
      var init, s := scans[..|scans| - 1], scans[|scans| - 1];
      assert scans == init + [s];
      ScansOkAppend(true, init, s, n, top);
      LastAlAtLeast(init, n, top, c, k);
    }
  }
}
