/** The compressor's checks on a scan script, and its adaptation to blocks smaller than 8x8. */
module ScriptValidation {
  import opened Coefficients
  import opened ScanScripts

  datatype Verdict =
    | Valid(progressive: bool)
    | ComponentCount(scanno: nat)
    | BadScanScript(scanno: nat)
    | BadProgScript(scanno: nat)
    | MissingData

  /** bits[c, k] is the last bit sent of coefficient k of component c. */
  ghost predicate Tracks(bits: array2<int>, scans: seq<Scan>, n: nat)
    reads bits
  {
    && bits.Length0 == n && bits.Length1 == DCTSIZE2
    && forall c, k :: 0 <= c < n && 0 <= k < DCTSIZE2 ==> bits[c, k] == LastAl(scans, c, k)
  }

  ghost predicate Marks(sent: array<bool>, scans: seq<Scan>, n: nat)
    reads sent
  {
    sent.Length == n && forall c :: 0 <= c < n ==> (sent[c] <==> Sent(scans, c))
  }

  /** The component indexes of one scan. */
  method CheckComponents(s: Scan, n: nat) returns (countOk: bool, ok: bool)
    ensures countOk <==> 0 < s.comps <= MAX_COMPS_IN_SCAN
    ensures countOk ==> (ok <==> ComponentsOk(s, n))
  {
    countOk := 0 < s.comps <= MAX_COMPS_IN_SCAN;
    ok := countOk;
    if countOk {
      var ci := 0;
      while ci < s.comps
        invariant 0 <= ci <= s.comps
        invariant forall a :: 0 <= a < ci ==> 0 <= s.index[a] < n
        invariant forall a, b :: 0 <= a < b < ci ==> s.index[a] < s.index[b]
      {
        var thisi := s.index[ci];
        if thisi < 0 || thisi >= n || (ci > 0 && thisi <= s.index[ci - 1]) {
          return true, false;
        }
        ci := ci + 1;
      }
    }
  }

  /** Records the scan s for component c, if its bits follow the ones sent before. */
  method SendBand(bits: array2<int>, s: Scan, c: nat, ghost before: seq<Scan>) returns (ok: bool)
    requires c < bits.Length0 && bits.Length1 == DCTSIZE2 && 0 <= s.ss <= s.se < DCTSIZE2 && s.al >= 0
    requires forall k :: 0 <= k < DCTSIZE2 ==> bits[c, k] == LastAl(before, c, k)
    modifies bits
    ensures ok <==> Follows(before, s, c)
    ensures ok ==> forall k :: 0 <= k < DCTSIZE2 ==>
              bits[c, k] == if s.ss <= k <= s.se then s.al else old(bits[c, k])
    ensures forall d, k :: 0 <= d < bits.Length0 && 0 <= k < DCTSIZE2 && d != c ==> bits[d, k] == old(bits[d, k])
  {
    hide LastAl;
    if s.ss != 0 && bits[c, 0] < 0 {
      return false;
    }
    var k := s.ss;
    while k <= s.se
      invariant s.ss <= k <= s.se + 1
      invariant forall j :: 0 <= j < DCTSIZE2 ==> bits[c, j] == if s.ss <= j < k then s.al else old(bits[c, j])
      invariant forall j :: s.ss <= j < k ==> BitsFollow(before, c, j, s.ah, s.al)
      invariant forall d, j :: 0 <= d < bits.Length0 && 0 <= j < DCTSIZE2 && d != c ==> bits[d, j] == old(bits[d, j])
    {
      assert bits[c, k] == LastAl(before, c, k);
      if bits[c, k] < 0 {
        if s.ah != 0 {
          assert !BitsFollow(before, c, k, s.ah, s.al);
          return false;
        }
      } else {
        if s.ah != bits[c, k] || s.al != s.ah - 1 {
          assert !BitsFollow(before, c, k, s.ah, s.al);
          return false;
        }
      }
      bits[c, k] := s.al;
      k := k + 1;
    }
    return true;
  }

  method CheckProgressive(bits: array2<int>, s: Scan, n: nat, top: int, ghost before: seq<Scan>) returns (ok: bool)
    requires Tracks(bits, before, n) && ComponentsOk(s, n)
    modifies bits
    ensures ok <==> ProgressiveOk(before, s, n, top)
    ensures ok ==> Tracks(bits, before + [s], n)
  {
    hide LastAl, Follows;
    if s.ss < 0 || s.ss >= DCTSIZE2 || s.se < s.ss || s.se >= DCTSIZE2 || s.ah < 0 || s.ah > top || s.al < 0
      || s.al > top {
      return false;
    }
    if s.ss == 0 {
      if s.se != 0 { return false; }
    } else {
      if s.comps != 1 { return false; }
    }
    assert BandOk(s, top);
    var ci := 0;
    while ci < s.comps
      invariant 0 <= ci <= s.comps
      invariant forall a :: 0 <= a < ci ==> Follows(before, s, s.index[a])
      invariant forall c, k :: 0 <= c < n && 0 <= k < DCTSIZE2 ==>
                  bits[c, k] == if c in s.index[..ci] && s.ss <= k <= s.se then s.al else LastAl(before, c, k)
    {
      var c := s.index[ci];
      assert c !in s.index[..ci];
      var followed := SendBand(bits, s, c, before);
      assert Sends(s, c);
      if !followed { return false; }
      assert s.index[..ci + 1] == s.index[..ci] + [c];
      ci := ci + 1;
    }
    forall c, k | 0 <= c < n && 0 <= k < DCTSIZE2 ensures bits[c, k] == LastAl(before + [s], c, k) {
      LastAlAppend(before, s, c, k);
      assert c in s.index[..s.comps] <==> Sends(s, c);
    }
    return true;
  }

  method CheckSequential(sent: array<bool>, s: Scan, n: nat, ghost before: seq<Scan>) returns (paramsOk: bool, ok: bool)
    requires Marks(sent, before, n) && ComponentsOk(s, n)
    modifies sent
    ensures ok ==> paramsOk
    ensures paramsOk <==> s.ss == 0 && s.se == DCTSIZE2 - 1 && s.ah == 0 && s.al == 0
    ensures ok <==> SequentialOk(before, s, n)
    ensures ok ==> Marks(sent, before + [s], n)
  {
    hide Sent;
    if s.ss != 0 || s.se != DCTSIZE2 - 1 || s.ah != 0 || s.al != 0 {
      return false, false;
    }
    var ci := 0;
    while ci < s.comps
      invariant 0 <= ci <= s.comps
      invariant forall a :: 0 <= a < ci ==> !Sent(before, s.index[a])
      invariant forall c :: 0 <= c < n ==> (sent[c] <==> Sent(before, c) || c in s.index[..ci])
    {
      var c := s.index[ci];
      assert c !in s.index[..ci];
      if sent[c] {
        assert Sends(s, c);
        return true, false;
      }
      sent[c] := true;
      assert s.index[..ci + 1] == s.index[..ci] + [c];
      ci := ci + 1;
    }
    forall c | 0 <= c < n ensures sent[c] <==> Sent(before + [s], c) {
      SentAppend(before, s, c);
      assert c in s.index[..s.comps] <==> Sends(s, c);
    }
    return true, true;
  }

  /** Why a script is refused: its first bad scan, or a component without data. */
  ghost predicate Explains(v: Verdict, scans: seq<Scan>, n: nat, top: int) {
    match v
    case Valid(progressive) => ValidScript(scans, n, top) && progressive == Progressive(scans)
    case MissingData => |scans| > 0 && ScansOk(Progressive(scans), scans, n, top)
      && !Complete(Progressive(scans), scans, n)
    case ComponentCount(k) => FirstBad(scans, n, top, k) && !(0 < scans[k - 1].comps <= MAX_COMPS_IN_SCAN)
    case BadProgScript(k) => FirstBad(scans, n, top, k) && ComponentsOk(scans[k - 1], n)
    case BadScanScript(k) => if k == 0 then |scans| == 0 else FirstBad(scans, n, top, k)
  }

  ghost predicate FirstBad(scans: seq<Scan>, n: nat, top: int, k: nat) {
    && 0 < k <= |scans|
    && ScansOk(Progressive(scans), scans[..k - 1], n, top)
    && !ScanOk(Progressive(scans), scans[..k - 1], scans[k - 1], n, top)
  }

  /** One scan of the script, number scanno. */
  method CheckScan(progressive: bool, bits: array2<int>, sent: array<bool>, s: Scan, n: nat, top: int, scanno: nat,
                   ghost before: seq<Scan>) returns (v: Verdict)
    requires (progressive ==> Tracks(bits, before, n)) && (!progressive ==> Marks(sent, before, n))
    modifies bits, sent
    ensures v.Valid? <==> ScanOk(progressive, before, s, n, top)
    ensures v.Valid? ==> (progressive ==> Tracks(bits, before + [s], n))
                         && (!progressive ==> Marks(sent, before + [s], n))
    ensures v.Valid? || Names(v, s, n, scanno)
  {
    hide LastAl, ProgressiveOk, SequentialOk, Sent, ComponentsOk;
    NotOk(progressive, before, s, n, top);
    var countOk, ok := CheckComponents(s, n);
    if !countOk { return ComponentCount(scanno); }
    if !ok { return BadScanScript(scanno); }
    if progressive {
      ok := CheckProgressive(bits, s, n, top, before);
      if !ok { return BadProgScript(scanno); }
    } else {
      var paramsOk;
      paramsOk, ok := CheckSequential(sent, s, n, before);
      if !paramsOk { return BadProgScript(scanno); }
      if !ok { return BadScanScript(scanno); }
    }
    return Valid(progressive);
  }

  /** The error for scan s. */
  ghost predicate Names(v: Verdict, s: Scan, n: nat, scanno: nat) {
    match v
    case ComponentCount(k) => k == scanno && !(0 < s.comps <= MAX_COMPS_IN_SCAN)
    case BadProgScript(k) => k == scanno && ComponentsOk(s, n)
    case BadScanScript(k) => k == scanno
    case _ => false
  }

  lemma NamedIsExplained(v: Verdict, scans: seq<Scan>, n: nat, top: int, i: nat)
    requires i < |scans| && ScansOk(Progressive(scans), scans[..i], n, top) && Names(v, scans[i], n, i + 1)
    requires !ScanOk(Progressive(scans), scans[..i], scans[i], n, top)
    ensures Explains(v, scans, n, top) && !v.Valid? && !ValidScript(scans, n, top)
  {
    hide ScanOk, ScansOk, ComponentsOk;
    NeverValid(scans, n, top, i);
  }

  /** Whether every component is there. */
  method CheckComplete(progressive: bool, bits: array2<int>, sent: array<bool>, n: nat, ghost scans: seq<Scan>)
    returns (complete: bool)
    requires (progressive ==> Tracks(bits, scans, n)) && (!progressive ==> Marks(sent, scans, n))
    ensures complete <==> Complete(progressive, scans, n)
  {
    hide LastAl, Sent;
    var c := 0;
    while c < n
      invariant 0 <= c <= n
      invariant forall d :: 0 <= d < c ==> if progressive then LastAl(scans, d, 0) >= 0 else Sent(scans, d)
    {
      if (if progressive then bits[c, 0] < 0 else !sent[c]) {
        return false;
      }
      c := c + 1;
    }
    return true;
  }

  /** Refuses exactly the invalid scripts, naming the first bad scan. */
  method ValidateScript(scans: seq<Scan>, n: nat, highPrecision: bool) returns (v: Verdict)
    requires n <= MAX_COMPONENTS
    ensures Explains(v, scans, n, if highPrecision then 13 else 10)
    ensures v.Valid? <==> ValidScript(scans, n, if highPrecision then 13 else 10)
  {
    hide LastAl, ScanOk, Sent, ComponentsOk, Complete, Names;
    var top := if highPrecision then 13 else 10;
    if |scans| == 0 {
      return BadScanScript(0);
    }
    var bits := new int[n, DCTSIZE2]((c, k) => -1);
    var sent := new bool[n](c => false);
    NothingYet();
    var progressive := scans[0].ss != 0 || scans[0].se != DCTSIZE2 - 1;
    var i := 0;
    while i < |scans|
      invariant 0 <= i <= |scans|
      invariant progressive ==> Tracks(bits, scans[..i], n)
      invariant !progressive ==> Marks(sent, scans[..i], n)
      invariant ScansOk(progressive, scans[..i], n, top)
    {
      assert scans[..i + 1] == scans[..i] + [scans[i]];
      ScansOkAppend(progressive, scans[..i], scans[i], n, top);
      v := CheckScan(progressive, bits, sent, scans[i], n, top, i + 1, scans[..i]);
      if !v.Valid? {
        NamedIsExplained(v, scans, n, top, i);
        return;
      }
      i := i + 1;
    }
    assert scans[..i] == scans;
    var complete := CheckComplete(progressive, bits, sent, n, scans);
    return if complete then Valid(progressive) else MissingData;
  }

  lemma NothingYet()
    ensures forall c, k :: LastAl([], c, k) == -1
    ensures forall c :: !Sent([], c)
  {
  }

  lemma NotOk(progressive: bool, before: seq<Scan>, s: Scan, n: int, top: int)
    ensures !ComponentsOk(s, n) ==> !ScanOk(progressive, before, s, n, top)
    ensures ScanOk(progressive, before, s, n, top) <==>
            if progressive then ProgressiveOk(before, s, n, top) else SequentialOk(before, s, n)
    ensures ComponentsOk(s, n) ==> 0 < s.comps <= MAX_COMPS_IN_SCAN
  {
  }

  lemma NeverValid(scans: seq<Scan>, n: int, top: int, i: nat)
    requires i < |scans| && !ScanOk(Progressive(scans), scans[..i], scans[i], n, top)
    ensures !ValidScript(scans, n, top)
  {
  }

  // ---------------------------------------------------------------------------------------------
  // Reduced block sizes
  // ---------------------------------------------------------------------------------------------

  /** What is left of a script when blocks end at coefficient lim. */
  function Reduced(scans: seq<Scan>, lim: int): seq<Scan> {
    if |scans| == 0 then []
    else
      var s := scans[|scans| - 1];
      var rest := Reduced(scans[..|scans| - 1], lim);
      if s.ss > lim then rest else rest + [Clipped(s, lim)]
  }

  function Clipped(s: Scan, lim: int): Scan {
    if s.se > lim then s.(se := lim) else s
  }

  lemma ReducedStep(scans: seq<Scan>, lim: int, i: nat)
    requires i < |scans|
    ensures Reduced(scans[..i + 1], lim) ==
            Reduced(scans[..i], lim) + if scans[i].ss > lim then [] else [Clipped(scans[i], lim)]
  {
    assert scans[..i + 1][..i] == scans[..i];
  }

  /** Moves one scan down and limits it to the block; a scan beyond the block is not kept. */
  method ReduceScan(script: array<Scan>, idxin: nat, idxout: nat, limSe: int) returns (kept: bool)
    requires idxout <= idxin < script.Length
    modifies script
    ensures forall i :: 0 <= i < script.Length && i != idxout ==> script[i] == old(script[i])
    ensures kept <==> old(script[idxin]).ss <= limSe
    ensures kept ==> script[idxout] == Clipped(old(script[idxin]), limSe)
  {
    if idxin != idxout {
      script[idxout] := script[idxin];
    }
    if script[idxout].ss > limSe {
      return false;
    }
    if script[idxout].se > limSe {
      var s := script[idxout];
      script[idxout] := s.(se := limSe);
    }
    return true;
  }

  /** Compacts the script in place. */
  method ReduceScript(script: array<Scan>, numScans: nat, limSe: int) returns (idxout: nat)
    requires numScans <= script.Length
    modifies script
    ensures idxout <= numScans && script[..idxout] == Reduced(old(script[..numScans]), limSe)
  {
    hide Reduced, Clipped;
    idxout := 0;
    var idxin := 0;
    ghost var was := script[..numScans];
    EmptyReduced(was, limSe);
    while idxin < numScans
      invariant idxout <= idxin <= numScans
      invariant script[..idxout] == Reduced(was[..idxin], limSe)
      invariant forall i :: idxin <= i < numScans ==> script[i] == was[i]
    {
      ReducedStep(was, limSe, idxin);
      ghost var done := script[..idxout];
      var kept := ReduceScan(script, idxin, idxout, limSe);
      assert script[..idxout] == done;
      if kept {
        idxout := idxout + 1;
        assert script[..idxout] == done + [Clipped(was[idxin], limSe)];
      }
      idxin := idxin + 1;
    }
    assert was[..numScans] == was;
  }

  lemma EmptyReduced(scans: seq<Scan>, lim: int)
    ensures Reduced(scans[..0], lim) == []
  {
  }

  /** The reduced script sends the same bits of every coefficient that is left. */
  lemma {:induction false} ReductionKeepsBits(scans: seq<Scan>, lim: int, c: int, k: int)
    requires k <= lim
    ensures LastAl(Reduced(scans, lim), c, k) == LastAl(scans, c, k)
  {
    if |scans| > 0 {
      var init, s := scans[..|scans| - 1], scans[|scans| - 1];
      ReductionKeepsBits(init, lim, c, k);
      if s.ss <= lim {
        LastAlAppend(Reduced(init, lim), Clipped(s, lim), c, k);
        ClippedSends(s, lim, c);
      }
    }
  }

  lemma ClippedSends(s: Scan, lim: int, c: int)
    ensures Sends(Clipped(s, lim), c) <==> Sends(s, c)
  {
    if Sends(s, c) {
      var ci :| 0 <= ci < s.comps && ci < MAX_COMPS_IN_SCAN && s.index[ci] == c;
      assert Clipped(s, lim).index[ci] == c;
    }
  }

  lemma {:induction false} ReductionKeepsSent(scans: seq<Scan>, lim: int, c: int)
    requires lim >= 0 && forall j :: 0 <= j < |scans| ==> scans[j].ss == 0
    ensures Sent(Reduced(scans, lim), c) <==> Sent(scans, c)
  {
    if |scans| > 0 {
      var init, s := scans[..|scans| - 1], scans[|scans| - 1];
      assert scans == init + [s];
      ReductionKeepsSent(init, lim, c);
      SentAppend(Reduced(init, lim), Clipped(s, lim), c);
      SentAppend(init, s, c);
      ClippedSends(s, lim, c);
    }
  }

  /** A valid progressive script stays in order when it is reduced, and stays inside the smaller blocks. */
  lemma {:induction false} ReductionKeepsOrder(scans: seq<Scan>, n: int, top: int, lim: int)
    requires ScansOk(true, scans, n, top) && lim >= 0
    ensures ScansOk(true, Reduced(scans, lim), n, top)
    ensures forall j :: 0 <= j < |Reduced(scans, lim)| ==> Reduced(scans, lim)[j].se <= lim
    ensures forall c :: LastAl(Reduced(scans, lim), c, 0) == LastAl(scans, c, 0)
  {
    hide LastAl;
    forall c ensures LastAl(Reduced(scans, lim), c, 0) == LastAl(scans, c, 0) { ReductionKeepsBits(scans, lim, c, 0); }
    if |scans| > 0 {
      var init, s := scans[..|scans| - 1], scans[|scans| - 1];
      assert scans == init + [s];
      ScansOkAppend(true, init, s, n, top);
      ReductionKeepsOrder(init, n, top, lim);
      if s.ss <= lim {
        ClippedFollows(init, s, n, top, lim);
        ScansOkAppend(true, Reduced(init, lim), Clipped(s, lim), n, top);
      }
    }
  }

  lemma ClippedFollows(before: seq<Scan>, s: Scan, n: int, top: int, lim: int)
    requires ProgressiveOk(before, s, n, top) && s.ss <= lim
    ensures ProgressiveOk(Reduced(before, lim), Clipped(s, lim), n, top)
  {
    hide LastAl, Reduced, Sends;
    var r := Clipped(s, lim);
    forall c | Sends(r, c) ensures Follows(Reduced(before, lim), r, c) {
      ClippedSends(s, lim, c);
      assert Follows(before, s, c);
      if s.ss != 0 { ReductionKeepsBits(before, lim, c, 0); }
      forall k | r.ss <= k <= r.se ensures BitsFollow(Reduced(before, lim), c, k, r.ah, r.al) {
        ReductionKeepsBits(before, lim, c, k);
        assert BitsFollow(before, c, k, s.ah, s.al);
      }
    }
  }
}
