/** The decompressor's checks on the scans it meets, and why no valid script fails them. */
module ScriptDecoding {
  import opened Coefficients
  import opened ScanScripts
  import opened ScriptValidation

  /** Scan parameters the progressive decoder refuses outright. */
  predicate Refused(s: Scan, limSe: int) {
    || (if s.ss == 0 then s.se != 0 else s.se < s.ss || s.se > limSe || s.comps != 1)
    || (s.ah != 0 && s.ah - 1 != s.al)
    || s.al > 13
  }

  /** No warning is due for component c of scan s. */
  ghost predicate InSequence(before: seq<Scan>, s: Scan, c: int) {
    && (s.ss != 0 ==> LastAl(before, c, 0) >= 0)
    && forall k :: s.ss <= k <= s.se ==> s.ah == Expected(before, c, k)
  }

  ghost function Expected(before: seq<Scan>, c: int, k: int): int {
    if LastAl(before, c, k) < 0 then 0 else LastAl(before, c, k)
  }

  ghost predicate Clean(before: seq<Scan>, s: Scan, limSe: int) {
    !Refused(s, limSe) && forall c :: Sends(s, c) ==> InSequence(before, s, c)
  }

  /** The progression status the decoder keeps over all scans of a file. */
  class ProgressionStatus {
    const n: nat
    const limSe: int
    const coefBits: array2<int>
    var warnings: nat
    ghost var seen: seq<Scan>

    ghost predicate Valid()
      reads this, coefBits
    {
      && 0 <= limSe < DCTSIZE2
      && coefBits.Length0 == n && coefBits.Length1 == DCTSIZE2
      && forall c, k :: 0 <= c < n && 0 <= k < DCTSIZE2 ==> coefBits[c, k] == LastAl(seen, c, k)
    }

    constructor (n: nat, limSe: int)
      requires 0 <= limSe < DCTSIZE2
      ensures Valid() && this.n == n && this.limSe == limSe && seen == [] && warnings == 0 && fresh(coefBits)
    {
      this.n := n;
      this.limSe := limSe;
      coefBits := new int[n, DCTSIZE2]((c, k) => -1);
      warnings := 0;
      seen := [];
    }

    /** One component of a scan: a warning for every coefficient that is not where the scan expects it. */
    method Note(s: Scan, c: nat, ghost before: seq<Scan>)
      requires c < n && coefBits.Length0 == n && coefBits.Length1 == DCTSIZE2
      requires 0 <= s.ss <= s.se < DCTSIZE2 && s.al >= 0
      requires forall k :: 0 <= k < DCTSIZE2 ==> coefBits[c, k] == LastAl(before, c, k)
      modifies this`warnings, coefBits
      ensures warnings >= old(warnings)
      ensures warnings == old(warnings) <==> InSequence(before, s, c)
      ensures forall k :: 0 <= k < DCTSIZE2 ==>
                coefBits[c, k] == if s.ss <= k <= s.se then s.al else old(coefBits[c, k])
      ensures forall d, k :: 0 <= d < n && 0 <= k < DCTSIZE2 && d != c ==> coefBits[d, k] == old(coefBits[d, k])
    {
      hide LastAl;
      if s.ss != 0 && coefBits[c, 0] < 0 {
        warnings := warnings + 1;
      }
      assert warnings == old(warnings) <==> (s.ss != 0 ==> LastAl(before, c, 0) >= 0);
      var k := s.ss;
      while k <= s.se
        invariant s.ss <= k <= s.se + 1
        invariant warnings >= old(warnings)
        invariant warnings == old(warnings) <==>
                  && (s.ss != 0 ==> LastAl(before, c, 0) >= 0)
                  && forall j :: s.ss <= j < k ==> s.ah == Expected(before, c, j)
        invariant forall j :: 0 <= j < DCTSIZE2 ==> coefBits[c, j] == if s.ss <= j < k then s.al
          else old(coefBits[c, j])
        invariant forall d, j :: 0 <= d < n && 0 <= j < DCTSIZE2 && d != c ==> coefBits[d, j] == old(coefBits[d, j])
      {
        var expected := if coefBits[c, k] < 0 then 0 else coefBits[c, k];
        assert coefBits[c, k] == LastAl(before, c, k);
        assert expected == Expected(before, c, k);
        if s.ah != expected {
          warnings := warnings + 1;
        }
        coefBits[c, k] := s.al;
        k := k + 1;
      }
    }

    /** Refuses impossible parameters; otherwise warns exactly when the scan is out of sequence. */
    method StartPass(s: Scan) returns (ok: bool)
      requires Valid() && ComponentsOk(s, n) && 0 <= s.ss && 0 <= s.ah && 0 <= s.al
      modifies this, coefBits
      ensures ok <==> !Refused(s, limSe)
      ensures ok ==> Valid() && seen == old(seen) + [s]
      ensures ok ==> warnings >= old(warnings)
      ensures ok ==> (warnings == old(warnings) <==> Clean(old(seen), s, limSe))
      ensures !ok ==> unchanged(this, coefBits)
    {
      hide LastAl, InSequence;
      if s.ss == 0 {
        if s.se != 0 { return false; }
      } else {
        if s.se < s.ss || s.se > limSe { return false; }
        if s.comps != 1 { return false; }
      }
      if s.ah != 0 {
        if s.ah - 1 != s.al { return false; }
      }
      if s.al > 13 { return false; }
      ghost var before := seen;
      var ci := 0;
      while ci < s.comps
        invariant 0 <= ci <= s.comps && seen == before
        invariant warnings >= old(warnings)
        invariant warnings == old(warnings) <==> forall a :: 0 <= a < ci ==> InSequence(before, s, s.index[a])
        invariant forall c, k :: 0 <= c < n && 0 <= k < DCTSIZE2 ==>
                    coefBits[c, k] == if c in s.index[..ci] && s.ss <= k <= s.se then s.al else LastAl(before, c, k)
      {
        var c := s.index[ci];
        assert c !in s.index[..ci];
        Note(s, c, before);
        assert s.index[..ci + 1] == s.index[..ci] + [c];
        ci := ci + 1;
      }
      forall c, k | 0 <= c < n && 0 <= k < DCTSIZE2 ensures coefBits[c, k] == LastAl(before + [s], c, k) {
        LastAlAppend(before, s, c, k);
        assert c in s.index[..s.comps] <==> Sends(s, c);
      }
      assert (forall a :: 0 <= a < ci ==> InSequence(before, s, s.index[a])) <==>
             (forall c :: Sends(s, c) ==> InSequence(before, s, c)) by {
        EachIsSent(before, s, n);
      }
      seen := before + [s];
      return true;
    }
  }

  lemma EachIsSent(before: seq<Scan>, s: Scan, n: int)
    requires ComponentsOk(s, n)
    ensures (forall a :: 0 <= a < s.comps ==> InSequence(before, s, s.index[a])) <==>
            (forall c :: Sends(s, c) ==> InSequence(before, s, c))
  {
    hide InSequence;
    forall a | 0 <= a < s.comps ensures Sends(s, s.index[a]) {}
  }

  /** What the compressor's validation accepts, the decoder takes without a warning. */
  lemma ValidIsClean(before: seq<Scan>, s: Scan, n: int, top: int, limSe: int)
    requires ProgressiveOk(before, s, n, top) && s.se <= limSe && top <= 13
    ensures Clean(before, s, limSe)
  {
    hide LastAl;
    forall c | Sends(s, c) ensures InSequence(before, s, c) {
      forall k | s.ss <= k <= s.se ensures s.ah == Expected(before, c, k) {
        assert BitsFollow(before, c, k, s.ah, s.al);
      }
    }
    assert Sends(s, s.index[0]);
    assert BitsFollow(before, s.index[0], s.ss, s.ah, s.al);
  }

  /** Parameters in range, and no coefficient sent again that is known down to bit 0 already. */
  ghost predicate Sensible(before: seq<Scan>, s: Scan, n: int, top: int) {
    && ComponentsOk(s, n) && 0 <= s.ss && 0 <= s.ah <= top && 0 <= s.al <= top
    && forall c, k :: Sends(s, c) && s.ss <= k <= s.se ==> LastAl(before, c, k) != 0
  }

  /**
   * Of the scans with sensible parameters, validation accepts exactly those that the decoder takes without a warning.
   */
  lemma OkIffClean(before: seq<Scan>, s: Scan, n: int, top: int)
    requires top <= 13 && ScansOk(true, before, n, top)
    ensures ProgressiveOk(before, s, n, top) <==> Sensible(before, s, n, top) && Clean(before, s, DCTSIZE2 - 1)
  {
    hide LastAl, ComponentsOk, ScansOk;
    if ProgressiveOk(before, s, n, top) {
      OneComponent(s, n);
      ValidIsClean(before, s, n, top, DCTSIZE2 - 1);
      forall c, k | Sends(s, c) && s.ss <= k <= s.se ensures LastAl(before, c, k) != 0 {
        assert Follows(before, s, c) && BitsFollow(before, c, k, s.ah, s.al);
      }
    } else if Sensible(before, s, n, top) && Clean(before, s, DCTSIZE2 - 1) {
      forall c | Sends(s, c) ensures Follows(before, s, c) {
        assert InSequence(before, s, c);
        forall k | s.ss <= k <= s.se ensures BitsFollow(before, c, k, s.ah, s.al) {
          assert s.ah == Expected(before, c, k);
        }
      }
      assert false;
    }
  }

  lemma OneComponent(s: Scan, n: int)
    requires ComponentsOk(s, n)
    ensures 0 < s.comps <= MAX_COMPS_IN_SCAN
  {
  }

  /**
   * A progressive script is valid exactly if every scan of it has sensible parameters and is taken without a warning,
   * and every component has some of its DC bits sent.
   */
  lemma ValidIffClean(scans: seq<Scan>, n: int, top: int)
    requires top <= 13 && |scans| > 0 && Progressive(scans)
    ensures ValidScript(scans, n, top) <==>
              && (forall j :: 0 <= j < |scans| ==>
                    Sensible(scans[..j], scans[j], n, top) && Clean(scans[..j], scans[j], DCTSIZE2 - 1))
              && Complete(true, scans, n)
  {
    hide LastAl, Sensible, Clean, ProgressiveOk, ScansOk, Complete;
    OkIffAllClean(scans, n, top, |scans|);
    assert scans[..|scans|] == scans;
  }

  lemma {:induction false} OkIffAllClean(scans: seq<Scan>, n: int, top: int, m: nat)
    requires top <= 13 && m <= |scans|
    ensures ScansOk(true, scans[..m], n, top) <==>
              forall j :: 0 <= j < m ==>
                Sensible(scans[..j], scans[j], n, top) && Clean(scans[..j], scans[j], DCTSIZE2 - 1)
  {
    hide LastAl, Sensible, Clean, ProgressiveOk, ScansOk;
    if m == 0 {
      NoScans(n, top);
      assert scans[..0] == [];
    } else {
      OkIffAllClean(scans, n, top, m - 1);
      assert scans[..m] == scans[..m - 1] + [scans[m - 1]];
      ScansOkAppend(true, scans[..m - 1], scans[m - 1], n, top);
      if ScansOk(true, scans[..m - 1], n, top) {
        OkIffClean(scans[..m - 1], scans[m - 1], n, top);
      }
    }
  }

  lemma NoScans(n: int, top: int)
    ensures ScansOk(true, [], n, top)
  {
  }

  /** Decoding a whole script: how many scans were refused and how many warnings were given. */
  method DecodeScript(scans: seq<Scan>, n: nat, limSe: int) returns (ok: bool, status: ProgressionStatus)
    requires 0 <= limSe < DCTSIZE2
    requires forall j :: 0 <= j < |scans| ==>
               ComponentsOk(scans[j], n) && 0 <= scans[j].ss && 0 <= scans[j].ah && 0 <= scans[j].al
    ensures ok && status.warnings == 0 <==> forall j :: 0 <= j < |scans| ==> Clean(scans[..j], scans[j], limSe)
    ensures ok ==> status.Valid() && status.n == n && status.seen == scans
  {
    hide Clean, LastAl, Refused, ComponentsOk;
    status := new ProgressionStatus(n, limSe);
    var i := 0;
    while i < |scans|
      invariant 0 <= i <= |scans| && status.Valid() && status.seen == scans[..i] && status.n == n
        && status.limSe == limSe
      invariant fresh(status) && fresh(status.coefBits)
      invariant status.warnings == 0 <==> forall j :: 0 <= j < i ==> Clean(scans[..j], scans[j], limSe)
    {
      assert scans[..i + 1] == scans[..i] + [scans[i]];
      RefusedIsNotClean(scans[..i], scans[i], limSe);
      var started := status.StartPass(scans[i]);
      if !started {
        return false, status;
      }
      i := i + 1;
    }
    assert scans[..i] == scans;
    ok := true;
  }

  lemma RefusedIsNotClean(before: seq<Scan>, s: Scan, limSe: int)
    ensures Refused(s, limSe) ==> !Clean(before, s, limSe)
  {
  }

  /**
   * Every progressive script that validation accepts, reduced to the block size in use, passes the decoder without an
   * error or a warning; and the decoder ends up knowing exactly the bits the original script sends.
   */
  method ValidScriptDecodesCleanly(script: array<Scan>, n: nat, highPrecision: bool, limSe: int)
    returns (v: Verdict, ok: bool, numScans: nat, status: ProgressionStatus?)
    requires n <= MAX_COMPONENTS && 0 <= limSe < DCTSIZE2
    modifies script
    ensures v.Valid? <==> ValidScript(old(script[..]), n, if highPrecision then 13 else 10)
    ensures v == Valid(true) ==> ok && status != null && status.warnings == 0
    ensures v == Valid(true) ==> status.n == n && status.coefBits.Length0 == n && status.coefBits.Length1 == DCTSIZE2
    ensures v == Valid(true) ==> forall c, k :: 0 <= c < n && 0 <= k <= limSe ==>
                                   status.coefBits[c, k] == LastAl(old(script[..]), c, k)
  {
    hide ProgressiveOk, SequentialOk, LastAl, Clean, Reduced, Complete;
    ghost var scans := script[..];
    v := ValidateScript(script[..], n, highPrecision);
    ok, numScans, status := false, 0, null;
    if v == Valid(true) {
      ghost var top := if highPrecision then 13 else 10;
      numScans := ReduceScript(script, script.Length, limSe);
      assert script[..numScans] == Reduced(scans, limSe) by { assert scans[..script.Length] == scans; }
      ReductionKeepsOrder(scans, n, top, limSe);
      AllClean(Reduced(scans, limSe), n, top, limSe);
      ok, status := DecodeScript(script[..numScans], n, limSe);
      forall c, k | 0 <= c < n && 0 <= k <= limSe ensures status.coefBits[c, k] == LastAl(scans, c, k) {
        ReductionKeepsBits(scans, limSe, c, k);
      }
    }
  }

  lemma AllClean(scans: seq<Scan>, n: int, top: int, limSe: int)
    requires ScansOk(true, scans, n, top) && top <= 13
    requires forall j :: 0 <= j < |scans| ==> scans[j].se <= limSe
    ensures forall j :: 0 <= j < |scans| ==> Clean(scans[..j], scans[j], limSe)
    ensures forall j :: 0 <= j < |scans| ==>
              ComponentsOk(scans[j], n) && 0 <= scans[j].ss && 0 <= scans[j].ah && 0 <= scans[j].al
  {
    hide LastAl, Clean, Follows, ComponentsOk;
    forall j | 0 <= j < |scans|
      ensures Clean(scans[..j], scans[j], limSe) && ComponentsOk(scans[j], n)
      ensures 0 <= scans[j].ss && 0 <= scans[j].ah && 0 <= scans[j].al
    {
      assert ScanOk(true, scans[..j], scans[j], n, top);
      ValidIsClean(scans[..j], scans[j], n, top, limSe);
    }
  }

  /** The sequential decoder's check: parameters as in a sequential file of this block size. */
  predicate LooksSequential(s: Scan, isBaseline: bool, limSe: int) {
    !(s.ss != 0 || s.ah != 0 || s.al != 0 || ((isBaseline || s.se < DCTSIZE2) && s.se != limSe))
  }

  /** A valid sequential script is taken without a warning as well, and still sends every component once. */
  lemma ValidSequentialIsClean(scans: seq<Scan>, n: int, top: int, isBaseline: bool, limSe: int)
    requires ValidScript(scans, n, top) && !Progressive(scans) && 0 <= limSe < DCTSIZE2
    ensures forall j :: 0 <= j < |Reduced(scans, limSe)| ==>
      LooksSequential(Reduced(scans, limSe)[j], isBaseline, limSe)
    ensures |Reduced(scans, limSe)| == |scans| && forall c :: 0 <= c < n ==> Sent(Reduced(scans, limSe), c)
  {
    hide Sent;
    forall j | 0 <= j < |scans|
      ensures scans[j].ss == 0 && scans[j].se == DCTSIZE2 - 1 && scans[j].ah == 0 && scans[j].al == 0 {
      assert ScanOk(false, scans[..j], scans[j], n, top);
    }
    SequentialClips(scans, limSe);
    forall c | 0 <= c < n ensures Sent(Reduced(scans, limSe), c) { ReductionKeepsSent(scans, limSe, c); }
  }

  lemma {:induction false} SequentialClips(scans: seq<Scan>, limSe: int)
    requires 0 <= limSe < DCTSIZE2
    requires forall j :: 0 <= j < |scans| ==>
      scans[j].ss == 0 && scans[j].se == DCTSIZE2 - 1 && scans[j].ah == 0 && scans[j].al == 0
    ensures |Reduced(scans, limSe)| == |scans|
    ensures forall j :: 0 <= j < |scans| ==>
              var r := Reduced(scans, limSe)[j];
              r.ss == 0 && r.se == limSe && r.ah == 0 && r.al == 0
  {
    if |scans| > 0 {
      SequentialClips(scans[..|scans| - 1], limSe);
    }
  }
}
