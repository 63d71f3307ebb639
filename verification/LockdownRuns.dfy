/**
 * Whole runs of the lockdown tool: what holds at every moment of every run, and from which resting states the badge
 * can still be locked to the end.
 */
module LockdownRuns {
  import opened Lockdown

  ghost predicate IsRun(t: seq<State>) {
    |t| > 0 && forall i :: 0 <= i < |t| - 1 ==> Next(t[i], t[i + 1])
  }

  lemma {:induction false} RunInv(t: seq<State>, i: nat)
    requires IsRun(t) && Inv(t[0]) && i < |t|
    ensures Inv(t[i])
  {
    hide Inv, Next;
    if i > 0 {
      RunInv(t, i - 1);
      NextInv(t[i - 1], t[i - 1 + 1]);
    }
  }

  // ---------------------------------------------------------------------------------------------
  // Safety
  // ---------------------------------------------------------------------------------------------

  /** The steps whose effect is in the world, in any manifest: a done step has all its predecessors behind it. */
  predicate StepsInOrder(w: World, m: Manifest) {
    forall j :: 0 < j < STEPS && Done(w, m, j) ==> Done(w, m, j - 1)
  }

  /** Files, fuses, flash and records name one flash-encryption key and one signing key. */
  predicate OneKeyPair(w: World, m: Manifest) {
    && (w.feBlock.Some? ==> w.feBlock == w.feFile == m.fe)
    && (w.sbBlock.Some? ==> w.sbBlock == w.sbFile == w.digestFile == m.sb == m.digest)
    && (m.flashRelease ==>
          w.feBlock.Some? && w.sbBlock.Some? && w.flash == Some(Images(w.feBlock.value, w.sbBlock.value)))
  }

  lemma FitsMeansOrder(w: World, m: Manifest)
    requires InOrder(w) && Fits(w, m)
    ensures StepsInOrder(w, m) && OneKeyPair(w, m)
  {
  }

  /**
   * At every moment of every run: steps are done in list order and there is one pair of keys, whether judged by the
   * manifest on disk or by the tool's own copy; no enable fuse is burned without a recorded release flash, and
   * download mode is only disabled when all steps are done and a verified boot is recorded.
   */
  lemma LockdownIsSafe(t: seq<State>, i: nat)
    requires IsRun(t) && Init(t[0]) && i < |t|
    ensures var w := t[i].w;
            && (!w.disk.Truncated? ==> StepsInOrder(w, Loaded(w.disk)) && OneKeyPair(w, Loaded(w.disk)))
            && (!t[i].pc.Idle? ==> StepsInOrder(w, t[i].pc.m) && OneKeyPair(w, t[i].pc.m))
            && (w.cryptCnt || w.secureBoot ==> RecordedBefore(t, i, (m: Manifest) => m.flashRelease))
            && (w.downloadOff ==>
                  && RecordedBefore(t, i, (m: Manifest) => m.verifiedBoot)
                  && RecordedBefore(t, i, (m: Manifest) => m.flashRelease)
                  && w.feBlock.Some? && w.sbBlock.Some? && w.cryptCnt && w.secureBoot && w.hardened == HARDEN_FUSES)
  {
    hide IsRun, RunFits, Fits, StepsInOrder, OneKeyPair, RecordedBefore;
    RunInvFrom(t, i);
    var w := t[i].w;
    if !w.disk.Truncated? { FitsMeansOrder(w, Loaded(w.disk)); }
    if !t[i].pc.Idle? {
      RunFitsFits(w, t[i].pc);
      FitsMeansOrder(w, t[i].pc.m);
    }
    LoggedMeansRecorded(t, i);
  }

  lemma RunInvFrom(t: seq<State>, i: nat)
    requires IsRun(t) && Init(t[0]) && i < |t|
    ensures Inv(t[i])
  {
    hide Next;
    RunInv(t, i);
  }

  lemma RunFitsFits(w: World, pc: Pc)
    requires RunFits(w, pc) && !pc.Idle?
    ensures Fits(w, pc.m)
  {
  }

  /** Some manifest with this property was completely written to disk at or before moment i. */
  ghost predicate RecordedBefore(t: seq<State>, i: nat, p: Manifest -> bool)
    requires i < |t|
  {
    exists k :: 0 <= k <= i && t[k].w.disk.Saved? && p(t[k].w.disk.m)
  }

  lemma {:induction false} LoggedMeansRecorded(t: seq<State>, i: nat)
    requires IsRun(t) && Init(t[0]) && i < |t|
    ensures t[i].w.flashLogged ==> RecordedBefore(t, i, (m: Manifest) => m.flashRelease)
    ensures t[i].w.bootLogged ==> RecordedBefore(t, i, (m: Manifest) => m.verifiedBoot)
  {
    hide Next;
    if i > 0 {
      LoggedMeansRecorded(t, i - 1);
      assert Next(t[i - 1], t[i - 1 + 1]);
      LogsGrowBySaving(t[i - 1], t[i]);
      if t[i].w.flashLogged && t[i - 1].w.flashLogged {
        RecordedStays(t, i, (m: Manifest) => m.flashRelease);
      }
      if t[i].w.bootLogged && t[i - 1].w.bootLogged {
        RecordedStays(t, i, (m: Manifest) => m.verifiedBoot);
      }
    }
  }

  lemma RecordedStays(t: seq<State>, i: nat, p: Manifest -> bool)
    requires 0 < i < |t| && RecordedBefore(t, i - 1, p)
    ensures RecordedBefore(t, i, p)
  {
  }

  lemma LogsGrowBySaving(s: State, s': State)
    requires Next(s, s')
    ensures s'.w.flashLogged == (s.w.flashLogged || (WriteManifest(s, s') && s'.w.disk.m.flashRelease))
    ensures s'.w.bootLogged == (s.w.bootLogged || (WriteManifest(s, s') && s'.w.disk.m.verifiedBoot))
    ensures WriteManifest(s, s') ==> s'.w.disk.Saved?
  {
    hide Session, KeyStep, BurnStep, FuseStep, FirstOpen;
    if Session(s, s') || KeyStep(s, s') || BurnStep(s, s') || FuseStep(s, s') { OthersLeaveTheRecord(s, s'); }
  }

  lemma OthersLeaveTheRecord(s: State, s': State)
    requires Session(s, s') || KeyStep(s, s') || BurnStep(s, s') || FuseStep(s, s')
    ensures s'.w.flashLogged == s.w.flashLogged && s'.w.bootLogged == s.w.bootLogged
    ensures s'.w.disk == s.w.disk && s'.w.downloadOff == s.w.downloadOff
  {
    hide Session, KeyStep, BurnStep, FuseStep;
    if Session(s, s') || KeyStep(s, s') {
      EarlyLeaveTheRecord(s, s');
    } else {
      LateLeaveTheRecord(s, s');
    }
  }

  lemma EarlyLeaveTheRecord(s: State, s': State)
    requires Session(s, s') || KeyStep(s, s')
    ensures s'.w.flashLogged == s.w.flashLogged && s'.w.bootLogged == s.w.bootLogged
    ensures s'.w.disk == s.w.disk && s'.w.downloadOff == s.w.downloadOff
  {
    hide FirstOpen, Done, Consistent, Loaded, Checked;
  }

  lemma LateLeaveTheRecord(s: State, s': State)
    requires BurnStep(s, s') || FuseStep(s, s')
    ensures s'.w.flashLogged == s.w.flashLogged && s'.w.bootLogged == s.w.bootLogged
    ensures s'.w.disk == s.w.disk && s'.w.downloadOff == s.w.downloadOff
  {
    hide Checked;
  }

  /** What one operation can never take back: keys on file and in fuses, and burned bits. */
  predicate Kept(w: World, w': World) {
    && (w.feFile.Some? ==> w'.feFile == w.feFile)
    && (w.sbFile.Some? ==> w'.sbFile == w.sbFile)
    && (w.digestFile.Some? ==> w'.digestFile == w.digestFile)
    && (w.feBlock.Some? ==> w'.feBlock == w.feBlock)
    && (w.sbBlock.Some? ==> w'.sbBlock == w.sbBlock)
    && (w.cryptCnt ==> w'.cryptCnt) && (w.secureBoot ==> w'.secureBoot)
    && w.hardened <= w'.hardened && (w.downloadOff ==> w'.downloadOff)
  }

  lemma NextKeeps(s: State, s': State)
    requires Inv(s) && Next(s, s')
    ensures Kept(s.w, s'.w)
  {
    hide Inv, FirstOpen, Done, Consistent, Loaded, Checked, KeyStep, BurnStep, FuseStep;
    if KeyStep(s, s') {
      KeyStepKeeps(s, s');
    } else if BurnStep(s, s') {
      BurnStepKeeps(s, s');
    } else if FuseStep(s, s') {
      FuseStepKeeps(s, s');
    }
  }

  lemma KeyStepKeeps(s: State, s': State)
    requires Inv(s) && KeyStep(s, s')
    ensures Kept(s.w, s'.w)
  {
    hide Done, Fits, DiskFits;
  }

  lemma BurnStepKeeps(s: State, s': State)
    requires Inv(s) && BurnStep(s, s')
    ensures Kept(s.w, s'.w)
  {
    hide Done, Fits, DiskFits;
  }

  lemma FuseStepKeeps(s: State, s': State)
    requires FuseStep(s, s')
    ensures Kept(s.w, s'.w)
  {
  }

  /**
   * Over any stretch of any run no key file or fuse is ever replaced: at most one key of each kind exists for a badge.
   */
  lemma {:induction false} KeysAreForever(t: seq<State>, i: nat, j: nat)
    requires IsRun(t) && Init(t[0]) && i <= j < |t|
    ensures Kept(t[i].w, t[j].w)
    decreases j - i
  {
    hide Next, Init, Inv;
    if i < j {
      RunInvFrom(t, j - 1);
      KeysAreForever(t, i, j - 1);
      NextKeeps(t[j - 1], t[j - 1 + 1]);
    }
  }

  /** As long as only the tool burns fuses, the consistency check refuses nothing. */
  lemma AlwaysConsistent(t: seq<State>, i: nat)
    requires IsRun(t) && Init(t[0]) && i < |t| && !t[i].w.disk.Truncated?
    ensures Consistent(t[i].w, Loaded(t[i].w.disk))
  {
    hide Next, Init, Inv, Fits, InOrder, IsRun, FirstOpen;
    RunInvFrom(t, i);
    RestingFits(t[i]);
    OrderIsConsistent(t[i].w, Loaded(t[i].w.disk));
  }

  lemma RestingFits(s: State)
    requires Inv(s)
    ensures InOrder(s.w)
    ensures !s.w.disk.Truncated? ==> Fits(s.w, Loaded(s.w.disk))
  {
  }

  lemma OrderIsConsistent(w: World, m: Manifest)
    requires InOrder(w) && Fits(w, m)
    ensures Consistent(w, m)
  {
    hide InOrder, Fits, FirstOpen;
    FitsMeansOrder(w, m);
    var first := FirstOpen(w, m, 0);
    forall j | first < j < STEPS ensures !Done(w, m, j) { NoneLater(w, m, first, j); }
  }

  lemma {:induction false} NoneLater(w: World, m: Manifest, first: nat, j: nat)
    requires StepsInOrder(w, m) && first < j < STEPS && !Done(w, m, first)
    ensures !Done(w, m, j)
  {
    hide Done;
    if j > first + 1 { NoneLater(w, m, first, j - 1); }
  }

  // ---------------------------------------------------------------------------------------------
  // Progress
  // ---------------------------------------------------------------------------------------------

  /** Some run leads from s to s'. */
  ghost predicate Reaches(s: State, s': State) {
    exists t :: IsRun(t) && t[0] == s && t[|t| - 1] == s'
  }

  lemma ReachesSelf(s: State)
    ensures Reaches(s, s)
  {
    assert IsRun([s]);
    assert [s][0] == s && [s][|[s]| - 1] == s;
  }

  lemma Then(s: State, mid: State, s': State)
    requires Reaches(s, mid) && Next(mid, s')
    ensures Reaches(s, s')
  {
    hide Next;
    var t :| IsRun(t) && t[0] == s && t[|t| - 1] == mid;
    var u := t + [s'];
    forall i | 0 <= i < |u| - 1 ensures Next(u[i], u[i + 1]) {
      if i < |t| - 1 { assert Next(t[i], t[i + 1]); }
    }
    assert IsRun(u) && u[0] == s && u[|u| - 1] == s';
  }

  lemma {:induction false} ReachesInv(s: State, s': State)
    requires Inv(s) && Reaches(s, s')
    ensures Inv(s')
  {
    hide Inv, Next;
    var t :| IsRun(t) && t[0] == s && t[|t| - 1] == s';
    RunInv(t, |t| - 1);
  }

  lemma {:induction false} ReachesAcross(s: State, mid: State, t: seq<State>, n: nat)
    requires Reaches(s, mid) && IsRun(t) && t[0] == mid && n < |t|
    ensures Reaches(s, t[n])
  {
    hide Next, Reaches;
    if n > 0 {
      ReachesAcross(s, mid, t, n - 1);
      assert Next(t[n - 1], t[n - 1 + 1]);
      Then(s, t[n - 1], t[n]);
    }
  }

  lemma ReachesOn(s: State, mid: State, s': State)
    requires Reaches(s, mid) && Reaches(mid, s')
    ensures Reaches(s, s')
  {
    hide Next;
    var t :| IsRun(t) && t[0] == mid && t[|t| - 1] == s';
    ReachesAcross(s, mid, t, |t| - 1);
  }

  /**
   * The badge can still be locked to the end: the manifest is readable, every key file that exists is complete and
   * recorded, and the enable fuses have not outrun the record of the verified boot.
   */
  predicate Recoverable(w: World) {
    || w.downloadOff
    || (&& !w.disk.Truncated?
        && var m := Loaded(w.disk);
           && (w.feFile.Some? ==> m.fe.Some?)
           && (w.sbFile.Some? ==> w.digestFile.Some? && m.sb.Some?)
           && (w.cryptCnt && w.secureBoot ==> m.verifiedBoot))
  }

  /** No key file, boot record or manifest can be repaired any more, wherever the run stands. */
  predicate Dead(s: State) {
    && !s.w.downloadOff && !s.pc.Disabling?
    && ((s.w.disk.Truncated? && s.pc.Idle?) || FeLost(s) || DigestLost(s) || SbLost(s) || BootLost(s))
  }

  predicate FeLost(s: State) {
    && s.w.feFile.Some? && s.w.feBlock.None? && !s.pc.FeMade?
    && (!s.w.disk.Truncated? ==> Loaded(s.w.disk).fe.None?) && (!s.pc.Idle? ==> s.pc.m.fe.None?)
  }

  predicate DigestLost(s: State) {
    s.w.sbFile.Some? && s.w.digestFile.None? && !s.pc.SbMade?
  }

  predicate SbLost(s: State) {
    && s.w.sbFile.Some? && s.w.sbBlock.None? && !s.pc.SbMade? && !s.pc.DigestMade?
    && (!s.w.disk.Truncated? ==> Loaded(s.w.disk).sb.None?) && (!s.pc.Idle? ==> s.pc.m.sb.None?)
  }

  predicate BootLost(s: State) {
    && s.w.cryptCnt && s.w.secureBoot && !s.pc.VerifyBoot?
    && ((s.pc.Saving? || s.pc.Writing?) ==> s.pc.after.Stop?)
    && (s.pc.AtStep? ==> s.pc.i > 5)
    && (!s.w.disk.Truncated? ==> !Loaded(s.w.disk).verifiedBoot) && (!s.pc.Idle? ==> !s.pc.m.verifiedBoot)
  }

  lemma TruncationStays(s: State, s': State)
    requires Next(s, s') && s.w.disk.Truncated? && s.pc.Idle?
    ensures s' == s
  {
    hide FirstOpen, Done, Consistent, Loaded, Checked;
  }

  lemma FeLostStays(s: State, s': State)
    requires Inv(s) && Next(s, s') && FeLost(s) && !s.pc.Disabling?
    ensures FeLost(s') && !s'.pc.Disabling? && s'.w.downloadOff == s.w.downloadOff
  {
    hide Consistent, Inv, Session, FirstOpen, KeyStep, BurnStep, FuseStep;
    if Session(s, s') {
      OpenSteps(s, s');
      NoDisabling(s, s', 2);
    } else if KeyStep(s, s') || BurnStep(s, s') {
      FeLostEarly(s, s');
    } else if FuseStep(s, s') {
      FeLostLate(s, s');
    }
  }

  lemma FeLostEarly(s: State, s': State)
    requires FeLost(s) && (KeyStep(s, s') || BurnStep(s, s'))
    ensures FeLost(s') && !s'.pc.Disabling? && s'.w.downloadOff == s.w.downloadOff
  {
  }

  lemma FeLostLate(s: State, s': State)
    requires FeLost(s) && FuseStep(s, s')
    ensures FeLost(s') && !s'.pc.Disabling? && s'.w.downloadOff == s.w.downloadOff
  {
  }

  /** Starting lock-esp leads to an open step; starting disable-download needs all of them done. */
  lemma OpenSteps(s: State, s': State)
    ensures StartLock(s, s') && s'.pc.AtStep? ==>
      s'.pc.i < STEPS && !Done(s.w, s'.pc.m, s'.pc.i) && AllDone(s.w, s'.pc.m, s'.pc.i)
    ensures StartDisable(s, s') ==> AllDone(s.w, Loaded(s.w.disk), STEPS)
  {
    hide Done, Consistent;
  }

  lemma DigestLostStays(s: State, s': State)
    requires Inv(s) && Next(s, s') && DigestLost(s) && !s.pc.Disabling?
    ensures DigestLost(s') && !s'.pc.Disabling? && s'.w.downloadOff == s.w.downloadOff
  {
    hide Consistent, DiskFits, InOrder, Session, FirstOpen;
    if Session(s, s') {
      OpenSteps(s, s');
      NoDisabling(s, s', 1);
    }
  }

  /** A session leaves keys and fuses alone, and does not start disabling while a step is open. */
  lemma NoDisabling(s: State, s': State, i: nat)
    requires Session(s, s') && i < STEPS && !s.pc.Disabling?
      && (!s.w.disk.Truncated? ==> !Done(s.w, Loaded(s.w.disk), i))
    ensures s'.w == s.w.(flash := s'.w.flash)
    ensures !s'.pc.Disabling? && !s'.pc.SbMade? && !s'.pc.DigestMade? && !s'.pc.FeMade? && !s'.pc.VerifyBoot?
    ensures s'.pc.Saving? ==> s'.pc.m == Loaded(s.w.disk) && s'.pc.after.Stop?
    ensures s'.pc.AtStep? ==> s'.pc.m == Loaded(s.w.disk)
    ensures !s'.pc.Idle? ==> !s.w.disk.Truncated? && (s'.pc.Saving? || s'.pc.AtStep?)
  {
    hide Consistent, Done;
    OpenSteps(s, s');
  }

  lemma SbLostStays(s: State, s': State)
    requires Inv(s) && Next(s, s') && SbLost(s) && !s.pc.Disabling?
    ensures SbLost(s') && !s'.pc.Disabling? && s'.w.downloadOff == s.w.downloadOff
  {
    hide Consistent, DiskFits, InOrder, Session, FirstOpen;
    if Session(s, s') {
      OpenSteps(s, s');
      NoDisabling(s, s', 3);
    }
  }

  lemma BootLostStays(s: State, s': State)
    requires Inv(s) && Next(s, s') && BootLost(s) && !s.pc.Disabling?
    ensures BootLost(s') && !s'.pc.Disabling? && s'.w.downloadOff == s.w.downloadOff
  {
    hide Consistent;
    OpenSteps(s, s');
    assert StartLock(s, s') && s'.pc.AtStep? ==> !Done(s.w, s'.pc.m, s'.pc.i);
  }

  lemma DeadStays(s: State, s': State)
    requires Inv(s) && Next(s, s') && Dead(s)
    ensures Dead(s')
  {
    hide Inv, Next, FeLost, DigestLost, SbLost, BootLost;
    if s.w.disk.Truncated? && s.pc.Idle? {
      TruncationStays(s, s');
    } else if FeLost(s) {
      FeLostStays(s, s');
    } else if DigestLost(s) {
      DigestLostStays(s, s');
    } else if SbLost(s) {
      SbLostStays(s, s');
    } else {
      BootLostStays(s, s');
    }
  }

  lemma {:induction false} DeadForGood(t: seq<State>, n: nat)
    requires IsRun(t) && Inv(t[0]) && Dead(t[0]) && n < |t|
    ensures Dead(t[n])
  {
    hide Inv, Next, Dead;
    if n > 0 {
      DeadForGood(t, n - 1);
      RunInv(t, n - 1);
      DeadStays(t[n - 1], t[n - 1 + 1]);
    }
  }

  lemma UnrecoverableIsDead(s: State)
    requires Inv(s) && s.pc.Idle? && !Recoverable(s.w)
    ensures Dead(s)
  {
    hide AllDone;
  }

  /** What a completed save leaves behind. */
  function SavedWorld(w: World, m: Manifest): World {
    w.(disk := Saved(m), flashLogged := w.flashLogged || m.flashRelease, bootLogged := w.bootLogged || m.verifiedBoot)
  }

  lemma Save(s: State, w: World, m: Manifest, after: After)
    requires Reaches(s, State(w, Saving(m, after)))
    ensures Reaches(s, State(SavedWorld(w, m), if after.Stop? then Idle else VerifyBoot(m)))
  {
    hide Reaches;
    var open := State(w.(disk := Truncated), Writing(m, after));
    assert OpenManifest(State(w, Saving(m, after)), open);
    Then(s, State(w, Saving(m, after)), open);
    var done := State(SavedWorld(w, m), if after.Stop? then Idle else VerifyBoot(m));
    assert WriteManifest(open, done);
    Then(s, open, done);
  }

  /** At rest, able to go on, and step i is the next one. */
  ghost predicate Ready(s: State, i: nat) {
    && Inv(s) && s.pc.Idle? && Recoverable(s.w) && !s.w.downloadOff && !s.w.disk.Truncated?
    && i <= STEPS && FirstOpen(s.w, Loaded(s.w.disk), 0) == i
  }

  lemma Begin(s: State, i: nat)
    requires Ready(s, i) && i < STEPS
    ensures Reaches(s, State(s.w, AtStep(i, Loaded(s.w.disk)))) && AllDone(s.w, Loaded(s.w.disk), i)
    ensures !Done(s.w, Loaded(s.w.disk), i)
  {
    hide Reaches, Done;
    ReachesSelf(s);
    RestingFits(s);
    OrderIsConsistent(s.w, Loaded(s.w.disk));
    var next := State(s.w, AtStep(i, Loaded(s.w.disk)));
    assert StartLock(s, next);
    Then(s, s, next);
  }

  /** A step is over once it is done in the saved world: the next open step is the one behind it. */
  lemma Finish(s: State, w: World, m: Manifest, i: nat)
    requires Inv(s) && i < STEPS
    requires Reaches(s, State(w, Saving(m, Stop))) && AllDone(w, m, i + 1) && (i + 1 < STEPS ==> !Done(w, m, i + 1))
    requires Recoverable(SavedWorld(w, m)) && !w.downloadOff
    ensures exists s' :: Reaches(s, s') && Ready(s', i + 1)
  {
    hide Reaches, Inv, Recoverable, FirstOpen;
    Save(s, w, m, Stop);
    var s' := State(SavedWorld(w, m), Idle);
    ReachesInv(s, s');
    forall j | 0 <= j < i + 1 ensures Done(s'.w, m, j) { assert Done(w, m, j); }
    FirstOpenIs(s'.w, m, i + 1);
    assert Ready(s', i + 1);
  }

  lemma StepFe(s: State)
    requires Ready(s, 0)
    ensures exists s' :: Reaches(s, s') && Ready(s', 1)
  {
    hide Reaches, Ready, Inv;
    var m, w := Parts(s, 0);
    Begin(s, 0);
    var made := w.(feFile := Some(0));
    assert GenerateFe(State(w, AtStep(0, m)), State(made, FeMade(m)));
    Then(s, State(w, AtStep(0, m)), State(made, FeMade(m)));
    var m' := m.(fe := Some(0));
    assert RecordFe(State(made, FeMade(m)), State(made, Saving(m', Stop)));
    Then(s, State(made, FeMade(m)), State(made, Saving(m', Stop)));
    Finish(s, made, m', 0);
  }

  lemma Parts(s: State, i: nat) returns (m: Manifest, w: World)
    requires Ready(s, i)
    ensures Inv(s) && s == State(w, Idle) && !w.disk.Truncated? && m == Loaded(w.disk) && !w.downloadOff
      && Recoverable(w)
    ensures InOrder(w) && Fits(w, m)
  {
    hide Inv, Recoverable;
    RestingFits(s);
    m, w := Loaded(s.w.disk), s.w;
  }

  lemma StepSb(s: State)
    requires Ready(s, 1)
    ensures exists s' :: Reaches(s, s') && Ready(s', 2)
  {
    hide Reaches, Ready, Inv, Fits;
    var m, w := Parts(s, 1);
    Begin(s, 1);
    var made := w.(sbFile := Some(0));
    assert GenerateSb(State(w, AtStep(1, m)), State(made, SbMade(m)));
    Then(s, State(w, AtStep(1, m)), State(made, SbMade(m)));
    var both := made.(digestFile := Some(0));
    assert ComputeDigest(State(made, SbMade(m)), State(both, DigestMade(m)));
    Then(s, State(made, SbMade(m)), State(both, DigestMade(m)));
    var m' := m.(sb := Some(0), digest := Some(0));
    assert RecordSb(State(both, DigestMade(m)), State(both, Saving(m', Stop)));
    Then(s, State(both, DigestMade(m)), State(both, Saving(m', Stop)));
    assert Done(w, m, 0);
    Finish(s, both, m', 1);
  }

  lemma StepBurnFe(s: State)
    requires Ready(s, 2)
    ensures exists s' :: Reaches(s, s') && Ready(s', 3)
  {
    hide Reaches, Ready, Inv;
    var m, w := Parts(s, 2);
    Begin(s, 2);
    assert Done(w, m, 1) && Done(w, m, 0);
    var burned := w.(feBlock := w.feFile);
    assert BurnFe(State(w, AtStep(2, m)), State(burned, Saving(m, Stop)));
    Then(s, State(w, AtStep(2, m)), State(burned, Saving(m, Stop)));
    Finish(s, burned, m, 2);
  }

  lemma StepBurnSb(s: State)
    requires Ready(s, 3)
    ensures exists s' :: Reaches(s, s') && Ready(s', 4)
  {
    hide Reaches, Ready, Inv;
    var m, w := Parts(s, 3);
    Begin(s, 3);
    assert Done(w, m, 2) && Done(w, m, 1) && Done(w, m, 0);
    var burned := w.(sbBlock := w.digestFile);
    assert BurnSb(State(w, AtStep(3, m)), State(burned, Saving(m, Stop)));
    Then(s, State(w, AtStep(3, m)), State(burned, Saving(m, Stop)));
    Finish(s, burned, m, 3);
  }

  lemma StepFlash(s: State)
    requires Ready(s, 4)
    ensures exists s' :: Reaches(s, s') && Ready(s', 5)
  {
    hide Reaches, Ready, Inv;
    var m, w := Parts(s, 4);
    Begin(s, 4);
    assert Done(w, m, 3) && Done(w, m, 2) && Done(w, m, 1) && Done(w, m, 0);
    var now := w.(flash := Some(Images(w.feFile.value, w.sbFile.value)));
    assert FlashRelease(State(w, AtStep(4, m)), State(now, Flashed(m)));
    Then(s, State(w, AtStep(4, m)), State(now, Flashed(m)));
    var m' := m.(flashRelease := true);
    assert RecordFlash(State(now, Flashed(m)), State(now, Saving(m', Stop)));
    Then(s, State(now, Flashed(m)), State(now, Saving(m', Stop)));
    Finish(s, now, m', 4);
  }

  lemma StepEnable(s: State)
    requires Ready(s, 5)
    ensures exists s' :: Reaches(s, s') && Ready(s', 6)
  {
    hide Reaches, Ready, Inv;
    var m, w := Parts(s, 5);
    Begin(s, 5);
    var one, two := w.(cryptCnt := true), w.(cryptCnt := true, secureBoot := true);
    assert BurnEnable(State(w, AtStep(5, m)), State(one, AtStep(5, m)));
    Then(s, State(w, AtStep(5, m)), State(one, AtStep(5, m)));
    assert BurnEnable(State(one, AtStep(5, m)), State(two, AtStep(5, m)));
    Then(s, State(one, AtStep(5, m)), State(two, AtStep(5, m)));
    assert ReadBackEnable(State(two, AtStep(5, m)), State(two, Saving(m, Verify)));
    Then(s, State(two, AtStep(5, m)), State(two, Saving(m, Verify)));
    Save(s, two, m, Verify);
    var saved, m' := SavedWorld(two, m), m.(verifiedBoot := true);
    assert BootVerified(State(saved, VerifyBoot(m)), State(saved, Saving(m', Stop)));
    Then(s, State(saved, VerifyBoot(m)), State(saved, Saving(m', Stop)));
    forall j | 0 <= j < 6 ensures Done(saved, m', j) { assert j < 5 ==> Done(w, m, j); }
    Finish(s, saved, m', 5);
  }

  function FirstFuses(n: nat): set<nat> {
    if n == 0 then {} else FirstFuses(n - 1) + {n - 1}
  }

  lemma {:induction false} FirstFusesAre(n: nat, f: nat)
    ensures f in FirstFuses(n) <==> f < n
  {
    if n > 0 { FirstFusesAre(n - 1, f); }
  }

  lemma {:induction false} BurnUpTo(s: State, w: World, m: Manifest, n: nat)
    requires Reaches(s, State(w, AtStep(6, m))) && n <= 6
    ensures Reaches(s, State(w.(hardened := w.hardened + FirstFuses(n)), AtStep(6, m)))
  {
    hide Reaches;
    if n == 0 {
      assert w.(hardened := w.hardened + FirstFuses(n)) == w;
    } else {
      BurnUpTo(s, w, m, n - 1);
      var before := State(w.(hardened := w.hardened + FirstFuses(n - 1)), AtStep(6, m));
      var after := State(w.(hardened := w.hardened + FirstFuses(n)), AtStep(6, m));
      var f: nat := n - 1;
      assert f in HARDEN_FUSES && after.w.hardened == before.w.hardened + {f};
      assert BurnHarden(before, after);
      Then(s, before, after);
    }
  }

  lemma StepHarden(s: State)
    requires Ready(s, 6)
    ensures exists s' :: Reaches(s, s') && Ready(s', 7)
  {
    hide Reaches, Ready, Inv;
    var m, w := Parts(s, 6);
    Begin(s, 6);
    BurnUpTo(s, w, m, 6);
    var hard := w.(hardened := w.hardened + FirstFuses(6));
    forall f: nat ensures f in hard.hardened <==> f in HARDEN_FUSES { FirstFusesAre(6, f); }
    assert hard.hardened == HARDEN_FUSES;
    assert ReadBackHarden(State(hard, AtStep(6, m)), State(hard, Saving(m, Stop)));
    Then(s, State(hard, AtStep(6, m)), State(hard, Saving(m, Stop)));
    forall j | 0 <= j < 7 ensures Done(hard, m, j) { assert j < 6 ==> Done(w, m, j); }
    Finish(s, hard, m, 6);
  }

  lemma StepDisable(s: State)
    requires Ready(s, 7)
    ensures exists s' :: Reaches(s, s') && s'.w.downloadOff
  {
    hide Reaches, Inv, Done;
    ReachesSelf(s);
    var m, w := Parts(s, 7);
    assert Done(w, m, 5);
    DoneEnable(w, m);
    assert StartDisable(s, State(w, Disabling(m)));
    Then(s, s, State(w, Disabling(m)));
    var off := State(w.(downloadOff := true), Saving(m, Stop));
    assert BurnDisable(State(w, Disabling(m)), off);
    Then(s, State(w, Disabling(m)), off);
  }

  lemma DoneEnable(w: World, m: Manifest)
    requires Done(w, m, 5)
    ensures w.cryptCnt && w.secureBoot
  {
  }

  lemma StepNext(s: State, i: nat)
    requires Ready(s, i) && i < STEPS
    ensures exists s' :: Reaches(s, s') && Ready(s', i + 1)
  {
    hide Reaches, Inv, Done, Recoverable, FirstOpen;
    match i {
      case 0 => StepFe(s);
      case 1 => StepSb(s);
      case 2 => StepBurnFe(s);
      case 3 => StepBurnSb(s);
      case 4 => StepFlash(s);
      case 5 => StepEnable(s);
      case _ => StepHarden(s);
    }
  }

  /** Without crashes the steps follow one another. */
  lemma {:induction false} StepsUpTo(s: State, i: nat, n: nat)
    requires Ready(s, i) && i <= n <= STEPS
    ensures exists s' :: Reaches(s, s') && Ready(s', n)
    decreases n
  {
    hide Reaches, Ready;
    if i == n {
      ReachesSelf(s);
    } else {
      StepsUpTo(s, i, n - 1);
      var mid :| Reaches(s, mid) && Ready(mid, n - 1);
      StepNext(mid, n - 1);
      var s' :| Reaches(mid, s') && Ready(s', n);
      ReachesOn(s, mid, s');
    }
  }

  lemma ReadyFinishes(s: State, i: nat)
    requires Ready(s, i)
    ensures exists s' :: Reaches(s, s') && s'.w.downloadOff
  {
    hide Reaches;
    StepsUpTo(s, i, STEPS);
    var mid :| Reaches(s, mid) && Ready(mid, STEPS);
    StepDisable(mid);
    var s' :| Reaches(mid, s') && s'.w.downloadOff;
    ReachesOn(s, mid, s');
  }

  /**
   * From a resting state of any run, download mode can still be disabled if and only if the state is recoverable.  A
   * crash between writing a key file and saving its record, or after the enable fuses but before the verified boot is
   * saved, or while the manifest is being written, ends the lockdown for good.
   */
  lemma LockdownCanFinish(t: seq<State>, i: nat)
    requires IsRun(t) && Init(t[0]) && i < |t| && t[i].pc.Idle?
    ensures (exists s' :: Reaches(t[i], s') && s'.w.downloadOff) <==> Recoverable(t[i].w)
  {
    hide Next, Init, Inv, FirstOpen, Recoverable;
    RunInvFrom(t, i);
    var s := t[i];
    if Recoverable(s.w) {
      RecoverableFinishes(s);
    } else {
      UnrecoverableIsDead(s);
      forall s' | Reaches(s, s') ensures !s'.w.downloadOff {
        var u :| IsRun(u) && u[0] == s && u[|u| - 1] == s';
        DeadForGood(u, |u| - 1);
      }
    }
  }

  lemma RecoverableFinishes(s: State)
    requires Inv(s) && s.pc.Idle? && Recoverable(s.w)
    ensures exists s' :: Reaches(s, s') && s'.w.downloadOff
  {
    hide Reaches, Inv, FirstOpen;
    if s.w.downloadOff {
      ReachesSelf(s);
    } else {
      ReadyFinishes(s, FirstOpen(s.w, Loaded(s.w.disk), 0));
    }
  }

  // ---------------------------------------------------------------------------------------------
  // Hardening and the verified boot
  // ---------------------------------------------------------------------------------------------

  /** A crash behind the enable fuses: the next start of lock-esp goes on to harden, with no boot verified. */
  lemma PastTheBootCheck(s: State) returns (w: World, m: Manifest)
    requires Ready(s, 5)
    ensures Reaches(s, State(w, AtStep(6, m))) && w.hardened == {} && !w.bootLogged && w.cryptCnt && w.secureBoot
    ensures !w.downloadOff && !w.disk.Truncated? && m == Loaded(w.disk) && !m.verifiedBoot
  {
    hide Reaches, Ready, Inv, FirstOpen;
    var w0;
    m, w0 := Parts(s, 5);
    Begin(s, 5);
    UnhardenedAt5(w0, m);
    var one := w0.(cryptCnt := true);
    w := w0.(cryptCnt := true, secureBoot := true);
    assert BurnEnable(State(w0, AtStep(5, m)), State(one, AtStep(5, m)));
    Then(s, State(w0, AtStep(5, m)), State(one, AtStep(5, m)));
    assert BurnEnable(State(one, AtStep(5, m)), State(w, AtStep(5, m)));
    Then(s, State(one, AtStep(5, m)), State(w, AtStep(5, m)));
    assert Crash(State(w, AtStep(5, m)), State(w, Idle));
    Then(s, State(w, AtStep(5, m)), State(w, Idle));
    ReachesInv(s, State(w, Idle));
    forall j | 0 <= j < 6 ensures Done(w, m, j) { assert j < 5 ==> Done(w0, m, j); }
    StartHardening(s, w, m);
  }

  /** With everything before it done, hardening is the step that lock-esp runs. */
  lemma StartHardening(s: State, w: World, m: Manifest)
    requires Inv(State(w, Idle)) && Reaches(s, State(w, Idle)) && !w.disk.Truncated? && m == Loaded(w.disk)
    requires AllDone(w, m, 6) && w.hardened != HARDEN_FUSES
    ensures Reaches(s, State(w, AtStep(6, m)))
  {
    hide Reaches, Inv, FirstOpen;
    FirstOpenIs(w, m, 6);
    RestingFits(State(w, Idle));
    OrderIsConsistent(w, m);
    assert StartLock(State(w, Idle), State(w, AtStep(6, m)));
    Then(s, State(w, Idle), State(w, AtStep(6, m)));
  }

  /**
   * Hardening does not wait for the verified boot: whenever enabling is the next step, a crash after the fuses lets the
   * tool go on to harden a badge whose boot was never verified.
   */
  lemma HardeningMayPrecedeTheBootCheck(s: State)
    requires Ready(s, 5)
    ensures exists s' :: Reaches(s, s') && s'.w.hardened == HARDEN_FUSES && !s'.w.bootLogged && Dead(State(s'.w, Idle))
  {
    hide Reaches, Ready, Inv, FirstOpen, Dead;
    var _, _ := Parts(s, 5);
    var two, m2 := PastTheBootCheck(s);
    BurnUpTo(s, two, m2, 6);
    var hard := two.(hardened := two.hardened + FirstFuses(6));
    forall f: nat ensures f in hard.hardened <==> f in HARDEN_FUSES { FirstFusesAre(6, f); }
    assert hard.hardened == HARDEN_FUSES;
    ReachesInv(s, State(hard, AtStep(6, m2)));
    assert Crash(State(hard, AtStep(6, m2)), State(hard, Idle));
    Then(s, State(hard, AtStep(6, m2)), State(hard, Idle));
    ReachesInv(s, State(hard, Idle));
    UnrecoverableIsDead(State(hard, Idle));
  }

  /** So it happens to a fresh badge: it comes to the enable step, and may then be hardened unverified. */
  lemma FreshBadgeMayBeHardenedUnverified(s: State)
    requires Init(s)
    ensures exists s5 :: Reaches(s, s5) && Ready(s5, 5)
    ensures exists s' :: Reaches(s, s') && s'.w.hardened == HARDEN_FUSES && !s'.w.bootLogged && Dead(State(s'.w, Idle))
  {
    hide Reaches, Ready, Dead;
    FreshIsReady(s);
    StepsUpTo(s, 0, 5);
    var s5 :| Reaches(s, s5) && Ready(s5, 5);
    HardeningMayPrecedeTheBootCheck(s5);
    var s' :| Reaches(s5, s') && s'.w.hardened == HARDEN_FUSES && !s'.w.bootLogged && Dead(State(s'.w, Idle));
    ReachesOn(s, s5, s');
  }

  lemma FreshIsReady(s: State)
    requires Init(s)
    ensures Ready(s, 0)
  {
    assert !Done(s.w, EMPTY, 0);
  }

  lemma UnhardenedAt5(w: World, m: Manifest)
    requires InOrder(w) && Fits(w, m) && !Done(w, m, 5)
    ensures w.hardened == {} && !m.verifiedBoot && !w.bootLogged
  {
  }

  /**
   * Whenever lock-esp starts to harden, in any run: the manifest is readable, and the boot has been verified if and
   * only if the manifest says so, which is also exactly when the badge can still be locked to the end.
   */
  lemma HardeningStartsVerifiedIff(t: seq<State>, i: nat)
    requires IsRun(t) && Init(t[0]) && i + 1 < |t|
    requires StartLock(t[i], t[i + 1]) && t[i + 1].pc.AtStep? && t[i + 1].pc.i == 6
    ensures !t[i].w.disk.Truncated? && !t[i].w.downloadOff
    ensures t[i].w.bootLogged <==> Loaded(t[i].w.disk).verifiedBoot
    ensures t[i].w.bootLogged <==> Recoverable(t[i].w)
  {
    hide IsRun, FirstOpen, Consistent;
    RunInvFrom(t, i);
    OpenSteps(t[i], t[i + 1]);
    assert Done(t[i].w, t[i + 1].pc.m, 5) && Done(t[i].w, t[i + 1].pc.m, 3) && Done(t[i].w, t[i + 1].pc.m, 2);
  }

  /** And whenever it burns a hardening fuse. */
  lemma HardeningBurnsVerifiedIff(t: seq<State>, i: nat)
    requires IsRun(t) && Init(t[0]) && i + 1 < |t| && BurnHarden(t[i], t[i + 1])
    ensures !t[i].w.disk.Truncated? && (t[i].w.bootLogged <==> Loaded(t[i].w.disk).verifiedBoot)
  {
    hide IsRun;
    RunInvFrom(t, i);
  }

  /** Some continuation burns a hardening fuse while no verified boot has been recorded. */
  ghost predicate HardensUnverified(s: State) {
    exists mid, next :: Reaches(s, mid) && BurnHarden(mid, next) && !mid.w.bootLogged
  }

  /** At rest, the hardening step can no longer be run: it is done, or a step before it, or the manifest, is lost. */
  predicate NoMoreHardening(s: State) {
    s.w.hardened == HARDEN_FUSES || s.w.disk.Truncated? || FeLost(s) || DigestLost(s) || SbLost(s)
  }

  /**
   * From a resting state of any run: every continuation that hardens does so after a verified boot, if and only if the
   * boot has been recorded already or the hardening step can no longer be run.
   */
  lemma HardeningFollowsTheBootIff(t: seq<State>, i: nat)
    requires IsRun(t) && Init(t[0]) && i < |t| && t[i].pc.Idle?
    ensures !HardensUnverified(t[i]) <==> t[i].w.bootLogged || NoMoreHardening(t[i])
  {
    hide Init, Inv, Next, HardensUnverified, NoMoreHardening;
    RunInvFrom(t, i);
    if t[i].w.bootLogged || NoMoreHardening(t[i]) {
      HardensVerified(t[i]);
    } else {
      CanHardenUnverified(t[i]);
    }
  }

  lemma HardensVerified(s: State)
    requires Inv(s) && s.pc.Idle? && (s.w.bootLogged || NoMoreHardening(s))
    ensures !HardensUnverified(s)
  {
    hide Inv, NoMoreHardening, Blocked;
    forall mid, next | Reaches(s, mid) && BurnHarden(mid, next)
      ensures mid.w.bootLogged
    {
      var u :| IsRun(u) && u[0] == s && u[|u| - 1] == mid;
      RunInv(u, |u| - 1);
      if s.w.bootLogged {
        LoggedForGood(u, |u| - 1);
      } else {
        RestIsBlocked(s);
        BlockedForGood(u, |u| - 1);
        BlockedBurnsNothing(mid, next);
      }
    }
  }

  lemma {:induction false} LoggedForGood(t: seq<State>, n: nat)
    requires IsRun(t) && t[0].w.bootLogged && n < |t|
    ensures t[n].w.bootLogged
  {
    hide Next;
    if n > 0 {
      LoggedForGood(t, n - 1);
      assert Next(t[n - 1], t[n - 1 + 1]);
      LogsGrowBySaving(t[n - 1], t[n]);
    }
  }

  /** Wherever a run stands, it will not come to harden. */
  predicate Blocked(s: State) {
    || (s.w.hardened == HARDEN_FUSES && !(s.pc.AtStep? && s.pc.i == 6))
    || (!s.pc.Disabling? && ((s.w.disk.Truncated? && s.pc.Idle?) || FeLost(s) || DigestLost(s) || SbLost(s)))
  }

  lemma RestIsBlocked(s: State)
    requires s.pc.Idle? && NoMoreHardening(s)
    ensures Blocked(s)
  {
  }

  lemma BlockedStays(s: State, s': State)
    requires Inv(s) && Next(s, s') && Blocked(s)
    ensures Blocked(s')
  {
    hide Inv, Next, FeLost, DigestLost, SbLost;
    if s.w.hardened == HARDEN_FUSES && !(s.pc.AtStep? && s.pc.i == 6) {
      HardStays(s, s');
    } else if s.w.disk.Truncated? && s.pc.Idle? {
      TruncationStays(s, s');
    } else if FeLost(s) {
      FeLostStays(s, s');
    } else if DigestLost(s) {
      DigestLostStays(s, s');
    } else {
      SbLostStays(s, s');
    }
  }

  /** Once all fuses are burned, the hardening step is not started again. */
  lemma HardStays(s: State, s': State)
    requires Inv(s) && Next(s, s') && s.w.hardened == HARDEN_FUSES && !(s.pc.AtStep? && s.pc.i == 6)
    ensures s'.w.hardened == HARDEN_FUSES && !(s'.pc.AtStep? && s'.pc.i == 6)
  {
    hide Inv, KeyStep, BurnStep, FirstOpen, Consistent;
    OpenSteps(s, s');
    if KeyStep(s, s') || BurnStep(s, s') {
      StartsNoStep(s, s');
    }
  }

  lemma StartsNoStep(s: State, s': State)
    requires KeyStep(s, s') || BurnStep(s, s')
    ensures s'.w.hardened == s.w.hardened && !s'.pc.AtStep?
  {
    hide Checked;
  }

  lemma {:induction false} BlockedForGood(t: seq<State>, n: nat)
    requires IsRun(t) && Inv(t[0]) && Blocked(t[0]) && n < |t|
    ensures Blocked(t[n])
  {
    hide Inv, Next, Blocked;
    if n > 0 {
      BlockedForGood(t, n - 1);
      RunInv(t, n - 1);
      BlockedStays(t[n - 1], t[n - 1 + 1]);
    }
  }

  lemma BlockedBurnsNothing(s: State, s': State)
    requires Inv(s) && Blocked(s)
    ensures !BurnHarden(s, s')
  {
    KeysAtHardening(s);
  }

  lemma KeysAtHardening(s: State)
    requires Inv(s)
    ensures s.pc.AtStep? && s.pc.i == 6 ==> s.w.digestFile.Some? && s.w.feBlock.Some? && s.w.sbBlock.Some?
  {
    if s.pc.AtStep? && s.pc.i == 6 {
      assert Done(s.w, s.pc.m, 1) && Done(s.w, s.pc.m, 2) && Done(s.w, s.pc.m, 3);
    }
  }

  lemma CanHardenUnverified(s: State)
    requires Inv(s) && s.pc.Idle? && !s.w.bootLogged && !NoMoreHardening(s)
    ensures HardensUnverified(s)
  {
    hide Reaches, Inv, Ready, FirstOpen, Recoverable;
    ReachesSelf(s);
    if s.w.cryptCnt && s.w.secureBoot {
      EnabledIsInOrder(s);
      StartHardening(s, s.w, Loaded(s.w.disk));
      BurnsOne(s, s.w, Loaded(s.w.disk));
    } else {
      var i := UnenabledIsReady(s);
      StepsUpTo(s, i, 5);
      var s5 :| Reaches(s, s5) && Ready(s5, 5);
      var w, m := PastTheBootCheck(s5);
      ReachesOn(s, s5, State(w, AtStep(6, m)));
      BurnsOne(s, w, m);
    }
  }

  /** The enable fuses have everything before them behind them. */
  lemma EnabledIsInOrder(s: State)
    requires Inv(s) && s.w.cryptCnt && s.w.secureBoot && !s.w.disk.Truncated?
    ensures AllDone(s.w, Loaded(s.w.disk), 6)
  {
  }

  lemma UnenabledIsReady(s: State) returns (i: nat)
    requires Inv(s) && s.pc.Idle? && !s.w.bootLogged && !NoMoreHardening(s) && !(s.w.cryptCnt && s.w.secureBoot)
    ensures i <= 5 && Ready(s, i)
  {
    i := FirstOpen(s.w, Loaded(s.w.disk), 0);
  }

  lemma BurnsOne(s: State, w: World, m: Manifest)
    requires Reaches(s, State(w, AtStep(6, m))) && !w.bootLogged
    ensures HardensUnverified(s)
  {
    hide Reaches;
    var mid, f: nat := State(w, AtStep(6, m)), 0;
    var next := State(w.(hardened := w.hardened + {f}), AtStep(6, m));
    assert f in HARDEN_FUSES;
    assert BurnHarden(mid, next);
  }

  lemma FirstOpenIs(w: World, m: Manifest, i: nat)
    requires i <= STEPS && AllDone(w, m, i) && (i < STEPS ==> !Done(w, m, i))
    ensures FirstOpen(w, m, 0) == i
  {
    hide Done;
  }
}
