/**
 * The lockdown of a badge as a state machine over single operations: files, the manifest, eFuse burns and flash
 * writes.  The tool may crash, or give up, between any two of them and is then started again from nothing.
 */
module Lockdown {

  datatype Option<T> = None | Some(value: T)

  type Key = nat  // key material; a digest is named by the key it belongs to

  /** What the manifest says: hashes of key files, and the stages that later decisions look at. */
  datatype Manifest = Manifest(fe: Option<Key>, sb: Option<Key>, digest: Option<Key>, flashRelease: bool,
      verifiedBoot: bool)

  const EMPTY := Manifest(None, None, None, false, false)

  /** The manifest file; opening it for writing truncates it, and a truncated one cannot be read. */
  datatype Disk = Absent | Truncated | Saved(m: Manifest)

  /** Flash contents: the keys the images were encrypted and signed with. */
  datatype Images = Images(fe: Key, sb: Key)

  const HARDEN_FUSES: set<nat> := {0, 1, 2, 3, 4, 5}

  /** Everything that survives a crash; the last two fields remember what was ever recorded. */
  datatype World = World(
    feFile: Option<Key>, sbFile: Option<Key>, digestFile: Option<Key>, disk: Disk,
    feBlock: Option<Key>, sbBlock: Option<Key>, cryptCnt: bool, secureBoot: bool, hardened: set<nat>, downloadOff: bool,
    flash: Option<Images>,
    flashLogged: bool, bootLogged: bool)

  datatype After = Stop | Verify

  /** Where a run of the tool stands, with its copy of the manifest. */
  datatype Pc =
    | Idle
    | AtStep(i: nat, m: Manifest)
    | FeMade(m: Manifest)
    | SbMade(m: Manifest)
    | DigestMade(m: Manifest)
    | Flashed(m: Manifest)
    | Saving(m: Manifest, after: After)
    | Writing(m: Manifest, after: After)
    | VerifyBoot(m: Manifest)
    | Disabling(m: Manifest)

  datatype State = State(w: World, pc: Pc)

  const STEPS := 7

  /** Whether step i of the list counts as done, judged from the files, the chip and the manifest. */
  predicate Done(w: World, m: Manifest, i: nat) {
    match i
    case 0 => w.feFile.Some?
    case 1 => w.sbFile.Some? && w.digestFile.Some?
    case 2 => w.feBlock.Some?
    case 3 => w.sbBlock.Some?
    case 4 => m.flashRelease
    case 5 => w.secureBoot && w.cryptCnt
    case 6 => w.hardened == HARDEN_FUSES
    case _ => false
  }

  /** The first open step from i on, STEPS if there is none. */
  function FirstOpen(w: World, m: Manifest, i: nat): (first: nat)
    requires i <= STEPS
    ensures i <= first <= STEPS && (forall j :: i <= j < first ==> Done(w, m, j))
      && (first < STEPS ==> !Done(w, m, first))
    decreases STEPS - i
  {
    if i == STEPS || !Done(w, m, i) then i else FirstOpen(w, m, i + 1)
  }

  /** No step after the first open one is done. */
  predicate Consistent(w: World, m: Manifest) {
    forall j :: FirstOpen(w, m, 0) < j < STEPS ==> !Done(w, m, j)
  }

  function Loaded(d: Disk): (m: Manifest)
    requires !d.Truncated?
  {
    if d.Absent? then EMPTY else d.m
  }

  /** A key file is there and matches its record. */
  predicate Checked(record: Option<Key>, file: Option<Key>) {
    record.Some? && file == record
  }

  // ---------------------------------------------------------------------------------------------
  // Operations
  // ---------------------------------------------------------------------------------------------

  predicate Init(s: State) {
    s == State(World(None, None, None, Absent, None, None, false, false, {}, false, None, false, false), Idle)
  }

  /** Starting lock-esp: reads chip and manifest, refuses inconsistent states, and shows the status or runs one step. */
  predicate StartLock(s: State, s': State) {
    && s.pc.Idle? && !s.w.disk.Truncated? && s'.w == s.w
    && var m := Loaded(s.w.disk);
       var first := FirstOpen(s.w, m, 0);
       && Consistent(s.w, m)
       && (s'.pc == Saving(m, Stop) || (first < STEPS && s'.pc == AtStep(first, m)))
  }

  predicate GenerateFe(s: State, s': State) {
    && s.pc.AtStep? && s.pc.i == 0 && s.w.feFile.None?
    && s'.w.feFile.Some? && s'.w == s.w.(feFile := s'.w.feFile) && s'.pc == FeMade(s.pc.m)
  }

  predicate RecordFe(s: State, s': State) {
    s.pc.FeMade? && s' == State(s.w, Saving(s.pc.m.(fe := s.w.feFile), Stop))
  }

  predicate GenerateSb(s: State, s': State) {
    && s.pc.AtStep? && s.pc.i == 1 && s.w.sbFile.None?
    && s'.w.sbFile.Some? && s'.w == s.w.(sbFile := s'.w.sbFile) && s'.pc == SbMade(s.pc.m)
  }

  predicate ComputeDigest(s: State, s': State) {
    s.pc.SbMade? && s' == State(s.w.(digestFile := s.w.sbFile), DigestMade(s.pc.m))
  }

  predicate RecordSb(s: State, s': State) {
    && s.pc.DigestMade?
    && s' == State(s.w, Saving(s.pc.m.(sb := s.w.sbFile, digest := s.w.digestFile), Stop))
  }

  predicate BurnFe(s: State, s': State) {
    && s.pc.AtStep? && s.pc.i == 2 && Checked(s.pc.m.fe, s.w.feFile)
    && s' == State(s.w.(feBlock := s.w.feFile), Saving(s.pc.m, Stop))
  }

  predicate BurnSb(s: State, s': State) {
    && s.pc.AtStep? && s.pc.i == 3 && Checked(s.pc.m.digest, s.w.digestFile)
    && s' == State(s.w.(sbBlock := s.w.digestFile), Saving(s.pc.m, Stop))
  }

  /** Signs, encrypts and flashes the release images. */
  predicate FlashRelease(s: State, s': State) {
    && s.pc.AtStep? && s.pc.i == 4 && Checked(s.pc.m.sb, s.w.sbFile) && Checked(s.pc.m.fe, s.w.feFile)
    && s' == State(s.w.(flash := Some(Images(s.w.feFile.value, s.w.sbFile.value))), Flashed(s.pc.m))
  }

  predicate RecordFlash(s: State, s': State) {
    s.pc.Flashed? && s' == State(s.w, Saving(s.pc.m.(flashRelease := true), Stop))
  }

  /** The two enable fuses, in either order. */
  predicate BurnEnable(s: State, s': State) {
    && s.pc.AtStep? && s.pc.i == 5 && s'.pc == s.pc
    && (s'.w == s.w.(cryptCnt := true) || s'.w == s.w.(secureBoot := true))
  }

  predicate ReadBackEnable(s: State, s': State) {
    s.pc.AtStep? && s.pc.i == 5 && s.w.cryptCnt && s.w.secureBoot && s' == State(s.w, Saving(s.pc.m, Verify))
  }

  /** The badge has booted the encrypted, signed firmware. */
  predicate BootVerified(s: State, s': State) {
    s.pc.VerifyBoot? && s' == State(s.w, Saving(s.pc.m.(verifiedBoot := true), Stop))
  }

  predicate BurnHarden(s: State, s': State) {
    && s.pc.AtStep? && s.pc.i == 6 && s'.pc == s.pc
    && exists f: nat :: f in HARDEN_FUSES && s'.w == s.w.(hardened := s.w.hardened + {f})
  }

  predicate ReadBackHarden(s: State, s': State) {
    s.pc.AtStep? && s.pc.i == 6 && s.w.hardened == HARDEN_FUSES && s' == State(s.w, Saving(s.pc.m, Stop))
  }

  predicate OpenManifest(s: State, s': State) {
    s.pc.Saving? && s' == State(s.w.(disk := Truncated), Writing(s.pc.m, s.pc.after))
  }

  predicate WriteManifest(s: State, s': State) {
    && s.pc.Writing?
    && s'.w == s.w.(disk := Saved(s.pc.m), flashLogged := s.w.flashLogged || s.pc.m.flashRelease,
                    bootLogged := s.w.bootLogged || s.pc.m.verifiedBoot)
    && s'.pc == if s.pc.after.Stop? then Idle else VerifyBoot(s.pc.m)
  }

  /** Starting disable-download: refused unless every step is done and a verified boot is recorded. */
  predicate StartDisable(s: State, s': State) {
    && s.pc.Idle? && !s.w.disk.Truncated? && s'.w == s.w
    && var m := Loaded(s.w.disk);
       FirstOpen(s.w, m, 0) == STEPS && m.verifiedBoot && s'.pc == Disabling(m)
  }

  predicate BurnDisable(s: State, s': State) {
    s.pc.Disabling? && s' == State(s.w.(downloadOff := true), Saving(s.pc.m, Stop))
  }

  /** reflash: new images under the recorded keys, at any time. */
  predicate Reflash(s: State, s': State) {
    && s.pc.Idle? && !s.w.disk.Truncated?
    && var m := Loaded(s.w.disk);
       && Checked(m.sb, s.w.sbFile) && Checked(m.fe, s.w.feFile)
       && s' == State(s.w.(flash := Some(Images(s.w.feFile.value, s.w.sbFile.value))), Saving(m, Stop))
  }

  /** A crash, a refusal, a failed command or a failed check ends the run. */
  predicate Crash(s: State, s': State) {
    s' == State(s.w, Idle)
  }

  predicate Session(s: State, s': State) {
    StartLock(s, s') || StartDisable(s, s') || Reflash(s, s') || Crash(s, s')
  }

  predicate KeyStep(s: State, s': State) {
    GenerateFe(s, s') || RecordFe(s, s') || GenerateSb(s, s') || ComputeDigest(s, s') || RecordSb(s, s')
  }

  predicate BurnStep(s: State, s': State) {
    BurnFe(s, s') || BurnSb(s, s') || FlashRelease(s, s') || RecordFlash(s, s')
  }

  predicate FuseStep(s: State, s': State) {
    BurnEnable(s, s') || ReadBackEnable(s, s') || BootVerified(s, s') || BurnHarden(s, s') || ReadBackHarden(s, s')
  }

  predicate SaveStep(s: State, s': State) {
    OpenManifest(s, s') || WriteManifest(s, s') || BurnDisable(s, s')
  }

  predicate Next(s: State, s': State) {
    Session(s, s') || KeyStep(s, s') || BurnStep(s, s') || FuseStep(s, s') || SaveStep(s, s')
  }

  // ---------------------------------------------------------------------------------------------
  // What every reachable state satisfies
  // ---------------------------------------------------------------------------------------------

  /** Effects appear in list order, and every copy of a key is the same key. */
  predicate InOrder(w: World) {
    && (w.sbFile.Some? ==> w.feFile.Some?)
    && (w.digestFile.Some? ==> w.sbFile == w.digestFile)
    && (w.feBlock.Some? ==> w.feBlock == w.feFile && w.digestFile.Some?)
    && (w.sbBlock.Some? ==> w.sbBlock == w.digestFile && w.feBlock.Some?)
    && (w.flash.Some? ==> w.feFile == Some(w.flash.value.fe) && w.sbFile == Some(w.flash.value.sb))
    && (w.flashLogged ==> w.sbBlock.Some?)
    && (w.cryptCnt || w.secureBoot ==> w.flashLogged)
    && w.hardened <= HARDEN_FUSES
    && (w.hardened != {} ==> w.cryptCnt && w.secureBoot)
    && (w.bootLogged ==> w.cryptCnt && w.secureBoot)
    && (w.downloadOff ==> w.hardened == HARDEN_FUSES && w.bootLogged)
  }

  /**
   * A manifest agrees with the world: its records name the files, nothing burned lacks its record, no stage is
   * invented.
   */
  predicate Fits(w: World, m: Manifest) {
    && (m.fe.Some? ==> w.feFile == m.fe)
    && m.sb == m.digest
    && (m.digest.Some? ==> w.digestFile == m.digest)
    && (w.feBlock.Some? ==> m.fe.Some?)
    && (w.sbBlock.Some? ==> m.digest.Some?)
    && (m.flashRelease ==> w.sbBlock.Some? && w.flash.Some?)
    && (m.verifiedBoot ==> w.cryptCnt && w.secureBoot)
    && (w.flashLogged ==> m.flashRelease)
    && (w.bootLogged ==> m.verifiedBoot)
  }

  predicate DiskFits(w: World) {
    !w.disk.Truncated? ==>
      && Fits(w, Loaded(w.disk))
      && (Loaded(w.disk).flashRelease ==> w.flashLogged)
      && (Loaded(w.disk).verifiedBoot ==> w.bootLogged)
  }

  predicate AllDone(w: World, m: Manifest, n: nat) {
    forall j :: 0 <= j < n ==> Done(w, m, j)
  }

  /** The run has not yet changed its copy of the manifest. */
  predicate Unchanged(pc: Pc) {
    pc.AtStep? || pc.FeMade? || pc.SbMade? || pc.DigestMade? || pc.Flashed? || pc.Disabling?
  }

  predicate RunFits(w: World, pc: Pc) {
    && (!pc.Idle? ==> Fits(w, pc.m))
    && (Unchanged(pc) ==> !w.disk.Truncated? && pc.m == Loaded(w.disk))
    && match pc
       case AtStep(i, m) => i < STEPS && AllDone(w, m, i)
       case FeMade(_) => w.feFile.Some?
       case SbMade(_) => w.sbFile.Some? && w.digestFile.None?
       case DigestMade(_) => w.digestFile.Some?
       case Flashed(_) => w.sbBlock.Some? && w.flash.Some?
       case Saving(_, after) => after.Verify? ==> w.cryptCnt && w.secureBoot
       case Writing(_, after) => after.Verify? ==> w.cryptCnt && w.secureBoot
       case VerifyBoot(_) => w.cryptCnt && w.secureBoot
       case Disabling(m) => AllDone(w, m, STEPS) && m.verifiedBoot
       case Idle => true
  }

  predicate Inv(s: State) {
    InOrder(s.w) && DiskFits(s.w) && RunFits(s.w, s.pc)
  }

  lemma SessionInv(s: State, s': State)
    requires Inv(s) && Session(s, s')
    ensures Inv(s')
  {
  }

  lemma KeyStepInv(s: State, s': State)
    requires Inv(s) && KeyStep(s, s')
    ensures Inv(s')
  {
    if s.pc.AtStep? && s.pc.i == 1 {
      assert Done(s.w, s.pc.m, 0);
    }
  }

  lemma BurnStepInv(s: State, s': State)
    requires Inv(s) && BurnStep(s, s')
    ensures Inv(s')
  {
    if s.pc.AtStep? {
      assert Done(s.w, s.pc.m, s.pc.i - 1);
    }
  }

  lemma FuseStepInv(s: State, s': State)
    requires Inv(s) && FuseStep(s, s')
    ensures Inv(s')
  {
    if s.pc.AtStep? {
      assert Done(s.w, s.pc.m, 4);
      assert s.pc.i == 6 ==> Done(s.w, s.pc.m, 5);
      forall j | 0 <= j < s.pc.i ensures Done(s'.w, s.pc.m, j) {
        assert Done(s.w, s.pc.m, j);
      }
    }
  }

  lemma SaveStepInv(s: State, s': State)
    requires Inv(s) && SaveStep(s, s')
    ensures Inv(s')
  {
    if s.pc.Disabling? {
      assert Done(s.w, s.pc.m, 6);
    }
  }

  /** One invariant, kept by every operation and every crash. */
  lemma NextInv(s: State, s': State)
    requires Inv(s) && Next(s, s')
    ensures Inv(s')
  {
    hide Inv, Session, KeyStep, BurnStep, FuseStep, SaveStep;
    if Session(s, s') {
      SessionInv(s, s');
    } else if KeyStep(s, s') {
      KeyStepInv(s, s');
    } else if BurnStep(s, s') {
      BurnStepInv(s, s');
    } else if FuseStep(s, s') {
      FuseStepInv(s, s');
    } else {
      SaveStepInv(s, s');
    }
  }
}
