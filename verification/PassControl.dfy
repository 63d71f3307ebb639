/** The compressor's pass machine: which passes are made over the image, in which order, and what each one writes. */
module PassControl {

  datatype PassType = MainPass | HuffOptPass | OutputPass

  datatype BufferMode = PassThru | SaveAndPass | CrankDest

  /** The parts of a scan that decide its passes. */
  datatype ScanInfo = ScanInfo(ss: nat, ah: nat)

  /** What happens outside: markers written, and passes of the data through the entropy coder. */
  datatype Event =
    | FrameHeader
    | ScanHeader(scan: nat)
    | Gather(scan: nat, mode: BufferMode)
    | Output(scan: nat, mode: BufferMode, last: bool)
    | Trailer

  /** DC refinement scans use no Huffman table. */
  predicate NeedsNoTable(s: ScanInfo) {
    s.ss == 0 && s.ah != 0
  }

  // ---------------------------------------------------------------------------------------------
  // The schedule
  // ---------------------------------------------------------------------------------------------

  /** Whether statistics are gathered for scan k; the pass over the input does so for scan 0 in any case. */
  predicate Gathers(scans: seq<ScanInfo>, optimize: bool, transcode: bool, k: nat)
    requires k < |scans|
  {
    optimize && ((k == 0 && !transcode) || !NeedsNoTable(scans[k]))
  }

  /** The input pass comes first, and keeps the coefficients when they are needed again. */
  function Mode(scans: seq<ScanInfo>, optimize: bool, transcode: bool, first: bool): BufferMode {
    if !first || transcode then CrankDest
    else if |scans| > 1 || optimize then SaveAndPass else PassThru
  }

  /** All that happens for scan k. */
  function ForScan(scans: seq<ScanInfo>, optimize: bool, transcode: bool, k: nat): seq<Event>
    requires k < |scans|
  {
    (if Gathers(scans, optimize, transcode, k) then [Gather(k, Mode(scans, optimize, transcode, k == 0))] else [])
    + (if k == 0 then [FrameHeader] else [])
    + [ScanHeader(k),
       Output(k, Mode(scans, optimize, transcode, k == 0 && !optimize), k == |scans| - 1)]
  }

  function Schedule(scans: seq<ScanInfo>, optimize: bool, transcode: bool, k: nat): seq<Event>
    requires k <= |scans|
  {
    if k == 0 then [] else Schedule(scans, optimize, transcode, k - 1) + ForScan(scans, optimize, transcode, k - 1)
  }

  // ---------------------------------------------------------------------------------------------
  // What a schedule is worth
  // ---------------------------------------------------------------------------------------------

  function Outputs(log: seq<Event>): seq<nat> {
    if |log| == 0 then []
    else if log[|log| - 1].Output? then Outputs(log[..|log| - 1]) + [log[|log| - 1].scan]
    else Outputs(log[..|log| - 1])
  }

  function Headers(log: seq<Event>): seq<nat> {
    if |log| == 0 then []
    else if log[|log| - 1].ScanHeader? then Headers(log[..|log| - 1]) + [log[|log| - 1].scan]
    else Headers(log[..|log| - 1])
  }

  lemma {:induction false} OutputsOf(a: seq<Event>, b: seq<Event>)
    ensures Outputs(a + b) == Outputs(a) + Outputs(b)
    ensures Headers(a + b) == Headers(a) + Headers(b)
  {
    if |b| == 0 {
      assert a + b == a;
    } else {
      OutputsOf(a, b[..|b| - 1]);
      assert (a + b)[..|a + b| - 1] == a + b[..|b| - 1];
    }
  }

  function UpTo(n: nat): seq<nat> {
    if n == 0 then [] else UpTo(n - 1) + [n - 1]
  }

  /** Every scan is output exactly once, in order, each behind its own header. */
  lemma {:induction false} EachScanOnce(scans: seq<ScanInfo>, optimize: bool, transcode: bool, k: nat)
    requires k <= |scans|
    ensures Outputs(Schedule(scans, optimize, transcode, k)) == UpTo(k)
    ensures Headers(Schedule(scans, optimize, transcode, k)) == UpTo(k)
  {
    hide ForScan, Outputs, Headers;
    if k == 0 {
      NothingOut();
    } else {
      EachScanOnce(scans, optimize, transcode, k - 1);
      OutputsOf(Schedule(scans, optimize, transcode, k - 1), ForScan(scans, optimize, transcode, k - 1));
      OneScanEach(scans, optimize, transcode, k - 1);
    }
  }

  lemma NothingOut()
    ensures Outputs([]) == [] && Headers([]) == []
  {
  }

  lemma OneEvent(e: Event)
    ensures Outputs([e]) == (if e.Output? then [e.scan] else [])
    ensures Headers([e]) == (if e.ScanHeader? then [e.scan] else [])
  {
    assert [e][..0] == [];
  }

  lemma OneScanEach(scans: seq<ScanInfo>, optimize: bool, transcode: bool, k: nat)
    requires k < |scans|
    ensures Outputs(ForScan(scans, optimize, transcode, k)) == [k]
      && Headers(ForScan(scans, optimize, transcode, k)) == [k]
  {
    hide Outputs, Headers;
    var gather := if Gathers(scans, optimize, transcode, k) then [Gather(k, Mode(scans, optimize, transcode, k == 0))]
      else [];
    var frame := if k == 0 then [FrameHeader] else [];
    var header, data := [ScanHeader(k)],
      [Output(k, Mode(scans, optimize, transcode, k == 0 && !optimize), k == |scans| - 1)];
    assert ForScan(scans, optimize, transcode, k) == gather + frame + header + data;
    OutputsOf(gather + frame + header, data);
    OutputsOf(gather + frame, header);
    OutputsOf(gather, frame);
    NothingOut();
    OneEvent(header[0]);
    OneEvent(data[0]);
    OneEvent(FrameHeader);
    OneEvent(Gather(k, Mode(scans, optimize, transcode, k == 0)));
  }

  /** A pass of the data before position i that matches: any at all, or one that keeps the coefficients. */
  ghost predicate DataBefore(log: seq<Event>, i: nat, saving: bool)
    requires i <= |log|
  {
    exists j :: 0 <= j < i && (log[j].Gather? || log[j].Output?) && (saving ==> log[j].mode.SaveAndPass?)
  }

  /**
   * Where a pass takes its data from: the coefficients are read back only if another file or an earlier pass has put
   * them there, they are kept by the first pass over the input if a further pass will read them, and not otherwise.
   */
  ghost predicate RightMode(log: seq<Event>, scans: seq<ScanInfo>, optimize: bool, transcode: bool, i: nat)
    requires i < |log| && (log[i].Gather? || log[i].Output?)
  {
    var mode, single := log[i].mode, |scans| == 1 && !optimize && !transcode;
    && (mode.PassThru? <==> single)
    && (mode.CrankDest? <==> transcode || DataBefore(log, i, true))
    && (mode.SaveAndPass? <==> !transcode && !single && !DataBefore(log, i, false))
  }

  /** Where each event of a schedule may stand. */
  ghost predicate WellPlaced(log: seq<Event>, scans: seq<ScanInfo>, optimize: bool, transcode: bool, i: nat)
    requires i < |log|
  {
    match log[i]
    case FrameHeader => i == (if |scans| > 0 && Gathers(scans, optimize, transcode, 0) then 1 else 0)
    case ScanHeader(k) => k < |scans| && (k == 0 ==> i > 0 && log[i - 1] == FrameHeader)
    case Gather(k, _) =>
      && k < |scans| && optimize && (!NeedsNoTable(scans[k]) || (k == 0 && !transcode))
      && RightMode(log, scans, optimize, transcode, i)
      && (if k == 0 then i + 3 < |log| && log[i + 1] == FrameHeader && log[i + 2] == ScanHeader(0) && log[i + 3].Output?
                         && log[i + 3].scan == 0
          else i + 2 < |log| && log[i + 1] == ScanHeader(k) && log[i + 2].Output? && log[i + 2].scan == k)
    case Output(k, _, last) =>
      && k < |scans| && i > 0 && log[i - 1] == ScanHeader(k)
      && (last <==> k == |scans| - 1)
      && (var g := if k == 0 then i - 3 else i - 2;
          (optimize && (!NeedsNoTable(scans[k]) || (k == 0 && !transcode)) <==>
             g >= 0 && log[g].Gather? && log[g].scan == k))
      && RightMode(log, scans, optimize, transcode, i)
    case Trailer => false
  }

  /**
   * A statistics pass comes immediately before the output of its own scan and is left out only for DC refinement scans;
   * the last-pass flag is up exactly at the final output; the buffer is only read after it was filled.
   */
  lemma {:induction false} AllWellPlaced(scans: seq<ScanInfo>, optimize: bool, transcode: bool, k: nat, i: nat)
    requires k <= |scans| && i < |Schedule(scans, optimize, transcode, k)|
    ensures WellPlaced(Schedule(scans, optimize, transcode, k), scans, optimize, transcode, i)
  {
    hide WellPlaced, ForScan, DataBefore, Mode;
    var before := Schedule(scans, optimize, transcode, k - 1);
    var now := ForScan(scans, optimize, transcode, k - 1);
    assert Schedule(scans, optimize, transcode, k) == before + now;
    if i < |before| {
      AllWellPlaced(scans, optimize, transcode, k - 1, i);
      StillPlaced(before, now, scans, optimize, transcode, i);
    } else {
      if k > 1 {
        FilledBefore(scans, optimize, transcode, k - 1);
      }
      NewPlaced(before, scans, optimize, transcode, k - 1, i - |before|);
    }
  }

  lemma StillPlaced(before: seq<Event>, now: seq<Event>, scans: seq<ScanInfo>, optimize: bool, transcode: bool, i: nat)
    requires i < |before| && WellPlaced(before, scans, optimize, transcode, i)
    ensures WellPlaced(before + now, scans, optimize, transcode, i)
  {
    hide Gathers, DataBefore;
    SameBefore(before, now, i, true);
    SameBefore(before, now, i, false);
  }

  lemma SameBefore(before: seq<Event>, now: seq<Event>, i: nat, saving: bool)
    requires i <= |before|
    ensures DataBefore(before + now, i, saving) <==> DataBefore(before, i, saving)
  {
    assert forall j :: 0 <= j < i ==> (before + now)[j] == before[j];
  }

  /** Behind the first scan some pass has been made, and unless another file gives the coefficients it has kept them. */
  lemma {:induction false} FilledBefore(scans: seq<ScanInfo>, optimize: bool, transcode: bool, k: nat)
    requires 0 < k < |scans|
    ensures var log := Schedule(scans, optimize, transcode, k);
            && |log| >= 3 && log[|log| - 1].Output?
            && DataBefore(log, |log|, false) && (!transcode ==> DataBefore(log, |log|, true))
    decreases k
  {
    hide DataBefore, NeedsNoTable;
    var now := ForScan(scans, optimize, transcode, k - 1);
    var before := Schedule(scans, optimize, transcode, k - 1);
    assert Schedule(scans, optimize, transcode, k) == before + now;
    if k > 1 {
      FilledBefore(scans, optimize, transcode, k - 1);
      MoreBehind(before, now, |now|, false);
      if !transcode {
        MoreBehind(before, now, |now|, true);
      }
    } else {
      assert before + now == now;
      Filling(now, 0);
      Filling(now, |now| - 1);
    }
  }

  lemma Filling(log: seq<Event>, i: nat)
    requires i < |log|
    ensures (log[i].Gather? || log[i].Output?) ==> DataBefore(log, |log|, false)
    ensures (log[i].Gather? || log[i].Output?) && log[i].mode.SaveAndPass? ==> DataBefore(log, |log|, true)
  {
  }

  lemma MoreBehind(before: seq<Event>, now: seq<Event>, i: nat, saving: bool)
    requires DataBefore(before, |before|, saving) && i <= |now|
    ensures DataBefore(before + now, |before| + i, saving)
  {
    var j :| 0 <= j < |before| && (before[j].Gather? || before[j].Output?) && (saving ==> before[j].mode.SaveAndPass?);
    assert (before + now)[j] == before[j];
  }

  /** What has happened before scan k. */
  ghost predicate IsBefore(before: seq<Event>, transcode: bool, k: nat) {
    if k == 0 then before == []
    else
      && |before| >= 3 && before[|before| - 1].Output?
      && DataBefore(before, |before|, false) && (!transcode ==> DataBefore(before, |before|, true))
  }

  lemma FirstMode(scans: seq<ScanInfo>, optimize: bool, transcode: bool, i: nat)
    requires 0 < |scans| && i < |ForScan(scans, optimize, transcode, 0)|
    ensures var log := ForScan(scans, optimize, transcode, 0);
            (log[i].Gather? || log[i].Output?) ==> RightMode(log, scans, optimize, transcode, i)
  {
    hide NeedsNoTable;
    var log := ForScan(scans, optimize, transcode, 0);
    if log[i].Output? && log[0].Gather? {
      assert DataBefore(log, i, false);
      assert log[0].mode.SaveAndPass? ==> DataBefore(log, i, true);
    }
  }

  lemma LaterMode(before: seq<Event>, scans: seq<ScanInfo>, optimize: bool, transcode: bool, k: nat, i: nat)
    requires 0 < k < |scans| && i < |ForScan(scans, optimize, transcode, k)| && IsBefore(before, transcode, k)
    ensures var now := ForScan(scans, optimize, transcode, k);
            (now[i].Gather? || now[i].Output?) ==>
              RightMode(before + now, scans, optimize, transcode, |before| + i)
  {
    hide DataBefore, NeedsNoTable;
    var now := ForScan(scans, optimize, transcode, k);
    assert (before + now)[|before| + i] == now[i];
    MoreBehind(before, now, i, false);
    if !transcode {
      MoreBehind(before, now, i, true);
    }
  }

  lemma FirstPlaced(scans: seq<ScanInfo>, optimize: bool, transcode: bool, i: nat)
    requires 0 < |scans| && i < |ForScan(scans, optimize, transcode, 0)|
    ensures WellPlaced(ForScan(scans, optimize, transcode, 0), scans, optimize, transcode, i)
  {
    hide DataBefore, NeedsNoTable, Mode, RightMode;
    FirstMode(scans, optimize, transcode, i);
  }

  lemma LaterPlaced(before: seq<Event>, scans: seq<ScanInfo>, optimize: bool, transcode: bool, k: nat, i: nat)
    requires 0 < k < |scans| && i < |ForScan(scans, optimize, transcode, k)| && IsBefore(before, transcode, k)
    ensures WellPlaced(before + ForScan(scans, optimize, transcode, k), scans, optimize, transcode, |before| + i)
  {
    hide DataBefore, NeedsNoTable, Mode, RightMode;
    var now := ForScan(scans, optimize, transcode, k);
    LaterMode(before, scans, optimize, transcode, k, i);
    Behind(before, now);
  }

  lemma Behind(before: seq<Event>, now: seq<Event>)
    ensures forall j :: 0 <= j < |before| ==> (before + now)[j] == before[j]
    ensures forall j :: |before| <= j < |before| + |now| ==> (before + now)[j] == now[j - |before|]
  {
  }

  lemma NewPlaced(before: seq<Event>, scans: seq<ScanInfo>, optimize: bool, transcode: bool, k: nat, i: nat)
    requires k < |scans| && i < |ForScan(scans, optimize, transcode, k)| && IsBefore(before, transcode, k)
    ensures WellPlaced(before + ForScan(scans, optimize, transcode, k), scans, optimize, transcode, |before| + i)
  {
    hide WellPlaced, ForScan, DataBefore;
    if k == 0 {
      assert before + ForScan(scans, optimize, transcode, k) == ForScan(scans, optimize, transcode, k);
      FirstPlaced(scans, optimize, transcode, i);
    } else {
      LaterPlaced(before, scans, optimize, transcode, k, i);
    }
  }

  // ---------------------------------------------------------------------------------------------
  // The machine
  // ---------------------------------------------------------------------------------------------

  class Compressor {
    const scans: seq<ScanInfo>
    const transcode: bool
    const optimize: bool
    const totalPasses: nat
    var passType: PassType
    var passNumber: nat
    var scanNumber: nat
    var isLastPass: bool
    var callPassStartup: bool
    // what the pass in progress was set up for
    var selected: nat
    var gathering: bool
    var mode: BufferMode
    var log: seq<Event>

    constructor (scans: seq<ScanInfo>, transcode: bool, arithCode: bool, optimizeCoding: bool, progressive: bool,
        blockSize: nat)
      requires |scans| > 0
      ensures Between(0) && log == []
      ensures this.scans == scans && this.transcode == transcode
      ensures optimize <==> optimizeCoding || (!arithCode && (progressive || 1 < blockSize < 8))
    {
      this.scans, this.transcode := scans, transcode;
      var opt := optimizeCoding;
      if !optimizeCoding && !arithCode && (progressive || (blockSize > 1 && blockSize < 8)) {
        opt := true;
      }
      optimize := opt;
      passType := if transcode then (if opt then HuffOptPass else OutputPass) else MainPass;
      scanNumber, passNumber := 0, 0;
      totalPasses := if opt then |scans| * 2 else |scans|;
      isLastPass, callPassStartup := false, false;
      selected, gathering, mode, log := 0, false, PassThru, [];
    }

    ghost predicate Counted()
      reads this
    {
      |scans| > 0 && totalPasses == (if optimize then |scans| * 2 else |scans|)
    }

    /** Between passes, with scans 0..k-1 output and nothing of scan k done yet; the next pass is due. */
    ghost predicate Between(k: nat)
      reads this
    {
      && Counted() && k < |scans| && scanNumber == k && !isLastPass && !callPassStartup
      && passNumber == (if optimize then 2 * k else k)
      && passType == (if k == 0 && !transcode then MainPass else if optimize then HuffOptPass else OutputPass)
      && log == Schedule(scans, optimize, transcode, k)
    }

    /** Between the statistics pass and the output pass of scan k. */
    ghost predicate Gathered(k: nat)
      reads this
    {
      && Counted() && k < |scans| && scanNumber == k == selected && !isLastPass && !callPassStartup && optimize
      && passNumber == 2 * k + 1 && passType == OutputPass
      && Gathers(scans, optimize, transcode, k)
      && log == Schedule(scans, optimize, transcode, k) + [Gather(k, Mode(scans, optimize, transcode, k == 0))]
    }

    /** All scans output, the last pass over. */
    ghost predicate Finished()
      reads this
    {
      Counted() && isLastPass && log == Schedule(scans, optimize, transcode, |scans|)
    }

    /** A statistics pass of scan k in progress. */
    ghost predicate InGather(k: nat)
      reads this
    {
      && Counted() && k < |scans| && scanNumber == k == selected && gathering && !isLastPass && !callPassStartup
         && optimize
      && passNumber == 2 * k && passType == (if k == 0 && !transcode then MainPass else HuffOptPass)
      && Gathers(scans, optimize, transcode, k) && mode == Mode(scans, optimize, transcode, k == 0)
      && log == Schedule(scans, optimize, transcode, k)
    }

    /** The output pass of scan k in progress; the headers of the pass over the input are written at the first data. */
    ghost predicate InOutput(k: nat)
      reads this
    {
      && Counted() && k < |scans| && scanNumber == k == selected && !gathering
      && (isLastPass <==> k == |scans| - 1)
      && passNumber == (if optimize then 2 * k + 1 else k)
      && passType == (if k == 0 && !transcode && !optimize then MainPass else OutputPass)
      && mode == Mode(scans, optimize, transcode, k == 0 && !optimize)
      && callPassStartup == passType.MainPass?
      && log == Schedule(scans, optimize, transcode, k)
         + (if Gathers(scans, optimize, transcode, k) then [Gather(k, Mode(scans, optimize, transcode, k == 0))]
           else [])
         + (if passType.MainPass? then [] else if k == 0 then [FrameHeader, ScanHeader(0)] else [ScanHeader(k)])
    }

    method SelectScanParameters()
      modifies this`selected
      ensures selected == scanNumber
    {
      selected := scanNumber;
    }

    /** Sets up the next pass. */
    method PrepareForPass(ghost k: nat)
      requires Between(k) || Gathered(k)
      modifies this
      ensures old(Between(k)) && Gathers(scans, optimize, transcode, k) ==> InGather(k)
      ensures !(old(Between(k)) && Gathers(scans, optimize, transcode, k)) ==> InOutput(k)
    {
      hide Schedule;
      var output := passType.OutputPass?;
      match passType {
        case MainPass =>
          SelectScanParameters();
          gathering := optimize;
          mode := if totalPasses > 1 then SaveAndPass else PassThru;
          callPassStartup := !optimize;
        case HuffOptPass =>
          SelectScanParameters();
          if scans[selected].ss != 0 || scans[selected].ah == 0 {
            gathering := true;
            mode := CrankDest;
            callPassStartup := false;
          } else {
            passType := OutputPass;
            passNumber := passNumber + 1;
            output := true;
          }
        case OutputPass =>
      }
      if output {
        if !optimize {
          SelectScanParameters();
        }
        gathering := false;
        mode := CrankDest;
        if scanNumber == 0 {
          log := log + [FrameHeader];
        }
        log := log + [ScanHeader(selected)];
        callPassStartup := false;
      }
      isLastPass := passNumber == totalPasses - 1;
    }

    /** The headers of a single-pass file, at the first data. */
    method PassStartup()
      modifies this`callPassStartup, this`log
      ensures !callPassStartup && log == old(log) + [FrameHeader, ScanHeader(selected)]
    {
      callPassStartup := false;
      log := log + [FrameHeader];
      log := log + [ScanHeader(selected)];
    }

    /** All the data of the pass, through the entropy coder, and the end of the pass. */
    method FinishPass(ghost k: nat)
      requires InGather(k) || (InOutput(k) && !callPassStartup) ||
               (InStarted(k))
      modifies this
      ensures old(InGather(k)) ==> Gathered(k)
      ensures !old(InGather(k)) ==> if k == |scans| - 1 then Finished() else Between(k + 1)
    {
      hide Schedule, Mode, Gathers, ForScan;
      ghost var was := log;
      if !InGather(k) { NotGathered(k); }
      log := log + [if gathering then Gather(selected, mode) else Output(selected, mode, isLastPass)];
      match passType {
        case MainPass =>
          passType := OutputPass;
          if !optimize { scanNumber := scanNumber + 1; }
        case HuffOptPass =>
          passType := OutputPass;
        case OutputPass =>
          if optimize { passType := HuffOptPass; }
          scanNumber := scanNumber + 1;
      }
      passNumber := passNumber + 1;
      if !old(InGather(k)) {
        OutputEnds(scans, optimize, transcode, k, was);
      }
    }

    lemma NotGathered(k: nat)
      requires (InOutput(k) && !callPassStartup) || InStarted(k)
      ensures log == Schedule(scans, optimize, transcode, k)
                     + (if Gathers(scans, optimize, transcode, k)
                       then [Gather(k, Mode(scans, optimize, transcode, k == 0))] else [])
                     + (if k == 0 then [FrameHeader, ScanHeader(0)] else [ScanHeader(k)])
    {
    }

    /** The output pass over the input, its headers written. */
    ghost predicate InStarted(k: nat)
      reads this
    {
      && Counted() && k == 0 == scanNumber == selected && !gathering && !transcode && !optimize
      && (isLastPass <==> |scans| == 1) && !callPassStartup
      && passNumber == 0 && passType == MainPass && mode == Mode(scans, optimize, transcode, true)
      && log == [FrameHeader, ScanHeader(0)]
    }

    /** The whole compression: the first pass driven by the application, the others from the coefficient buffer. */
    method Compress()
      requires Between(0)
      modifies this
      ensures log == Schedule(scans, optimize, transcode, |scans|) + [Trailer]
    {
      hide Schedule, Gathers, Mode;
      ghost var k: nat := 0;
      if !transcode {
        PrepareForPass(0);
        if callPassStartup {
          NoneYet();
          PassStartup();
        }
        FinishPass(0);
        if Between(1) { k := 1; }
      }
      while !isLastPass
        invariant (isLastPass && Finished()) || Between(k) || Gathered(k)
        decreases |scans| - k, !Gathered(k), !isLastPass
      {
        ghost var gathers := Between(k) && Gathers(scans, optimize, transcode, k);
        PrepareForPass(k);
        FinishPass(k);
        if !gathers { k := k + 1; }
      }
      log := log + [Trailer];
    }

    lemma NoneYet()
      ensures Schedule(scans, optimize, transcode, 0) == []
    {
    }
  }

  lemma NextScan(scans: seq<ScanInfo>, optimize: bool, transcode: bool, k: nat)
    requires k < |scans|
    ensures Schedule(scans, optimize, transcode, k + 1) ==
            Schedule(scans, optimize, transcode, k) + ForScan(scans, optimize, transcode, k)
    ensures Schedule(scans, optimize, transcode, 0) == []
  {
  }

  lemma OutputEnds(scans: seq<ScanInfo>, optimize: bool, transcode: bool, k: nat, was: seq<Event>)
    requires k < |scans|
    requires was == Schedule(scans, optimize, transcode, k)
                    + (if Gathers(scans, optimize, transcode, k)
                      then [Gather(k, Mode(scans, optimize, transcode, k == 0))] else [])
                    + (if k == 0 then [FrameHeader, ScanHeader(0)] else [ScanHeader(k)])
    ensures was + [Output(k, Mode(scans, optimize, transcode, k == 0 && !optimize), k == |scans| - 1)] ==
            Schedule(scans, optimize, transcode, k + 1)
  {
    hide Gathers, Mode, Schedule;
    NextScan(scans, optimize, transcode, k);
  }
}
