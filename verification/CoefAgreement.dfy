/**
 * Three ways to the same stream: whatever the picture, the scan and the suspensions, single-pass compression, buffered
 * compression and transcoding hand the entropy coder the same MCUs.
 */
module CoefAgreement {
  import opened Coefficients
  import opened McuStream
  import CoefBlocks
  import CoefSinglePass
  import CoefMultiPass
  import CoefTranscode

  /** How many calls get at least one MCU accepted. */
  function Accepting(patience: seq<int>): (n: nat)
  {
    if patience == [] then 0
    else Accepting(patience[..|patience| - 1]) + if patience[|patience| - 1] != 0 then 1 else 0
  }

  /** As many accepting calls as there are MCUs are always enough. */
  ghost predicate Enough(patience: seq<int>, p: Picture, scan: seq<nat>) {
    ForStream(p, scan) && Accepting(patience) >= |Stream(p, scan)|
  }

  lemma AcceptingStep(patience: seq<int>, i: nat)
    requires i < |patience|
    ensures Accepting(patience[..i + 1]) == Accepting(patience[..i]) + if patience[i] != 0 then 1 else 0
    ensures patience[..|patience|] == patience && Accepting(patience[..0]) == 0
  {
    assert patience[..i + 1][..i] == patience[..i];
  }

  /** One call for every iMCU row is enough if no MCU is ever refused. */
  predicate Unhindered(patience: seq<int>, total: nat) {
    |patience| >= total && forall i :: 0 <= i < |patience| ==> patience[i] < 0
  }

  lemma Complete(p: Picture, scan: seq<nat>)
    requires ForStream(p, scan)
    ensures Before(p, scan, p.total, 0, 0) == Stream(p, scan)
  {
    BeforeSteps(p, scan, p.total, 0, 0);
  }

  /** Single-pass compression, called once for each entry of patience or until it is done. */
  method SinglePass(p: Picture, scan: seq<nat>, g: Geometry, patience: seq<int>)
    returns (finished: bool, sent: seq<seq<Block>>)
    requires ValidScan(p, scan) && Fits(g, p, scan)
    ensures ForStream(p, scan) && (finished ==> sent == Stream(p, scan))
    ensures Unhindered(patience, p.total) || Enough(patience, p, scan) ==> finished
  {
    hide Fits, ValidScan, Before, StreamUpTo, ForStream, McuRows;
    var coef := new CoefSinglePass.CoefController(p, scan, g);
    var i: nat := 0;
    assert patience[..i] == [];
    while i < |patience| && coef.iMcuRow < p.total
      invariant coef.Valid() && coef.p == p && coef.scan == scan && i <= |patience|
      invariant fresh(coef) && fresh(coef.blkBuffer)
      invariant Unhindered(patience, p.total) ==> coef.iMcuRow == i
      invariant Accepting(patience[..i]) <= |coef.sent|
      decreases |patience| - i
    {
      AcceptingStep(patience, i);
      var done := coef.CompressData(patience[i]);
      i := i + 1;
    }
    assert patience[..|patience|] == patience;
    if coef.iMcuRow < p.total {
      CoefBlocks.PerRowIs(coef.g, p, scan);
      MoreToCome(p, scan, coef.iMcuRow, coef.vertOffset, coef.mcuCtr);
    }
    Complete(p, scan);
    finished, sent := coef.iMcuRow == p.total, coef.sent;
  }

  /** Transcoding, called once for each entry of patience or until it is done. */
  method Transcode(p: Picture, scan: seq<nat>, g: Geometry, patience: seq<int>)
    returns (finished: bool, sent: seq<seq<Block>>)
    requires ValidScan(p, scan) && Fits(g, p, scan)
    ensures ForStream(p, scan) && (finished ==> sent == Stream(p, scan))
    ensures Unhindered(patience, p.total) || Enough(patience, p, scan) ==> finished
  {
    hide Fits, ValidScan, Before, StreamUpTo, ForStream, McuRows;
    var coef := new CoefTranscode.CoefController(p, scan, g);
    var i: nat := 0;
    assert patience[..i] == [];
    while i < |patience| && coef.iMcuRow < p.total
      invariant coef.Valid() && coef.p == p && coef.scan == scan && i <= |patience|
      invariant fresh(coef) && fresh(coef.mcuBuffer) && fresh(coef.dummyBuffer)
      invariant Unhindered(patience, p.total) ==> coef.iMcuRow == i
      invariant Accepting(patience[..i]) <= |coef.sent|
      decreases |patience| - i
    {
      AcceptingStep(patience, i);
      var done := coef.CompressOutput(patience[i]);
      i := i + 1;
    }
    assert patience[..|patience|] == patience;
    if coef.iMcuRow < p.total {
      CoefBlocks.PerRowIs(coef.g, p, scan);
      MoreToCome(p, scan, coef.iMcuRow, coef.vertOffset, coef.mcuCtr);
    }
    Complete(p, scan);
    finished, sent := coef.iMcuRow == p.total, coef.sent;
  }

  lemma FirstPosition(coef: CoefMultiPass.CoefController)
    requires coef.Valid() && coef.iMcuRow < coef.p.total
    ensures coef.vertOffset < McuRows(coef.p, coef.scan, coef.iMcuRow) && coef.mcuCtr < PerRow(coef.p, coef.scan)
  {
    hide Fits, ValidScan, Before, McuRows;
    CoefMultiPass.FirstPosition(coef.p, coef.scan, coef.g);
  }

  /** The first pass of buffered compression. */
  method FirstPass(coef: CoefMultiPass.CoefController, patience: seq<int>) returns (finished: bool)
    requires coef.Valid() && coef.iMcuRow == 0
    modifies coef, coef.whole
    ensures coef.Valid() && coef.scan == old(coef.scan) && (finished ==> coef.sent == Stream(coef.p, coef.scan))
    ensures finished ==> coef.filled == coef.p.total
    ensures Unhindered(patience, coef.p.total) || Enough(patience, coef.p, coef.scan) ==> finished
  {
    hide Fits, ValidScan, Before, StreamUpTo, McuRows;
    var i: nat := 0;
    assert patience[..i] == [];
    while i < |patience| && coef.iMcuRow < coef.p.total
      invariant coef.Valid() && coef.scan == old(coef.scan) && coef.filled >= coef.iMcuRow && i <= |patience|
      invariant Unhindered(patience, coef.p.total) ==> coef.iMcuRow == i
      invariant Accepting(patience[..i]) <= |coef.sent|
      decreases |patience| - i
    {
      AcceptingStep(patience, i);
      var done := coef.CompressFirstPass(patience[i]);
      i := i + 1;
    }
    assert patience[..|patience|] == patience;
    if coef.iMcuRow < coef.p.total {
      FirstPosition(coef);
      MoreToCome(coef.p, coef.scan, coef.iMcuRow, coef.vertOffset, coef.mcuCtr);
    }
    Complete(coef.p, coef.scan);
    finished := coef.iMcuRow == coef.p.total;
  }

  /** A later pass of buffered compression. */
  method LaterPass(coef: CoefMultiPass.CoefController, scan: seq<nat>, g: Geometry, patience: seq<int>)
    returns (finished: bool)
    requires coef.Valid() && coef.filled == coef.p.total && ValidScan(coef.p, scan) && Fits(g, coef.p, scan)
    modifies coef
    ensures coef.Valid() && coef.scan == scan && coef.filled == coef.p.total
    ensures finished ==> coef.sent == Stream(coef.p, scan)
    ensures Unhindered(patience, coef.p.total) || Enough(patience, coef.p, scan) ==> finished
  {
    hide Fits, ValidScan, Before, StreamUpTo, McuRows;
    coef.StartPass(scan, g);
    var i: nat := 0;
    assert patience[..i] == [];
    while i < |patience| && coef.iMcuRow < coef.p.total
      invariant coef.Valid() && coef.scan == scan && coef.filled == coef.p.total && i <= |patience|
      invariant Unhindered(patience, coef.p.total) ==> coef.iMcuRow == i
      invariant Accepting(patience[..i]) <= |coef.sent|
      decreases |patience| - i
    {
      AcceptingStep(patience, i);
      var done := coef.CompressOutput(patience[i]);
      i := i + 1;
    }
    assert patience[..|patience|] == patience;
    if coef.iMcuRow < coef.p.total {
      FirstPosition(coef);
      MoreToCome(coef.p, scan, coef.iMcuRow, coef.vertOffset, coef.mcuCtr);
    }
    Complete(coef.p, scan);
    finished := coef.iMcuRow == coef.p.total;
  }

  /**
   * The streams of one scan by all four routes, each under suspensions of its own; the buffered compression makes a
   * first pass over another scan before it comes to this one again.
   */
  method Agree(p: Picture, scan: seq<nat>, first: seq<nat>, gs: seq<Geometry>, patience: seq<seq<int>>)
    returns (streams: seq<seq<seq<Block>>>)
    requires ValidPicture(p) && ValidScan(p, scan) && ValidScan(p, first) && |gs| == 2 && |patience| == 4
    requires Fits(gs[0], p, scan) && Fits(gs[1], p, first)
    ensures ForStream(p, scan) && forall k :: 0 <= k < |streams| ==> streams[k] == Stream(p, scan)
    ensures (forall i :: 0 <= i < 4 ==> Enough(patience[i], p, if i == 2 then first else scan)) ==> |streams| == 3
    ensures (forall i :: 0 <= i < 4 ==> Unhindered(patience[i], p.total)) ==> |streams| == 3
  {
    hide Fits, ValidScan, StreamUpTo, ForStream, Stream, Enough, Unhindered, ValidPicture;
    streams := [];
    var finished, sent := SinglePass(p, scan, gs[0], patience[0]);
    if finished { streams := streams + [sent]; }
    finished, sent := Transcode(p, scan, gs[0], patience[1]);
    if finished { streams := streams + [sent]; }
    SomeRows(p, scan);
    var coef := new CoefMultiPass.CoefController(p, first, gs[1]);
    finished := FirstPass(coef, patience[2]);
    if finished {
      finished := LaterPass(coef, scan, gs[0], patience[3]);
      if finished { streams := streams + [coef.sent]; }
    }
  }

  lemma SomeRows(p: Picture, scan: seq<nat>)
    requires ValidScan(p, scan)
    ensures p.total > 0 && p.across > 0
  {
  }
}
