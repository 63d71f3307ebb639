/** Whole arithmetic-coded sequential scans, restart intervals included: every coefficient block survives. */
module ArithMcuRoundTrip {
  import opened Words
  import opened ByteStuffing
  import opened ArithTable
  import opened ArithModel
  import opened ArithEncoder
  import opened ArithDecoder
  import opened ArithBinarization
  import opened Coefficients
  import opened ArithMcuEncoder
  import opened ArithMcuDecoder
  import opened Restarts

  /** Statistics bins at the start of a scan: all zero but the one with the fixed estimate. */
  function InitialBins(): (bins: seq<bin>)
    ensures |bins| == ALL_BINS && bins[FIXED_BIN] == 113 && forall i :: 0 <= i < FIXED_BIN ==> bins[i] == 0
  {
    seq(FIXED_BIN, _ => 0) + [FIXED_STATE]
  }

  /** Every DC difference of the scan has magnitude at most 32768. */
  predicate ScanCodable(scan: Scan, s: DcState, mcus: seq<seq<Block>>)
    requires ValidScan(scan) && ValidDc(scan, s) && AreMcus(scan, mcus)
    decreases mcus
  {
    mcus == [] ||
    (McuCodable(scan, s, mcus[0], 0) && ScanCodable(scan, McuDc(scan, s, mcus[0], 0), mcus[1..]))
  }

  /** b holds the coefficients of want in the coded positions and zeros in the others. */
  predicate Reproduces(scan: Scan, b: seq<Coef>, want: Block)
    requires ValidScan(scan)
  {
    |b| == DCTSIZE2 && forall k :: 0 <= k < DCTSIZE2 ==>
                         b[scan.order[k]] == if k <= scan.limSe then want[scan.order[k]] else 0
  }

  predicate McuReproduces(scan: Scan, out: seq<seq<Coef>>, want: seq<Block>) {
    ValidScan(scan) && |out| == |want| && forall n :: 0 <= n < |want| ==> Reproduces(scan, out[n], want[n])
  }

  lemma ScanUnroll(scan: Scan, s: DcState, mcus: seq<seq<Block>>, i: nat)
    requires ValidScan(scan) && ValidDc(scan, s) && AreMcus(scan, mcus) && i < |mcus|
    ensures AreMcus(scan, mcus[i..]) && AreMcus(scan, mcus[i + 1..])
    ensures var next := McuDc(scan, s, mcus[i], 0);
            && ScanDecisions(scan, s, mcus[i..])
               == McuDecisions(scan, s, mcus[i], 0) + ScanDecisions(scan, next, mcus[i + 1..])
            && (ScanCodable(scan, s, mcus[i..])
                <==> McuCodable(scan, s, mcus[i], 0) && ScanCodable(scan, next, mcus[i + 1..]))
  {
    hide McuDecisions, McuDc, McuCodable;
    assert mcus[i..][1..] == mcus[i + 1..];
  }

  method EncodeScan(scan: Scan, mcus: seq<seq<Block>>) returns (out: seq<byte>, ghost data: seq<byte>)
    requires ValidScan(scan) && AreMcus(scan, mcus)
    ensures out == Stuff(data) && NoTrailingZero(data)
    ensures Follows(data, Coder(WHOLE, InitialBins()), ScanDecisions(scan, StartDc(scan), mcus))
  {
    hide Encoder.Valid, Run, Renorm, Stuff, Follows, McuDecisions, McuDc, InitialBins, ScanDecisions, ScanCodable;
    var e := new Encoder(InitialBins());
    var m := new McuEncoder(e, scan);
    ghost var goal := ScanDecisions(scan, StartDc(scan), mcus);
    assert mcus[0..] == mcus;
    for i := 0 to |mcus|
      invariant fresh(m) && fresh(e) && m.enc == e && m.scan == scan
      invariant m.Valid() && e.start == InitialBins()
      invariant e.trace + ScanDecisions(scan, DcState(m.last, m.context), mcus[i..]) == goal
    {
      ghost var now, t := DcState(m.last, m.context), e.trace;
      ScanUnroll(scan, now, mcus, i);
      m.EncodeMcu(mcus[i]);
      assert t + ScanDecisions(scan, now, mcus[i..])
          == e.trace + ScanDecisions(scan, McuDc(scan, now, mcus[i], 0), mcus[i + 1..]);
    }
    assert e.trace == goal by { ScanEnd(scan, DcState(m.last, m.context), mcus); }
    e.Finish();
    out, data := e.out, e.data;
  }

  lemma ScanEnd(scan: Scan, s: DcState, mcus: seq<seq<Block>>)
    requires ValidScan(scan) && ValidDc(scan, s)
    ensures ScanDecisions(scan, s, mcus[|mcus|..]) == [] && ScanCodable(scan, s, mcus[|mcus|..])
  {
  }

  /**
   * Either the decoder is at state now and the segment codes the MCUs from i on, or it has given up and the scan
   * is not codable.
   */
  ghost predicate ScanTracks(m: McuDecoder, now: DcState, mcus: seq<seq<Block>>, i: nat)
    reads m, m.dec
  {
    && ValidScan(m.scan) && ValidDc(m.scan, now) && AreMcus(m.scan, mcus) && i <= |mcus|
    && if m.Failed() then !ScanCodable(m.scan, StartDc(m.scan), mcus)
    else
      && m.Ready() && m.At(now) && m.dec.Expects(ScanDecisions(m.scan, now, mcus[i..]))
      && ScanCodable(m.scan, now, mcus[i..]) == ScanCodable(m.scan, StartDc(m.scan), mcus)
  }

  lemma HoldsReproduces(m: McuDecoder, blk: array<Coef>, want: Block)
    requires ValidScan(m.scan) && m.Holds(blk, want)
    ensures Reproduces(m.scan, blk[..], want)
  {
  }

  /** Decodes one MCU of a scan into fresh blocks. */
  method DecodeNextMcu(m: McuDecoder, ghost now: DcState, ghost mcus: seq<seq<Block>>, ghost i: nat)
    returns (blocks: seq<seq<Coef>>, ghost next: DcState)
    requires m.Valid() && ValidDc(m.scan, now) && AreMcus(m.scan, mcus) && i < |mcus|
    requires m.Ready() || m.Failed()
    modifies m, m.dec
    ensures m.Valid() && ValidDc(m.scan, next) && (m.Ready() || m.Failed())
    ensures old(m.Failed()) ==> m.Failed()
    ensures old(ScanTracks(m, now, mcus, i)) ==>
            ScanTracks(m, next, mcus, i + 1) && (!m.Failed() ==> McuReproduces(m.scan, blocks, mcus[i]))
  {
    hide Decoder.Valid, Decoder.Expects, McuDecoder.Ready, McuDecoder.At, McuDecoder.Holds, Run, Renorm, Segment;
    hide ScanDecisions, McuDecisions, McuDc, McuCodable, ScanCodable, Reproduces;
    assert ValidScan(m.scan) && IsMcu(m.scan, mcus[i]);
    var scan := m.scan;
    ghost var tracks := ScanTracks(m, now, mcus, i);
    var mcu := NewBlocks(|scan.membership|);
    next := McuDc(scan, now, mcus[i], 0);
    ghost var rest := ScanDecisions(scan, next, mcus[i + 1..]);
    ScanUnroll(scan, now, mcus, i);
    assert tracks && !m.Failed() ==> m.Synced(now, mcus[i], 0, rest);
    m.DecodeMcu(mcu, now, mcus[i], rest);
    blocks := Contents(mcu);
    if m.Failed() {
      m.FailedIsNotReady();
    }
    if tracks && !m.Failed() {
      assert m.Decoded(mcu, now, mcus[i], rest);
      forall n | 0 <= n < |mcu|
        ensures Reproduces(scan, blocks[n], mcus[i][n])
      {
        HoldsReproduces(m, mcu[n], mcus[i][n]);
      }
    }
  }

  /** Decodes count MCUs from a position of the source on; mcus is what the segment there may be coding. */
  method DecodeInterval(scan: Scan, src: seq<byte>, pos: nat, count: nat, ghost mcus: seq<seq<Block>>)
    returns (ok: bool, blocks: seq<seq<seq<Coef>>>, next: nat, unreadMarker: byte)
    requires ValidScan(scan) && AreMcus(scan, mcus) && pos <= |src| && |mcus| == count
    ensures OnCourse(src, pos, next, unreadMarker)
    ensures Follows(Segment(src, pos), Coder(WHOLE, InitialBins()), ScanDecisions(scan, StartDc(scan), mcus)) ==>
            && (ok <==> ScanCodable(scan, StartDc(scan), mcus))
            && (ok ==> |blocks| == count && forall i :: 0 <= i < count ==> McuReproduces(scan, blocks[i], mcus[i]))
  {
    hide Decoder.Valid, McuDecoder.Ready, Run, Renorm, Segment, Follows, InitialBins;
    hide ScanDecisions, ScanCodable, McuReproduces, OnCourse;
    var d := new Decoder(src, pos, InitialBins());
    var m := new McuDecoder(d, scan);
    ghost var now := StartDc(scan);
    assert mcus[0..] == mcus;
    ghost var synced := d.Expects(ScanDecisions(scan, now, mcus));
    FreshExpects(d, ScanDecisions(scan, now, mcus));
    blocks := [];
    NotYetFailed(m);
    for i := 0 to count
      invariant fresh(m) && fresh(d) && m.dec == d && m.scan == scan
      invariant m.Valid() && ValidDc(scan, now) && (m.Ready() || m.Failed())
      invariant |blocks| == i
      invariant synced ==> ScanTracks(m, now, mcus, i)
      invariant synced && !m.Failed() ==> forall k :: 0 <= k < i ==> McuReproduces(scan, blocks[k], mcus[k])
    {
      hide ScanTracks;
      var mcu;
      mcu, now := DecodeNextMcu(m, now, mcus, i);
      blocks := blocks + [mcu];
    }
    ScanEnd(scan, now, mcus);
    StaysOnCourse(m);
    ok, next, unreadMarker := d.ct != -1, d.pos, d.unreadMarker;
  }

  /** Even after giving up, the next marker is the one that ends the segment. */
  lemma StaysOnCourse(m: McuDecoder)
    requires m.Ready() || m.Failed()
    ensures OnCourse(m.dec.src, m.dec.first, m.dec.pos, m.dec.unreadMarker)
    ensures m.dec.ct == -1 <==> m.Failed()
  {
    hide Run, Segment, OnCourse, Decoder.Valid;
    if m.Ready() {
      m.ReadyIsOnCourse();
    }
  }

  lemma FreshExpects(d: Decoder, ds: seq<Decision>)
    requires d.trace == []
    ensures d.Expects(ds) <==> Follows(d.data, Coder(WHOLE, d.start), ds)
  {
  }

  lemma NotYetFailed(m: McuDecoder)
    requires m.Ready()
    ensures !m.Failed()
  {
    hide Run, Segment;
  }

  predicate AreParts(scan: Scan, parts: seq<seq<seq<Block>>>) {
    forall i :: 0 <= i < |parts| ==> AreMcus(scan, parts[i])
  }

  lemma {:induction false} IntervalsAreParts(scan: Scan, mcus: seq<seq<Block>>, interval: nat)
    requires AreMcus(scan, mcus)
    ensures AreParts(scan, Intervals(mcus, interval))
    decreases |mcus|
  {
    if interval > 0 && |mcus| > interval {
      IntervalsAreParts(scan, mcus[interval..], interval);
    }
  }

  /** The data codes the decisions of the interval, with all statistics started again. */
  ghost predicate PartFollows(scan: Scan, part: seq<seq<Block>>, data: seq<byte>)
    requires ValidScan(scan) && AreMcus(scan, part)
  {
    Follows(data, Coder(WHOLE, InitialBins()), ScanDecisions(scan, StartDc(scan), part))
  }

  ghost predicate PartsFollow(scan: Scan, parts: seq<seq<seq<Block>>>, datas: seq<seq<byte>>)
    requires ValidScan(scan) && AreParts(scan, parts)
  {
    |datas| <= |parts| && forall i :: 0 <= i < |datas| ==> PartFollows(scan, parts[i], datas[i])
  }

  /**
   * Emits the intervals of a scan: each is terminated and followed by a restart marker, and everything starts again.
   */
  method EncodeParts(scan: Scan, parts: seq<seq<seq<Block>>>) returns (out: seq<byte>, ghost datas: seq<seq<byte>>)
    requires ValidScan(scan) && AreParts(scan, parts)
    ensures out == Restarted(datas, 0) && |datas| == |parts| && PartsFollow(scan, parts, datas)
  {
    hide IsOrder, ScanDecisions, Follows, InitialBins, Stuff, Restart, NoTrailingZero;
    out, datas := [], [];
    var nextRestartNum: nat := 0;
    for i := 0 to |parts|
      invariant |datas| == i && out == Restarted(datas, 0) && PartsFollow(scan, parts, datas)
      invariant nextRestartNum == if i > 0 then i - 1 else 0
    {
      if i > 0 {
        out := out + [0xFF, Restart(nextRestartNum)];
        nextRestartNum := nextRestartNum + 1;
      }
      var segment;
      ghost var data;
      segment, data := EncodeScan(scan, parts[i]);
      OneMoreInterval(datas, data, out, segment);
      out := out + segment;
      datas := datas + [data];
    }
  }

  /** An interval either comes back, or the decoder has given up on it. */
  predicate PartDecoded(scan: Scan, ok: bool, out: seq<seq<seq<Coef>>>, part: seq<seq<Block>>)
    requires ValidScan(scan) && AreMcus(scan, part)
  {
    && (ok <==> ScanCodable(scan, StartDc(scan), part))
    && (ok ==> |out| == |part| && forall i :: 0 <= i < |part| ==> McuReproduces(scan, out[i], part[i]))
  }

  predicate PartsDecoded(scan: Scan, oks: seq<bool>, out: seq<seq<seq<seq<Coef>>>>, parts: seq<seq<seq<Block>>>)
    requires ValidScan(scan) && AreParts(scan, parts)
  {
    && |oks| == |out| <= |parts|
    && forall i :: 0 <= i < |oks| ==> PartDecoded(scan, oks[i], out[i], parts[i])
  }

  /** Decodes the intervals of a scan, given how many MCUs each has; parts is what they code. */
  method DecodeParts(scan: Scan, src: seq<byte>, counts: seq<nat>, ghost parts: seq<seq<seq<Block>>>,
                     ghost datas: seq<seq<byte>>, ghost last: byte, ghost rest: seq<byte>)
    returns (oks: seq<bool>, blocks: seq<seq<seq<seq<Coef>>>>, lostRestarts: nat)
    requires ValidScan(scan) && AreParts(scan, parts) && |datas| == |parts| == |counts| > 0
    requires forall i :: 0 <= i < |parts| ==> |parts[i]| == counts[i]
    requires PartsFollow(scan, parts, datas) && last != 0 && last != 0xFF
    requires src == Restarted(datas, 0) + [0xFF, last] + rest
    ensures |oks| == |parts| && lostRestarts == 0 && PartsDecoded(scan, oks, blocks, parts)
  {
    hide IsOrder, ScanDecisions, Follows, InitialBins, Segment, Landing, OnCourse, Restarted, Restart, ScanCodable,
      McuReproduces;
    oks, blocks, lostRestarts := [], [], 0;
    var pos: nat, nextRestartNum: nat := 0, 0;
    assert datas[0..] == datas && src[0..] == src;
    for i := 0 to |counts|
      invariant pos <= |src| && nextRestartNum == i && lostRestarts == 0 && |oks| == i
      invariant i < |datas| ==> src[pos..] == Restarted(datas[i..], i) + [0xFF, last] + rest
      invariant PartsDecoded(scan, oks, blocks, parts)
    {
      IntervalAhead(src, pos, datas, i, last, rest);
      assert PartFollows(scan, parts[i], datas[i]);
      var ok, some, next, unreadMarker := DecodeInterval(scan, src, pos, counts[i], parts[i]);
      assert PartDecoded(scan, ok, some, parts[i]);
      oks, blocks := oks + [ok], blocks + [some];
      if i + 1 < |counts| {
        ok, pos := ReadRestartMarker(src, pos, next, unreadMarker, nextRestartNum);
        lostRestarts := lostRestarts + if ok then 0 else 1;
      }
      nextRestartNum := nextRestartNum + 1;
    }
  }

  /**
   * For every scan and every restart interval: decoding what was encoded, each interval succeeds if and only if all DC
   * differences in it have magnitude at most 32768, and then every block of it comes back unchanged.  An interval that
   * fails does not disturb the others, and no restart marker is lost.
   */
  method RoundTripScan(scan: Scan, interval: nat, mcus: seq<seq<Block>>, marker: byte, rest: seq<byte>)
    returns (oks: seq<bool>, blocks: seq<seq<seq<seq<Coef>>>>, lostRestarts: nat)
    requires ValidScan(scan) && AreMcus(scan, mcus) && marker != 0 && marker != 0xFF
    ensures AreParts(scan, Intervals(mcus, interval)) && Whole(Intervals(mcus, interval)) == mcus
    ensures |oks| == |Intervals(mcus, interval)| && PartsDecoded(scan, oks, blocks, Intervals(mcus, interval))
    ensures lostRestarts == 0
  {
    hide IsOrder, Restarted, PartsFollow, PartsDecoded, Intervals;
    IntervalsAreParts(scan, mcus, interval);
    IntervalsKeep(mcus, interval);
    var parts := Intervals(mcus, interval);
    var out;
    ghost var datas;
    out, datas := EncodeParts(scan, parts);
    var counts := seq(|parts|, i requires 0 <= i < |parts| => |parts[i]|);
    oks, blocks, lostRestarts := DecodeParts(scan, out + [0xFF, marker] + rest, counts, parts, datas, marker, rest);
  }

  predicate DcWithin(s: DcState, bound: int) {
    forall i :: 0 <= i < |s.last| ==> -bound <= s.last[i] <= bound
  }

  predicate McuWithin(mcu: seq<Block>, bound: int) {
    forall n :: 0 <= n < |mcu| ==> -bound <= mcu[n][0] <= bound
  }

  lemma {:induction false} SmallMcuCodable(scan: Scan, s: DcState, mcu: seq<Block>, n: nat)
    requires ValidScan(scan) && ValidDc(scan, s) && IsMcu(scan, mcu) && n <= |mcu|
    requires DcWithin(s, 0x4000) && McuWithin(mcu, 0x4000)
    ensures McuCodable(scan, s, mcu, n) && DcWithin(McuDc(scan, s, mcu, n), 0x4000)
    decreases |mcu| - n
  {
    hide DcContext;
    if n < |mcu| {
      SmallMcuCodable(scan, NextDc(scan, s, scan.membership[n], mcu[n]), mcu, n + 1);
    }
  }

  /** DC values up to 16384, the range of 12-bit samples, never make the decoder give up. */
  lemma {:induction false} SmallScanCodable(scan: Scan, s: DcState, mcus: seq<seq<Block>>)
    requires ValidScan(scan) && ValidDc(scan, s) && AreMcus(scan, mcus)
    requires DcWithin(s, 0x4000) && forall i :: 0 <= i < |mcus| ==> McuWithin(mcus[i], 0x4000)
    ensures ScanCodable(scan, s, mcus)
    decreases mcus
  {
    if mcus != [] {
      SmallMcuCodable(scan, s, mcus[0], 0);
      SmallScanCodable(scan, McuDc(scan, s, mcus[0], 0), mcus[1..]);
    }
  }

  /** A jump from -32768 to 32767 is encoded without complaint but cannot be decoded. */
  lemma ExtremeJumpIsNotCodable(scan: Scan, low: Block, high: Block)
    requires ValidScan(scan) && scan.membership == [0]
    requires low[0] == -0x8000 && high[0] == 0x7FFF
    ensures AreMcus(scan, [[low], [high]]) && !ScanCodable(scan, StartDc(scan), [[low], [high]])
  {
    hide DcContext;
    var mcus := [[low], [high]];
    var s := StartDc(scan);
    assert scan.membership[0] == 0;
    var s1 := NextDc(scan, s, 0, low);
    assert McuDc(scan, s, mcus[0], 0) == McuDc(scan, s1, mcus[0], 1) == s1;
    assert !McuCodable(scan, s1, mcus[1], 0);
    assert mcus[1..][0] == mcus[1];
  }
}
