/** Whole scans of binary decisions: encoding, terminating, appending a marker and decoding again. */
module ArithRoundTrip {
  import opened Words
  import opened ByteStuffing
  import opened ArithTable
  import opened ArithModel
  import opened ArithEncoder
  import opened ArithDecoder

  /** Two sequences of decisions under the same bins cannot both be coded by the same data. */
  lemma CodedOnce(data: seq<byte>, c: Coder, ds: seq<Decision>, es: seq<Decision>)
    requires Follows(data, c, ds) && Follows(data, c, es) && Bins(ds) == Bins(es)
    ensures ds == es
  {
    hide Follows, IdealDecode;
    IdealRoundTrip(data, c, ds);
    IdealRoundTrip(data, c, es);
    assert Vals(ds) == Vals(es) && |ds| == |Bins(ds)| == |es|;
    forall i | 0 <= i < |ds|
      ensures ds[i] == es[i]
    {
      assert Bins(ds)[i] == Bins(es)[i] && Vals(ds)[i] == Vals(es)[i];
    }
  }

  /** Encodes a sequence of decisions and terminates: the shortest stuffed byte string found codes exactly them. */
  method EncodeDecisions(bins: seq<bin>, ds: seq<Decision>)
      returns (out: seq<byte>, stats: seq<bin>, ghost data: seq<byte>)
    requires AllReady(Coder(WHOLE, bins), ds)
    ensures out == Stuff(data) && NoTrailingZero(data)
    ensures Follows(data, Coder(WHOLE, bins), ds)
    ensures stats == Run(Coder(WHOLE, bins), ds).stats
  {
    hide Follows, Run, Renorm, Stuff, Value, Pow2, CodeBytes, Codes;
    var e := new Encoder(bins);
    for i := 0 to |ds|
      invariant fresh(e) && e.Valid() && e.start == bins && e.trace == ds[..i]
    {
      e.Encode(ds[i].bin, ds[i].val);
    }
    assert ds[..|ds|] == ds;
    stats := e.stats;
    e.Finish();
    out, data := e.out, e.data;
  }

  /** Reads decisions under the given bins from the segment at a position of the source. */
  method DecodeDecisions(src: seq<byte>, pos: nat, bins: seq<bin>, select: seq<nat>)
    returns (vals: seq<bit>, stats: seq<bin>, ghost ds: seq<Decision>)
    requires pos <= |src| && forall i :: 0 <= i < |select| ==> select[i] < |bins|
    ensures Bins(ds) == select && Vals(ds) == vals
    ensures Follows(Segment(src, pos), Coder(WHOLE, bins), ds)
    ensures stats == Run(Coder(WHOLE, bins), ds).stats
  {
    hide Follows, Run, Segment, Decoder.Valid;
    var d := new Decoder(src, pos, bins);
    vals := [];
    for i := 0 to |select|
      invariant fresh(d) && d.Valid() && d.start == bins && d.data == Segment(src, pos)
      invariant |vals| == |d.trace| == i && |d.stats| == |bins|
      invariant forall k :: 0 <= k < i ==> d.trace[k] == Decision(select[k], vals[k])
    {
      var val := d.Decode(select[i]);
      vals := vals + [val];
    }
    stats := d.stats;
    ds := d.trace;
    d.TraceCoded();
    d.StatsAre();
  }

  /**
   * For every sequence of decisions and every initial state of the bins: encoding, terminating, appending a
   * marker and decoding under the same bins gives back the bits and leaves every bin in the same state.
   */
  method RoundTrip(bins: seq<bin>, ds: seq<Decision>, marker: byte, rest: seq<byte>)
    returns (vals: seq<bit>, encoderStats: seq<bin>, decoderStats: seq<bin>)
    requires AllReady(Coder(WHOLE, bins), ds)
    requires marker != 0 && marker != 0xFF
    ensures vals == Vals(ds)
    ensures decoderStats == encoderStats == Run(Coder(WHOLE, bins), ds).stats
  {
    hide Follows;
    var out;
    ghost var data, es;
    out, encoderStats, data := EncodeDecisions(bins, ds);
    var src := out + [0xFF, marker] + rest;
    assert src[0..] == src == (Stuff(data) + [0xFF, marker]) + rest;
    SegmentOfStuffed(src, 0, data, marker);
    vals, decoderStats, es := DecodeDecisions(src, 0, bins, Bins(ds));
    CodedOnce(data, Coder(WHOLE, bins), ds, es);
  }
}
