/**
 * The ideal binary arithmetic coder: coding intervals are pairs of unbounded integers, nothing is ever
 * output, and a byte string codes a sequence of decisions exactly when the number it denotes, read with
 * zeros appended, lies in the interval those decisions lead to.
 */
module ArithModel {
  import opened Words
  import opened ArithTable

  /** The interval [low, low + range), in units of 2^-(16 + shifts) of the whole code space. */
  datatype Interval = Interval(low: nat, range: nat, shifts: nat)

  /** One binary decision, coded under the statistics bin with the given number. */
  datatype Decision = Decision(bin: nat, val: bit)

  datatype Coder = Coder(iv: Interval, stats: seq<bin>)

  const WHOLE := Interval(0, 0x1_0000, 0)

  predicate Proper(iv: Interval) {
    1 <= iv.range <= 0x1_0000
  }

  function Renorm(iv: Interval): (r: Interval)
    requires Proper(iv)
    ensures 0x8000 <= r.range <= 0x1_0000 && r.shifts >= iv.shifts
    decreases 0x1_0000 - iv.range
  {
    if iv.range < 0x8000 then Renorm(Interval(2 * iv.low, 2 * iv.range, iv.shifts + 1)) else iv
  }

  /**
   * Section D.1.4: the interval is cut into a lower part and an upper part of size Qe, and the more
   * probable symbol takes the larger of the two (the lower one if they are equal).
   */
  function Split(iv: Interval, sv: bin, val: bit): (r: Interval)
    requires 0x8000 <= iv.range <= 0x1_0000
    ensures Proper(r) && r.shifts == iv.shifts
  {
    var lower := iv.range - Qe(sv);
    if (val == Mps(sv)) == (lower >= Qe(sv))
    then Interval(iv.low, lower, iv.shifts)
    else Interval(iv.low + lower, Qe(sv), iv.shifts)
  }

  /** Section D.1.5: the estimate adapts after every LPS, and after an MPS that needs renormalization. */
  function Adapt(sv: bin, range: nat, val: bit): (sv': bin)
    requires 0x8000 <= range <= 0x1_0000
  {
    if val != Mps(sv) then AfterLps(sv)
    else if range - Qe(sv) >= 0x8000 then sv
    else AfterMps(sv)
  }

  /**
   * The parts have the sizes range - Qe below and Qe above, and the more probable symbol gets the larger one, the lower
   * one of two equal parts: this is what the conditional exchange is for.
   */
  lemma LargerPart(iv: Interval, sv: bin)
    requires 0x8000 <= iv.range <= 0x1_0000
    ensures var mps, lps, lower := Split(iv, sv, Mps(sv)), Split(iv, sv, 1 - Mps(sv)), iv.range - Qe(sv);
            && mps.range >= lps.range && (mps.range == lps.range ==> mps.low < lps.low)
            && (if mps.low < lps.low
                then mps.low == iv.low && mps.range == lower && lps.low == iv.low + lower && lps.range == Qe(sv)
                else lps.low == iv.low && lps.range == lower && mps.low == iv.low + lower && mps.range == Qe(sv))
  {
    hide Qe;
  }

  /** The estimate adapts exactly if the part taken is small enough to need renormalization. */
  lemma AdaptsWithRenorm(iv: Interval, sv: bin, val: bit)
    requires 0x8000 <= iv.range <= 0x1_0000
    ensures Adapt(sv, iv.range, val) == if Split(iv, sv, val).range >= 0x8000 then sv
                                        else if val == Mps(sv) then AfterMps(sv)
                                        else AfterLps(sv)
  {
    hide AfterLps, AfterMps, Qe;
  }

  predicate Ready(c: Coder, bin: nat) {
    Proper(c.iv) && bin < |c.stats|
  }

  function Step(c: Coder, d: Decision): (c': Coder)
    requires Ready(c, d.bin)
    ensures Proper(c'.iv) && |c'.stats| == |c.stats|
  {
    var iv := Renorm(c.iv);
    var sv := c.stats[d.bin];
    Coder(Split(iv, sv, d.val), c.stats[d.bin := Adapt(sv, iv.range, d.val)])
  }

  /** Renormalization doubles as often as it takes to bring the size up to a half. */
  lemma {:induction false} RenormIs(iv: Interval, k: nat)
    requires Proper(iv) && iv.range * Pow2(k) >= 0x8000 && (k > 0 ==> iv.range * Pow2(k - 1) < 0x8000)
    ensures Renorm(iv) == Interval(iv.low * Pow2(k), iv.range * Pow2(k), iv.shifts + k)
    decreases k
  {
    hide Pow2;
    Pow2Step(0);
    if k > 0 {
      Pow2Step(k - 1);
      Pow2Monotone(0, k - 1);
      assert iv.range * 1 <= iv.range * Pow2(k - 1);
      if k > 1 {
        Pow2Step(k - 2);
        Twice(iv.range, Pow2(k - 2));
      }
      Twice(iv.range, Pow2(k - 1));
      Twice(iv.low, Pow2(k - 1));
      RenormIs(Interval(2 * iv.low, 2 * iv.range, iv.shifts + 1), k - 1);
    }
  }

  lemma Twice(a: nat, p: nat)
    ensures (2 * a) * p == a * (2 * p)
  {
  }

  /**
   * What one decision does: after renormalization the more probable symbol takes the larger part, and the estimate of
   * its bin adapts after the other symbol, and after this one if its part has to be renormalized.
   */
  lemma DecisionMeans(c: Coder, bin: nat)
    requires Ready(c, bin)
    ensures var iv, sv := Renorm(c.iv), c.stats[bin];
            var mps, lps := Step(c, Decision(bin, Mps(sv))), Step(c, Decision(bin, 1 - Mps(sv)));
            && mps.iv.range >= lps.iv.range && mps.iv.range + lps.iv.range == iv.range
            && (mps.iv.range == lps.iv.range ==> mps.iv.low < lps.iv.low)
            && (if mps.iv.low < lps.iv.low then lps.iv.range == Qe(sv) else mps.iv.range == Qe(sv))
            && (if mps.iv.low < lps.iv.low then mps.iv.low == iv.low && lps.iv.low == iv.low + mps.iv.range
                else lps.iv.low == iv.low && mps.iv.low == iv.low + lps.iv.range)
            && lps.stats == c.stats[bin := AfterLps(sv)]
            && mps.stats == if mps.iv.range >= 0x8000 then c.stats else c.stats[bin := AfterMps(sv)]
  {
    hide Qe, AfterLps, AfterMps, Renorm, Split, Adapt, Mps;
    var iv, sv := Renorm(c.iv), c.stats[bin];
    LargerPart(iv, sv);
    AdaptsWithRenorm(iv, sv, Mps(sv));
    AdaptsWithRenorm(iv, sv, 1 - Mps(sv));
    MinorPart(iv, sv);
  }

  lemma MinorPart(iv: Interval, sv: bin)
    requires 0x8000 <= iv.range <= 0x1_0000
    ensures Split(iv, sv, 1 - Mps(sv)).range < 0x8000
  {
    hide Qe;
  }

  predicate AllReady(c: Coder, ds: seq<Decision>) {
    Proper(c.iv) && forall i :: 0 <= i < |ds| ==> ds[i].bin < |c.stats|
  }

  function Run(c: Coder, ds: seq<Decision>): (c': Coder)
    requires AllReady(c, ds)
    ensures Proper(c'.iv) && |c'.stats| == |c.stats|
  {
    if ds == [] then c else Step(Run(c, ds[..|ds| - 1]), ds[|ds| - 1])
  }

  /** A bin that starts with the fixed estimate keeps it, whatever is coded. */
  lemma {:induction false} FixedBinStays(c: Coder, ds: seq<Decision>, i: nat)
    requires AllReady(c, ds) && i < |c.stats| && c.stats[i] % 0x80 == FIXED_STATE
    ensures Run(c, ds).stats[i] == c.stats[i]
    decreases |ds|
  {
    hide AfterLps, AfterMps, Renorm, Split, Qe;
    if ds != [] {
      FixedBinStays(c, ds[..|ds| - 1], i);
      FixedStateStays(c.stats[i]);
    }
  }

  lemma RunAppend(c: Coder, ds: seq<Decision>, d: Decision)
    requires AllReady(c, ds + [d])
    ensures AllReady(c, ds)
    ensures Run(c, ds + [d]) == Step(Run(c, ds), d)
  {
    assert (ds + [d])[..|ds|] == ds;
    assert forall i :: 0 <= i < |ds| ==> ds[i] == (ds + [d])[i];
    assert (ds + [d])[|ds|] == d;
  }

  lemma {:induction false} RunConcat(c: Coder, ds: seq<Decision>, es: seq<Decision>)
    requires AllReady(c, ds) && AllReady(c, es)
    ensures AllReady(c, ds + es)
    ensures Run(c, ds + es) == Run(Run(c, ds), es)
  {
    hide Step;
    if es == [] {
      assert ds + es == ds;
    } else {
      var front, last := es[..|es| - 1], es[|es| - 1];
      RunConcat(c, ds, front);
      assert ds + es == (ds + front) + [last];
      RunAppend(c, ds + front, last);
    }
  }

  // ---------------------------------------------------------------------------------------------
  // Byte strings as points of the code space
  // ---------------------------------------------------------------------------------------------

  /** The number made of the first n bytes of data, zeros following its end. */
  function CodeBytes(data: seq<byte>, n: nat): (v: nat)
  {
    if n == 0 then 0
    else 256 * CodeBytes(data, n - 1) + if n <= |data| then data[n - 1] else 0
  }

  lemma CodeBytesValue(data: seq<byte>, n: nat)
    requires n <= |data|
    ensures CodeBytes(data, n) == Value(data[..n])
  {
    if n == 0 {
    } else {
      CodeBytesValue(data, n - 1);
      assert data[..n][..n - 1] == data[..n - 1];
    }
  }

  ghost predicate CodesAt(data: seq<byte>, iv: Interval, n: nat)
    requires 8 * n >= 16 + iv.shifts
  {
    var unit := Pow2(8 * n - 16 - iv.shifts);
    iv.low * unit <= CodeBytes(data, n) < (iv.low + iv.range) * unit
  }

  /** Bytes needed before every bit of an interval bound is covered. */
  function Depth(shifts: nat): (n: nat)
    ensures 8 * n - 7 <= 16 + shifts <= 8 * n
  {
    (16 + shifts + 7) / 8
  }

  /** The number denoted by data (zeros appended) lies in the interval. */
  ghost predicate Codes(data: seq<byte>, iv: Interval) {
    CodesAt(data, iv, Depth(iv.shifts))
  }

  lemma CodesDeeper(data: seq<byte>, iv: Interval, n: nat)
    requires 8 * n >= 16 + iv.shifts
    ensures CodesAt(data, iv, n + 1) <==> CodesAt(data, iv, n)
  {
    var k := 8 * n - 16 - iv.shifts;
    Pow2Add(8, k);
    Pow2Constants();
    var unit, v := Pow2(k), CodeBytes(data, n);
    var lo, hi := iv.low * unit, (iv.low + iv.range) * unit;
    assert iv.low * Pow2(k + 8) == 256 * lo;
    assert (iv.low + iv.range) * Pow2(k + 8) == 256 * hi;
    assert 8 * (n + 1) - 16 - iv.shifts == k + 8;
  }

  lemma {:induction false} CodesAnyDepth(data: seq<byte>, iv: Interval, n: nat)
    requires n >= Depth(iv.shifts)
    ensures CodesAt(data, iv, n) <==> Codes(data, iv)
    decreases n
  {
    if n > Depth(iv.shifts) {
      CodesDeeper(data, iv, n - 1);
      CodesAnyDepth(data, iv, n - 1);
    }
  }

  lemma DoubleBound(x: nat, k: nat)
    ensures x * Pow2(k + 1) == (2 * x) * Pow2(k)
  {
    assert Pow2(k + 1) == 2 * Pow2(k);
  }

  lemma {:induction false} CodesRenorm(data: seq<byte>, iv: Interval)
    requires Proper(iv)
    ensures Codes(data, Renorm(iv)) <==> Codes(data, iv)
    decreases 0x1_0000 - iv.range
  {
    if iv.range < 0x8000 {
      var iv' := Interval(2 * iv.low, 2 * iv.range, iv.shifts + 1);
      CodesRenorm(data, iv');
      var n := Depth(iv'.shifts);
      CodesAnyDepth(data, iv, n);
      var k := 8 * n - 16 - iv'.shifts;
      DoubleBound(iv.low, k);
      DoubleBound(iv.low + iv.range, k);
      assert 2 * (iv.low + iv.range) == iv'.low + iv'.range;
    }
  }

  lemma OrderedBounds(a: nat, b: nat, c: nat, unit: nat)
    requires a <= b <= c
    ensures a * unit <= b * unit <= c * unit
  {
  }

  /** The two parts of a split are disjoint and together make up the whole. */
  lemma CodesSplit(data: seq<byte>, iv: Interval, sv: bin)
    requires 0x8000 <= iv.range <= 0x1_0000
    ensures Codes(data, iv) <==> Codes(data, Split(iv, sv, 0)) || Codes(data, Split(iv, sv, 1))
    ensures !(Codes(data, Split(iv, sv, 0)) && Codes(data, Split(iv, sv, 1)))
  {
    hide Qe, CodeBytes, Pow2;
    var unit := Pow2(8 * Depth(iv.shifts) - 16 - iv.shifts);
    var lower := iv.range - Qe(sv);
    OrderedBounds(iv.low, iv.low + lower, iv.low + iv.range, unit);
    assert iv.low + lower + Qe(sv) == iv.low + iv.range;
  }

  lemma CodesStep(data: seq<byte>, c: Coder, bin: nat)
    requires Ready(c, bin)
    ensures Codes(data, c.iv) <==>
            Codes(data, Step(c, Decision(bin, 0)).iv) || Codes(data, Step(c, Decision(bin, 1)).iv)
    ensures !(Codes(data, Step(c, Decision(bin, 0)).iv) && Codes(data, Step(c, Decision(bin, 1)).iv))
  {
    hide Codes, Split, Renorm, Adapt;
    CodesRenorm(data, c.iv);
    CodesSplit(data, Renorm(c.iv), c.stats[bin]);
  }

  /** data codes the decisions ds from coder state c on. */
  ghost predicate Follows(data: seq<byte>, c: Coder, ds: seq<Decision>) {
    AllReady(c, ds) && Codes(data, Run(c, ds).iv)
  }

  /** The bit an ideal decoder reads from data under a bin. */
  ghost function IdealBit(data: seq<byte>, c: Coder, bin: nat): bit
    requires Ready(c, bin)
  {
    if Codes(data, Step(c, Decision(bin, 1)).iv) then 1 else 0
  }

  /** The bits an ideal decoder reads under a given sequence of bins. */
  ghost function IdealDecode(data: seq<byte>, c: Coder, bins: seq<nat>): (vals: seq<bit>)
    requires Proper(c.iv) && forall i :: 0 <= i < |bins| ==> bins[i] < |c.stats|
    decreases bins
  {
    if bins == [] then []
    else
      var v := IdealBit(data, c, bins[0]);
      [v] + IdealDecode(data, Step(c, Decision(bins[0], v)), bins[1..])
  }

  lemma {:induction false} FollowsPrefix(data: seq<byte>, c: Coder, ds: seq<Decision>, es: seq<Decision>)
    requires Follows(data, c, ds + es)
    ensures Follows(data, c, ds)
    ensures AllReady(Run(c, ds), es) && Follows(data, Run(c, ds), es)
  {
    hide Step, Codes;
    assert forall i :: 0 <= i < |ds| ==> ds[i] == (ds + es)[i];
    assert forall i :: 0 <= i < |es| ==> es[i] == (ds + es)[|ds| + i];
    RunConcat(c, ds, es);
    if es == [] {
      assert ds + es == ds;
    } else {
      var front, last := es[..|es| - 1], es[|es| - 1];
      assert ds + es == (ds + front) + [last];
      RunAppend(c, ds + front, last);
      CodesStep(data, Run(c, ds + front), last.bin);
      FollowsPrefix(data, c, ds, front);
    }
  }

  /** If data codes d and then ds, the ideal decoder reads d's bit and data codes ds from there on. */
  lemma FollowsStep(data: seq<byte>, c: Coder, d: Decision, ds: seq<Decision>)
    requires Follows(data, c, [d] + ds)
    ensures Ready(c, d.bin) && Codes(data, c.iv)
    ensures IdealBit(data, c, d.bin) == d.val
    ensures Follows(data, Step(c, d), ds)
  {
    hide Step, Codes;
    assert ([d] + ds)[0] == d;
    RunAppend(c, [], d);
    assert [] + [d] == [d];
    FollowsPrefix(data, c, [d], ds);
    CodesStep(data, c, d.bin);
  }

  function Tail(ds: seq<Decision>): seq<Decision> {
    if ds == [] then [] else ds[1..]
  }

  function Bins(ds: seq<Decision>): (bins: seq<nat>)
    ensures |bins| == |ds| && forall i :: 0 <= i < |ds| ==> bins[i] == ds[i].bin
  {
    seq(|ds|, i requires 0 <= i < |ds| => ds[i].bin)
  }

  function Vals(ds: seq<Decision>): (vals: seq<bit>)
    ensures |vals| == |ds| && forall i :: 0 <= i < |ds| ==> vals[i] == ds[i].val
  {
    seq(|ds|, i requires 0 <= i < |ds| => ds[i].val)
  }

  /** Reading data under the bins of the decisions it codes gives back their bits. */
  lemma {:induction false} IdealRoundTrip(data: seq<byte>, c: Coder, ds: seq<Decision>)
    requires Follows(data, c, ds)
    ensures forall i :: 0 <= i < |ds| ==> Bins(ds)[i] < |c.stats|
    ensures IdealDecode(data, c, Bins(ds)) == Vals(ds)
    decreases ds
  {
    hide Step, Codes, Run, IdealBit;
    if ds == [] {
    } else {
      assert ds == [ds[0]] + ds[1..];
      FollowsStep(data, c, ds[0], ds[1..]);
      IdealRoundTrip(data, Step(c, ds[0]), ds[1..]);
      assert Bins(ds)[1..] == Bins(ds[1..]);
      assert Vals(ds) == [ds[0].val] + Vals(ds[1..]);
    }
  }
}
