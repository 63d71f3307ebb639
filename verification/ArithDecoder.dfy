/**
 * The arithmetic decoder: a code register whose cut between interval base and look-ahead bits floats (T.81, section
 * D.2).
 */
module ArithDecoder {
  import opened Words
  import opened ByteStuffing
  import opened ArithTable
  import opened ArithModel

  class Decoder {
    var c: nat   // code value less the interval base, followed by ct look-ahead bits
    var a: nat   // size of the coding interval
    var ct: int  // look-ahead bits left in c; -16 before the first byte, -1 after an error
    var stats: seq<bin>
    const src: seq<byte>
    ghost const first: nat  // where reading started
    var pos: nat
    var unreadMarker: byte  // 0 if none

    ghost const data: seq<byte>  // the entropy-coded segment, without stuffing
    ghost var n: nat           // data bytes fetched so far, including zeros past the end
    ghost const start: seq<bin>
    ghost var trace: seq<Decision>

    /** The unread input continues the segment after its first n bytes. */
    ghost predicate Positioned()
      reads this`pos, this`unreadMarker, this`n
    {
      && OnCourse(src, first, pos, unreadMarker)
      && if unreadMarker == 0 then n <= |data| && Segment(src, pos) == data[n..] else n >= |data|
    }

    /** c holds the distance of the code value from the base of iv, to ct bits below the interval's unit. */
    ghost predicate Locates(iv: Interval)
      reads this`c, this`a, this`ct, this`n
    {
      && 0 <= ct <= 7 && 8 * n == 16 + iv.shifts + ct
      && a == iv.range
      && iv.low * Pow2(ct) + c == CodeBytes(data, n)
      && c < a * Pow2(ct)
    }

    /** Fewer than the two initial bytes have been read. */
    ghost predicate Starting(iv: Interval)
      reads this`c, this`a, this`ct, this`n
    {
      iv == WHOLE && n <= 1 && a == 0 && ct == 8 * n - 16 && c == CodeBytes(data, n)
    }

    ghost function Start(): Coder
    {
      Coder(WHOLE, start)
    }

    ghost predicate Valid()
      reads this
    {
      && Positioned()
      && AllReady(Start(), trace)
      && stats == Run(Start(), trace).stats
      && (Starting(Run(Start(), trace).iv) || Locates(Run(Start(), trace).iv))
    }

    constructor (src: seq<byte>, pos: nat, bins: seq<bin>)
      requires pos <= |src|
      ensures Valid() && stats == start == bins && trace == []
      ensures this.src == src && first == pos && data == Segment(src, pos)
    {
      c, a, ct := 0, 0, -16;
      stats, this.src, this.pos, first, unreadMarker := bins, src, pos, pos, 0;
      data, n, start, trace := Segment(src, pos), 0, bins, [];
    }

    method GetByte() returns (b: byte)
      modifies this`pos
      ensures b == SourceByte(src, old(pos)) && pos == old(pos) + 1
    {
      b := SourceByte(src, pos);
      pos := pos + 1;
    }

    /** Reads one data byte or the marker that ends the segment, swallowing fill bytes. */
    method ReadData() returns (d: byte)
      requires unreadMarker == 0 && pos <= |src|
      modifies this`pos, this`unreadMarker
      ensures var f := Fetch(src, old(pos));
              && pos == f.next
              && (f.Data? ==> d == f.value && unreadMarker == 0)
              && (f.Marker? ==> d == 0 && unreadMarker == f.code)
    {
      d := GetByte();
      if d == 0xFF {
        ghost var first := pos;
        d := GetByte();
        while d == 0xFF
          invariant pos > first && d == SourceByte(src, pos - 1) && unreadMarker == 0
          invariant SkipFill(src, pos - 1) == SkipFill(src, first)
          decreases SourceMeasure(src, pos - 1)
        {
          d := GetByte();
        }
        assert SkipFill(src, first) == pos - 1;
        assert Fetch(src, old(pos)) == if d == 0 then Data(0xFF, pos) else Marker(d, pos);
        if d == 0 {
          d := 0xFF;  // discard the stuffed zero byte
        } else {
          unreadMarker := d;
          d := 0;
        }
      }
    }

    /** The next data byte, zeros once a marker has been met. */
    method NextData() returns (d: byte)
      requires Positioned()
      modifies this`pos, this`unreadMarker, this`n
      ensures Positioned() && n == old(n) + 1
      ensures d == if old(n) < |data| then data[old(n)] else 0
    {
      hide Fetch;
      if unreadMarker != 0 {
        d := 0;
      } else {
        assert Segment(src, pos) == data[n..];
        LandingStep(src, pos);
        d := ReadData();
      }
      n := n + 1;
    }

    /** One turn of the renormalization loop, which also reads the two initial bytes. */
    method Shift(ghost iv: Interval)
      requires Positioned() && Proper(iv)
      requires Starting(iv) || (Locates(iv) && iv.range < 0x8000)
      modifies this`c, this`a, this`ct, this`pos, this`unreadMarker, this`n
      ensures Positioned() && n >= old(n)
      ensures old(Starting(iv)) ==> n == old(n) + 1 && (Starting(iv) || (a == 0x1_0000 && Locates(iv)))
      ensures !old(Starting(iv)) ==> Locates(Interval(2 * iv.low, 2 * iv.range, iv.shifts + 1))
    {
      hide Positioned, Pow2, CodeBytes;
      if Locates(iv) {
        ShiftLookAhead(iv.low, c, a, ct);
      }
      ct := ct - 1;
      if ct < 0 {
        ghost var code := CodeBytes(data, n);
        CodeBytesNext(data, n);
        var d := NextData();
        assert CodeBytes(data, n) == 256 * code + d;
        ShiftInByte(iv.low, c, a, d);
        c := c * 0x100 + d;
        ct := ct + 8;
        if ct < 0 {
          ct := ct + 1;
          if ct == 0 {
            a := 0x8000;
          }
        }
      }
      a := 2 * a;
    }

    /** Section D.2.6: renormalization. */
    method Renormalize(ghost iv: Interval)
      requires Positioned() && Proper(iv) && (Starting(iv) || Locates(iv))
      modifies this`c, this`a, this`ct, this`pos, this`unreadMarker, this`n
      ensures Positioned() && Locates(Renorm(iv))
    {
      hide Positioned, Pow2, CodeBytes;
      ghost var now := iv;
      while a < 0x8000
        invariant Positioned() && Proper(now) && (Starting(now) || Locates(now)) && Renorm(now) == Renorm(iv)
        decreases if n < 2 then 2 - n else 0, 0x1_0000 - a
      {
        ghost var next := if Starting(now) then now else Interval(2 * now.low, 2 * now.range, now.shifts + 1);
        Shift(now);
        now := next;
      }
    }

    /** Wherever the registers locate the code value, it lies in the interval. */
    lemma LocatedCodes(iv: Interval)
      requires Locates(iv)
      ensures Codes(data, iv)
    {
      hide CodeBytes, Pow2;
      assert n == Depth(iv.shifts);
      assert (iv.low + iv.range) * Pow2(ct) == iv.low * Pow2(ct) + a * Pow2(ct);
    }

    /** The bins are as an ideal decoder has them. */
    lemma StatsAre()
      requires Valid()
      ensures AllReady(Start(), trace) && stats == Run(Coder(WHOLE, start), trace).stats
    {
      hide Run, Positioned, Locates, Starting;
    }

    /** The decisions decoded so far are coded by the segment. */
    lemma TraceCoded()
      requires Valid()
      ensures Follows(data, Start(), trace)
    {
      hide Run, Codes, Locates;
      var iv := Run(Start(), trace).iv;
      if Starting(iv) {
        WholeCodes(data);
      } else {
        LocatedCodes(iv);
      }
    }

    /** Takes the part of the interval the code value lies in, and adapts the estimate. */
    method Narrow(st: nat, ghost full: Interval) returns (val: bit)
      requires Locates(full) && 0x8000 <= full.range <= 0x1_0000 && st < |stats|
      modifies this`c, this`a, this`stats
      ensures Locates(Split(full, old(stats)[st], val))
      ensures stats == old(stats)[st := Adapt(old(stats)[st], full.range, val)]
    {
      hide Qe, NextLps, NextMps, Pow2, CodeBytes;
      var sv := stats[st];
      var qe := Qe(sv);
      ghost var unit := Pow2(ct);
      ghost var lower := a - qe;
      SplitRegisters(full.low, lower, qe, unit);
      var temp := a - qe;
      a := temp;
      temp := temp * Pow2(ct);
      val := Mps(sv);
      if c >= temp {
        c := c - temp;
        if a < qe {  // conditional LPS exchange
          a := qe;
          stats := stats[st := AfterMps(sv)];
        } else {
          a := qe;
          stats := stats[st := AfterLps(sv)];
          val := 1 - val;
        }
      } else if a < 0x8000 {
        if a < qe {  // conditional MPS exchange
          stats := stats[st := AfterLps(sv)];
          val := 1 - val;
        } else {
          stats := stats[st := AfterMps(sv)];
        }
      }
    }

    /** Decodes one binary decision: the one an ideal decoder reads from the segment at this point. */
    method Decode(st: nat) returns (val: bit)
      requires Valid() && st < |stats|
      modifies this`c, this`a, this`ct, this`pos, this`unreadMarker, this`n, this`stats, this`trace
      ensures Valid() && trace == old(trace) + [Decision(st, val)] && |stats| == |old(stats)|
      ensures val == IdealBit(data, old(Run(Start(), trace)), st)
    {
      hide Positioned, Qe, Pow2, CodeBytes, Renorm, Mps, Adapt, Split, Locates, Run, Codes;
      ghost var now := Run(Start(), trace);
      ghost var full := Renorm(now.iv);
      Renormalize(now.iv);
      val := Narrow(st, full);
      ghost var d := Decision(st, val);
      RunAppend(Start(), trace, d);
      trace := trace + [d];
      assert Run(Start(), trace) == Step(now, d) == Coder(Split(full, now.stats[st], val), stats);
      LocatedCodes(Step(now, d).iv);
      CodesStep(data, now, st);
    }

    /** The rest of the segment codes the decisions ds. */
    ghost predicate Expects(ds: seq<Decision>)
      reads this`trace
    {
      AllReady(Start(), trace) && Follows(data, Run(Start(), trace), ds)
    }

    /** Decodes one decision; one that the segment codes comes out as it went in. */
    method Next(st: nat, ghost ds: seq<Decision>) returns (val: bit)
      requires Valid() && st < |stats|
      modifies this`c, this`a, this`ct, this`pos, this`unreadMarker, this`n, this`stats, this`trace
      ensures Valid() && trace == old(trace) + [Decision(st, val)] && |stats| == |old(stats)|
      ensures old(Expects(ds)) && ds != [] && ds[0].bin == st ==> val == ds[0].val && Expects(ds[1..])
    {
      hide Follows, Run, Codes;
      ghost var now := Run(Start(), trace);
      val := Decode(st);
      if old(Expects(ds)) && ds != [] && ds[0].bin == st {
        assert ds == [ds[0]] + ds[1..];
        FollowsStep(data, now, ds[0], ds[1..]);
        RunAppend(Start(), old(trace), Decision(st, val));
      }
    }
  }

  lemma CodeBytesNext(data: seq<byte>, n: nat)
    ensures CodeBytes(data, n + 1) == 256 * CodeBytes(data, n) + if n < |data| then data[n] else 0
    ensures CodeBytes(data, 0) == 0 && CodeBytes(data, 1) < 0x100
  {
  }

  lemma WholeCodes(data: seq<byte>)
    ensures Codes(data, WHOLE)
  {
    CodeBytesNext(data, 1);
    assert Depth(0) == 2 && Pow2(0) == 1;
  }

  lemma ShiftLookAhead(low: nat, c: nat, a: nat, ct: nat)
    ensures ct > 0 ==> (2 * low) * Pow2(ct - 1) == low * Pow2(ct) && (2 * a) * Pow2(ct - 1) == a * Pow2(ct)
    ensures low * Pow2(0) == low && a * Pow2(0) == a
  {
    if ct > 0 {
      DoubleBound(low, ct - 1);
      DoubleBound(a, ct - 1);
    }
  }

  lemma ShiftInByte(low: nat, c: nat, a: nat, d: byte)
    ensures (2 * low) * Pow2(7) + (c * 0x100 + d) == 0x100 * (low + c) + d
    ensures c < a ==> c * 0x100 + d < (2 * a) * Pow2(7)
    ensures Pow2(0) == 1
  {
    Pow2Constants();
  }

  lemma SplitRegisters(low: nat, lower: nat, qe: nat, unit: nat)
    ensures (low + lower) * unit == low * unit + lower * unit
    ensures (lower + qe) * unit == lower * unit + qe * unit
  {
  }
}
