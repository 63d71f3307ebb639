/**
 * Restart markers: how the segments of a scan's restart intervals follow one another, and how a decoder finds the next
 * one.
 */
module Restarts {
  import opened Words
  import opened ByteStuffing
  import opened Coefficients

  const RST0 := 0xD0

  /** The marker behind restart interval number n. */
  function Restart(n: nat): (code: byte)
    ensures code == 0xD0 + n % 8 && code != 0 && code != 0xFF
  {
    RST0 + n % 8
  }

  /**
   * The restart intervals of a scan: each but the last one has interval MCUs, and an interval of 0 means no restarts.
   */
  function Intervals(mcus: seq<seq<Block>>, interval: nat): (parts: seq<seq<seq<Block>>>)
    ensures parts != []
    decreases |mcus|
  {
    if interval == 0 || |mcus| <= interval then [mcus] else [mcus[..interval]] + Intervals(mcus[interval..], interval)
  }

  /** The MCUs of all intervals, one after the other. */
  function Whole<T>(parts: seq<seq<T>>): (all: seq<T>)
    decreases |parts|
  {
    if parts == [] then [] else parts[0] + Whole(parts[1..])
  }

  lemma {:induction false} WholeNext<T>(parts: seq<seq<T>>, i: nat)
    requires i < |parts|
    ensures Whole(parts[..i + 1]) == Whole(parts[..i]) + parts[i]
    decreases i
  {
    if i == 0 {
      assert parts[..1] == [parts[0]] && parts[..0] == [];
      assert [parts[0]][1..] == [];
    } else {
      assert parts[..i + 1][1..] == parts[1..][..i] && parts[..i][1..] == parts[1..][..i - 1];
      WholeNext(parts[1..], i - 1);
    }
  }

  /**
   * Dividing a scan into restart intervals keeps its MCUs and their order. Every interval but the last one has exactly
   * the MCUs it should have, and the last one has at least one if the scan has any.
   */
  lemma {:induction false} IntervalsKeep(mcus: seq<seq<Block>>, interval: nat)
    ensures var parts := Intervals(mcus, interval);
            && Whole(parts) == mcus
            && (interval == 0 ==> |parts| == 1)
            && (interval > 0 ==> forall i :: 0 <= i < |parts| - 1 ==> |parts[i]| == interval)
            && (interval > 0 ==> |parts[|parts| - 1]| <= interval)
            && (mcus != [] ==> parts[|parts| - 1] != [])
    decreases |mcus|
  {
    if interval == 0 || |mcus| <= interval {
      assert [mcus][1..] == [] && Whole(Intervals(mcus, interval)) == mcus + [];
    } else {
      IntervalsKeep(mcus[interval..], interval);
      assert Intervals(mcus, interval)[1..] == Intervals(mcus[interval..], interval);
    }
  }

  /** Segments with restart markers between them, the first of which is number n. */
  function Restarted(datas: seq<seq<byte>>, n: nat): (out: seq<byte>)
    decreases |datas|
  {
    if datas == [] then []
    else Stuff(datas[0]) + if |datas| == 1 then [] else [0xFF, Restart(n)] + Restarted(datas[1..], n + 1)
  }

  /** One more interval. */
  lemma {:induction false} RestartedMore(datas: seq<seq<byte>>, data: seq<byte>, n: nat)
    requires datas != []
    ensures Restarted(datas + [data], n) == Restarted(datas, n) + [0xFF, Restart(n + |datas| - 1)] + Stuff(data)
    decreases |datas|
  {
    hide Stuff, Restart;
    assert (datas + [data])[1..] == datas[1..] + [data];
    if |datas| == 1 {
      assert Restarted([data], n + 1) == Stuff(data) + [];
      assert datas[1..] + [data] == [data];
    } else {
      RestartedMore(datas[1..], data, n + 1);
    }
  }

  lemma RestartedOne(data: seq<byte>, n: nat)
    ensures Restarted([data], n) == Stuff(data)
  {
    assert Stuff(data) + [] == Stuff(data);
  }

  lemma OneMoreInterval(datas: seq<seq<byte>>, data: seq<byte>, before: seq<byte>, segment: seq<byte>)
    requires segment == Stuff(data)
    requires before == if datas == [] then [] else Restarted(datas, 0) + [0xFF, Restart(|datas| - 1)]
    ensures before + segment == Restarted(datas + [data], 0)
  {
    hide Stuff, Restart, Restarted;
    if datas == [] {
      RestartedOne(data, 0);
      assert [] + [data] == [data] && [] + segment == segment;
    } else {
      RestartedMore(datas, data, 0);
    }
  }

  /** The marker that ends interval number i of count: a restart marker, or the last marker. */
  function EndOf(i: nat, count: nat, last: byte): byte {
    if i + 1 < count then Restart(i) else last
  }

  /** What is left of the source behind the marker that ends interval number i. */
  function Later(datas: seq<seq<byte>>, i: nat, last: byte, rest: seq<byte>): seq<byte>
    requires i < |datas|
  {
    if i + 1 < |datas| then Restarted(datas[i + 1..], i + 1) + [0xFF, last] + rest else rest
  }

  lemma RestartedFirst(datas: seq<seq<byte>>, i: nat, last: byte, rest: seq<byte>)
    requires i < |datas|
    ensures Restarted(datas[i..], i) + [0xFF, last] + rest
         == Stuff(datas[i]) + [0xFF, EndOf(i, |datas|, last)] + Later(datas, i, last, rest)
  {
    hide Stuff, Restart;
    assert datas[i..][1..] == datas[i + 1..];
  }

  lemma SourceBehind(src: seq<byte>, pos: nat, first: seq<byte>, later: seq<byte>)
    requires pos <= |src| && src[pos..] == first + later
    ensures pos + |first| <= |src| && src[pos + |first|..] == later
  {
    assert src[pos + |first|..] == src[pos..][|first|..];
  }

  /** Where interval number i starts, its data is ahead, then its marker, and then the next interval. */
  lemma IntervalAhead(src: seq<byte>, pos: nat, datas: seq<seq<byte>>, i: nat, last: byte, rest: seq<byte>)
    requires pos <= |src| && i < |datas| && src[pos..] == Restarted(datas[i..], i) + [0xFF, last] + rest
    requires last != 0 && last != 0xFF
    ensures Segment(src, pos) == datas[i]
    ensures var m := Landing(src, pos);
            && m.code == EndOf(i, |datas|, last) && m.next <= |src|
            && (i + 1 < |datas| ==> src[m.next..] == Restarted(datas[i + 1..], i + 1) + [0xFF, last] + rest)
  {
    hide Stuff, Segment, Landing, Restart, Restarted;
    var code, data := EndOf(i, |datas|, last), datas[i];
    var later := Later(datas, i, last, rest);
    RestartedFirst(datas, i, last, rest);
    SegmentOfStuffed(src, pos, data, code);
    SourceBehind(src, pos, Stuff(data) + [0xFF, code], later);
  }

  /** Scans the source for the next marker, over data bytes, fill bytes and stuffed zeros. */
  method NextMarker(src: seq<byte>, pos: nat) returns (code: byte, next: nat)
    requires pos <= |src|
    ensures Marker(code, next) == Landing(src, pos)
  {
    next := pos;
    while true
      invariant next <= |src| && Landing(src, next) == Landing(src, pos)
      decreases |src| - next
    {
      hide Landing;
      LandingStep(src, next);
      var c := SourceByte(src, next);
      next := next + 1;
      if c == 0xFF {
        ghost var first := next;
        c := SourceByte(src, next);
        next := next + 1;
        while c == 0xFF
          invariant next > first && c == SourceByte(src, next - 1)
          invariant SkipFill(src, next - 1) == SkipFill(src, first)
          decreases SourceMeasure(src, next - 1)
        {
          c := SourceByte(src, next);
          next := next + 1;
        }
        assert SkipFill(src, first) == next - 1;
        if c != 0 {
          code := c;
          return;
        }
      }
    }
  }

  /**
   * Advances past the restart marker that ends the segment from start on, wherever in it a reader stands; any other
   * marker is refused (the source manager would then try to find its way back).
   */
  method ReadRestartMarker(src: seq<byte>, ghost start: nat, pos: nat, unreadMarker: byte, nextRestartNum: nat)
    returns (ok: bool, next: nat)
    requires OnCourse(src, start, pos, unreadMarker)
    ensures next == Landing(src, start).next && (ok <==> Landing(src, start).code == Restart(nextRestartNum))
  {
    hide Landing;
    var code := unreadMarker;
    next := pos;
    if code == 0 {
      code, next := NextMarker(src, pos);
    }
    ok := code == Restart(nextRestartNum);
  }
}
