/**
 * The byte level shared by the entropy coders: a data byte FF is followed by a stuffed 00, and FF
 * followed by anything else is a marker.  Reading past the end of the source meets the fake
 * end-of-image markers that the source managers supply.
 */
module ByteStuffing {
  import opened Words

  const EOI: byte := 0xD9

  function StuffByte(b: byte): (s: seq<byte>)
  {
    if b == 0xFF then [0xFF, 0x00] else [b]
  }

  function Stuff(data: seq<byte>): (s: seq<byte>)
  {
    if data == [] then [] else StuffByte(data[0]) + Stuff(data[1..])
  }

  lemma StuffConcat(a: seq<byte>, b: seq<byte>)
    ensures Stuff(a + b) == Stuff(a) + Stuff(b)
  {
    if a == [] {
      assert a + b == b;
    } else {
      assert (a + b)[1..] == a[1..] + b;
      StuffConcat(a[1..], b);
    }
  }

  lemma StuffAppend(data: seq<byte>, b: byte)
    ensures Stuff(data + [b]) == Stuff(data) + StuffByte(b)
  {
    StuffConcat(data, [b]);
    assert Stuff([b]) == StuffByte(b) + Stuff([]);
  }

  /** The byte a source hands out at a position: its own bytes, then FF D9 for ever. */
  function SourceByte(src: seq<byte>, pos: nat): (b: byte)
  {
    if pos < |src| then src[pos]
    else if (pos - |src|) % 2 == 0 then 0xFF
    else EOI
  }

  function SourceMeasure(src: seq<byte>, pos: nat): nat
  {
    if pos < |src| then |src| - pos + 2
    else if (pos - |src|) % 2 == 0 then 1
    else 0
  }

  /** Position of the first byte other than FF at or after pos. */
  function SkipFill(src: seq<byte>, pos: nat): (q: nat)
    ensures pos <= q && SourceByte(src, q) != 0xFF
    ensures q < |src| || SourceByte(src, q) == EOI
    decreases SourceMeasure(src, pos)
  {
    if SourceByte(src, pos) == 0xFF then SkipFill(src, pos + 1) else pos
  }

  datatype Fetched = Data(value: byte, next: nat) | Marker(code: byte, next: nat)

  /** What the next read of entropy-coded data meets. */
  function Fetch(src: seq<byte>, pos: nat): (f: Fetched)
    ensures f.next > pos
    ensures f.Data? ==> pos < |src| && f.next <= |src|
    ensures f.Marker? ==> f.code != 0 && f.code != 0xFF
  {
    var b := SourceByte(src, pos);
    if b != 0xFF then
      if pos < |src| then Data(b, pos + 1) else Marker(b, pos + 1)
    else
      var q := SkipFill(src, pos + 1);
      var c := SourceByte(src, q);
      if c == 0 then Data(0xFF, q + 1) else Marker(c, q + 1)
  }

  /** The data bytes from a position up to the next marker. */
  function Segment(src: seq<byte>, pos: nat): (data: seq<byte>)
    decreases if pos < |src| then |src| - pos else 0
  {
    var f := Fetch(src, pos);
    if f.Marker? then [] else [f.value] + Segment(src, f.next)
  }

  /** The marker that ends the data from a position on. */
  function Landing(src: seq<byte>, pos: nat): (m: Fetched)
    ensures m.Marker?
    decreases if pos < |src| then |src| - pos else 0
  {
    var f := Fetch(src, pos);
    if f.Marker? then f else Landing(src, f.next)
  }

  lemma LandingStep(src: seq<byte>, pos: nat)
    ensures var f := Fetch(src, pos); Landing(src, pos) == if f.Marker? then f else Landing(src, f.next)
  {
    hide Fetch;
  }

  /** A reader that started at position start has got as far as pos, or has met the marker there and keeps its code. */
  predicate OnCourse(src: seq<byte>, start: nat, pos: nat, unreadMarker: byte) {
    if unreadMarker == 0 then pos <= |src| && Landing(src, pos) == Landing(src, start)
    else Landing(src, start) == Marker(unreadMarker, pos)
  }

  lemma MarkerAhead(src: seq<byte>, pos: nat, code: byte)
    requires code != 0 && code != 0xFF
    requires pos <= |src| && [0xFF, code] <= src[pos..]
    ensures Fetch(src, pos) == Marker(code, pos + 2)
  {
    assert src[pos] == src[pos..][0] && src[pos + 1] == src[pos..][1];
    assert SkipFill(src, pos + 1) == pos + 1;
  }

  /** What follows the head of what is ahead. */
  lemma RestAhead(src: seq<byte>, pos: nat, head: seq<byte>, tail: seq<byte>)
    requires pos <= |src| && head + tail <= src[pos..]
    ensures pos + |head| <= |src| && tail <= src[pos + |head|..]
    ensures forall i :: 0 <= i < |head| ==> src[pos + i] == head[i]
  {
    forall i | 0 <= i < |head + tail|
      ensures src[pos + i] == (head + tail)[i]
    {
      assert src[pos..][i] == (head + tail)[i];
    }
    forall i | 0 <= i < |tail|
      ensures src[pos + |head|..][i] == tail[i]
    {
      assert (head + tail)[|head| + i] == tail[i];
    }
  }

  lemma ByteAhead(src: seq<byte>, pos: nat, b: byte)
    requires pos + |StuffByte(b)| <= |src| && forall i :: 0 <= i < |StuffByte(b)| ==> src[pos + i] == StuffByte(b)[i]
    ensures Fetch(src, pos) == Data(b, pos + |StuffByte(b)|)
  {
    assert src[pos + 0] == StuffByte(b)[0];
    if b == 0xFF {
      assert src[pos + 1] == StuffByte(b)[1];
      assert SkipFill(src, pos + 1) == pos + 1;
    }
  }

  lemma DataAhead(src: seq<byte>, pos: nat, data: seq<byte>, code: byte)
    requires data != [] && pos <= |src| && Stuff(data) + [0xFF, code] <= src[pos..]
    ensures var next := pos + |StuffByte(data[0])|;
            && Fetch(src, pos) == Data(data[0], next)
            && next <= |src| && Stuff(data[1..]) + [0xFF, code] <= src[next..]
            && next + |Stuff(data[1..])| == pos + |Stuff(data)|
  {
    hide Stuff, Fetch, StuffByte;
    StuffHead(data);
    assert Stuff(data) + [0xFF, code] == StuffByte(data[0]) + (Stuff(data[1..]) + [0xFF, code]);
    RestAhead(src, pos, StuffByte(data[0]), Stuff(data[1..]) + [0xFF, code]);
    ByteAhead(src, pos, data[0]);
  }

  lemma StuffHead(data: seq<byte>)
    requires data != []
    ensures Stuff(data) == StuffByte(data[0]) + Stuff(data[1..])
  {
  }

  /** Stuffed data followed by a marker reads back as exactly that data, and leads to that marker. */
  lemma {:induction false} SegmentOfStuffed(src: seq<byte>, pos: nat, data: seq<byte>, code: byte)
    requires code != 0 && code != 0xFF
    requires pos <= |src| && Stuff(data) + [0xFF, code] <= src[pos..]
    ensures Segment(src, pos) == data && Landing(src, pos) == Marker(code, pos + |Stuff(data)| + 2)
    decreases data
  {
    hide Fetch, StuffByte;
    if data == [] {
      MarkerAhead(src, pos, code);
    } else {
      DataAhead(src, pos, data, code);
      SegmentOfStuffed(src, pos + |StuffByte(data[0])|, data[1..], code);
    }
  }
}
