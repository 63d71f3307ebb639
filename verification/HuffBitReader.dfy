/** The bit-extraction buffer of the Huffman decoder: a 32-bit register filled a byte at a time. */
module HuffBitReader {
  import opened Integers
  import opened Words
  import opened ByteStuffing
  import opened BitStrings

  const WORD := 0x1_0000_0000
  const MIN_GET_BITS := 25

  /** The low b bits of the register are s. */
  ghost predicate Low(register: nat, s: seq<bit>) {
    register % Pow2(|s|) == Number(s)
  }

  /** Shifting new bits in at the bottom of a 32-bit register. */
  lemma ShiftIn(register: nat, s: seq<bit>, more: seq<bit>)
    requires |s| + |more| <= 32 && Low(register, s)
    ensures Low((register * Pow2(|more|) + Number(more)) % WORD, s + more)
  {
    hide Number, Pow2;
    Pow2Add(|s|, |more|);
    NumberConcat(s, more);
    WordMultiple(|s| + |more|);
    ShiftedRest(register, Number(s), Pow2(|s|), Number(more), Pow2(|more|));
    ModOfMultiple(register * Pow2(|more|) + Number(more), Pow2(|s| + |more|), Pow2(32 - |s| - |more|));
  }

  /** A number that ends in r below p, with m below pm shifted in. */
  lemma ShiftedRest(v: nat, r: nat, p: nat, m: nat, pm: nat)
    requires r < p && v % p == r && m < pm && r * pm + m < p * pm
    ensures (v * pm + m) % (p * pm) == r * pm + m
  {
    var q := v / p;
    assert v == q * p + r;
    Distribute(q, p, r, pm);
    assert q * (p * pm) == p * pm * q;
    RestOf(v * pm + m, p * pm, q, r * pm + m);
  }

  lemma WordMultiple(n: nat)
    requires n <= 32
    ensures Pow2(32 - n) * Pow2(n) == WORD
  {
    Pow2Add(32 - n, n);
    Pow2Add(16, 16);
    Pow2Constants();
  }

  /** The leading n of the low bits, and the rest of them. */
  lemma SplitLow(register: nat, s: seq<bit>, n: nat)
    requires n <= |s| && Low(register, s)
    ensures register / Pow2(|s| - n) % Pow2(n) == Number(s[..n])
    ensures Low(register, s[n..])
  {
    hide Number, Pow2;
    var head, tail := s[..n], s[n..];
    assert s == head + tail;
    NumberConcat(head, tail);
    Pow2Add(n, |s| - n);
    Parted(register, Number(head), Pow2(n), Number(tail), Pow2(|s| - n));
  }

  /** A number that ends in h below p and then t below unit. */
  lemma Parted(v: nat, h: nat, p: nat, t: nat, unit: nat)
    requires h < p && t < unit && p * unit > 0 && v % (p * unit) == h * unit + t
    ensures v / unit % p == h && v % unit == t
  {
    var q := v / (p * unit);
    assert v == p * unit * q + (h * unit + t);
    Distribute(q, p, h, unit);
    assert p * unit * q == q * (p * unit);
    assert unit * (q * p + h) == (q * p + h) * unit;
    QuotientOf(v, unit, q * p + h, t);
    RestOf(v, unit, q * p + h, t);
    RestOf(q * p + h, p, q, h);
  }

  lemma BitsPastEnd(data: seq<byte>, pos: nat, n: nat)
    requires pos >= 8 * |data|
    ensures Number(BitsAt(data, pos, n)) == 0
  {
    hide ToBits;
    var s := BitsAt(data, pos, n);
    forall i | 0 <= i < n
      ensures s[i] == 0
    {
      assert (pos + i) / 8 >= |data|;
    }
    NumberOfZeros(s);
  }

  lemma {:induction false} NumberOfZeros(s: seq<bit>)
    requires forall i :: 0 <= i < |s| ==> s[i] == 0
    ensures Number(s) == 0
  {
    if s != [] {
      NumberOfZeros(s[..|s| - 1]);
    }
  }

  class BitReader {
    var getBuffer: nat        // a 32-bit word; its low bitsLeft bits are still unused
    var bitsLeft: nat
    const src: seq<byte>
    ghost const first: nat    // where reading started
    var next: nat             // position of the next byte to read
    var unreadMarker: byte    // 0 if none
    var insufficientData: bool

    ghost const data: seq<byte>  // the entropy-coded segment, without stuffing
    ghost var loaded: nat      // bytes of it read so far
    ghost var at: nat          // bits taken out of the buffer so far

    /** The register holds the bits that follow those taken out. */
    ghost predicate Buffered()
      reads this`getBuffer, this`bitsLeft, this`at
    {
      getBuffer < WORD && bitsLeft <= 32 && Low(getBuffer, BitsAt(data, at, bitsLeft))
    }

    /** The unread input continues the segment; past its end the bits are fake, and that has been reported. */
    ghost predicate Positioned()
      reads this`bitsLeft, this`next, this`unreadMarker, this`insufficientData, this`loaded, this`at
    {
      && (unreadMarker == 0 ==>
            next <= |src| && loaded <= |data| && Segment(src, next) == data[loaded..] && at + bitsLeft == 8 * loaded)
      && (unreadMarker != 0 ==> at + bitsLeft >= 8 * |data|)
      && (at + bitsLeft > 8 * |data| ==> insufficientData)
      && OnCourse(src, first, next, unreadMarker)
    }

    ghost predicate Valid()
      reads this
    {
      Buffered() && Positioned()
    }

    /** All bits up to position end have been taken out; taking bits from past the segment has been reported. */
    ghost predicate Reached(insufficient: bool, end: nat)
      reads this
    {
      Valid() && at == end && insufficientData == (insufficient || end > 8 * |data|)
    }

    constructor (src: seq<byte>, start: nat)
      requires start <= |src|
      ensures Valid() && !insufficientData && at == 0
      ensures this.src == src && first == start && data == Segment(src, start)
    {
      getBuffer, bitsLeft, unreadMarker, insufficientData := 0, 0, 0, false;
      this.src, next, first, data, loaded, at := src, start, start, Segment(src, start), 0, 0;
    }

    /** A working copy of the reading state. */
    constructor Copy(other: BitReader)
      requires other.Valid()
      ensures Valid() && data == other.data && at == other.at && insufficientData == other.insufficientData
    {
      getBuffer, bitsLeft, unreadMarker := other.getBuffer, other.bitsLeft, other.unreadMarker;
      insufficientData := other.insufficientData;
      this.src, next, first, data, loaded, at := other.src, other.next, other.first, other.data, other.loaded, other.at;
    }

    method GetByte() returns (b: byte)
      modifies this`next
      ensures b == SourceByte(src, old(next)) && next == old(next) + 1
    {
      b := SourceByte(src, next);
      next := next + 1;
    }

    /** Reads one data byte or the marker that ends the segment, swallowing fill bytes. */
    method ReadByte() returns (c: byte)
      requires unreadMarker == 0 && next <= |src|
      modifies this`next, this`unreadMarker
      ensures var f := Fetch(src, old(next));
              && next == f.next
              && (f.Data? ==> c == f.value && unreadMarker == 0)
              && (f.Marker? ==> unreadMarker == f.code)
    {
      c := GetByte();
      if c == 0xFF {
        ghost var first := next;
        c := GetByte();
        while c == 0xFF
          invariant next > first && c == SourceByte(src, next - 1) && unreadMarker == 0
          invariant SkipFill(src, next - 1) == SkipFill(src, first)
          decreases SourceMeasure(src, next - 1)
        {
          c := GetByte();
        }
        assert SkipFill(src, first) == next - 1;
        assert Fetch(src, old(next)) == if c == 0 then Data(0xFF, next) else Marker(c, next);
        if c == 0 {
          c := 0xFF;  // the stuffed zero is dropped
        } else {
          unreadMarker := c;
        }
      }
    }

    /** Loads one more byte, unless the segment ends here. */
    method LoadByte() returns (more: bool)
      requires Valid() && unreadMarker == 0 && bitsLeft < MIN_GET_BITS
      modifies this`getBuffer, this`bitsLeft, this`next, this`unreadMarker, this`loaded
      ensures Valid() && (more <==> unreadMarker == 0)
      ensures bitsLeft == if more then old(bitsLeft) + 8 else old(bitsLeft)
      ensures !more ==> at + bitsLeft == 8 * |data|
    {
      hide Fetch, Low, BitsAt, SourceByte, Number, Pow2;
      LandingStep(src, next);
      var c := ReadByte();
      if unreadMarker != 0 {
        return false;
      }
      assert data[loaded..] == [c] + Segment(src, next);
      hide Segment;
      assert data[loaded] == data[loaded..][0] == c;
      assert data[loaded..][1..] == data[loaded + 1..];
      Pow2Constants();
      NumberToBits(c, 8);
      ShiftIn(getBuffer, BitsAt(data, at, bitsLeft), ToBits(c, 8));
      BitsAtByte(data, loaded);
      BitsAtSplit(data, at, bitsLeft, 8);
      getBuffer := (getBuffer * 0x100 + c) % WORD;
      bitsLeft := bitsLeft + 8;
      loaded := loaded + 1;
      more := true;
    }

    /** At the end of the segment: supplies zero bits if there are not enough left, and reports that once. */
    method PadZeros(nbits: nat)
      requires Valid() && unreadMarker != 0 && nbits <= MIN_GET_BITS
      modifies this`getBuffer, this`bitsLeft, this`insufficientData
      ensures Valid() && bitsLeft >= nbits && bitsLeft >= old(bitsLeft)
      ensures insufficientData == (old(insufficientData) || at + nbits > 8 * |data|)
    {
      hide Low, BitsAt;
      if nbits > bitsLeft {
        insufficientData := true;
        ghost var k := MIN_GET_BITS - bitsLeft;
        BitsPastEnd(data, at + bitsLeft, k);
        ShiftIn(getBuffer, BitsAt(data, at, bitsLeft), BitsAt(data, at + bitsLeft, k));
        BitsAtSplit(data, at, bitsLeft, k);
        getBuffer := getBuffer * Pow2(MIN_GET_BITS - bitsLeft) % WORD;
        bitsLeft := MIN_GET_BITS;
      }
    }

    /** Loads the buffer to a depth of at least nbits. */
    method Fill(nbits: nat)
      requires Valid() && nbits <= MIN_GET_BITS
      modifies this
      ensures Valid() && at == old(at) && bitsLeft >= nbits
      ensures insufficientData == (old(insufficientData) || at + nbits > 8 * |data|)
    {
      hide Low, BitsAt, Segment, Landing;
      if unreadMarker == 0 {
        while bitsLeft < MIN_GET_BITS
          invariant Valid() && unreadMarker == 0 && insufficientData == old(insufficientData) && at == old(at)
          decreases MIN_GET_BITS - bitsLeft
        {
          var more := LoadByte();
          if !more {
            PadZeros(nbits);
            return;
          }
        }
      } else {
        PadZeros(nbits);
      }
    }

    /** Makes sure that nbits bits are in the buffer. */
    method Check(nbits: nat)
      requires Valid() && nbits <= MIN_GET_BITS
      modifies this
      ensures Valid() && at == old(at) && bitsLeft >= nbits
      ensures insufficientData == (old(insufficientData) || at + nbits > 8 * |data|)
    {
      hide Low, BitsAt, Segment, Landing;
      if bitsLeft < nbits {
        Fill(nbits);
      }
    }

    /** The next n bits, without removing them. */
    method Peek(n: nat) returns (v: nat)
      requires Valid() && n <= bitsLeft
      ensures v == Number(BitsAt(data, at, n)) < Pow2(n)
    {
      hide Low, BitsAt, Segment, Landing;
      SplitLow(getBuffer, BitsAt(data, at, bitsLeft), n);
      BitsAtSplit(data, at, n, bitsLeft - n);
      v := getBuffer / Pow2(bitsLeft - n) % Pow2(n);
    }

    /** Discards the next n bits. */
    method Drop(n: nat)
      requires Valid() && n <= bitsLeft
      modifies this
      ensures Valid() && at == old(at) + n && bitsLeft == old(bitsLeft) - n && insufficientData == old(insufficientData)
    {
      hide Low, BitsAt, Segment, Landing;
      SplitLow(getBuffer, BitsAt(data, at, bitsLeft), n);
      BitsAtSplit(data, at, n, bitsLeft - n);
      bitsLeft := bitsLeft - n;
      at := at + n;
    }

    /** Fetches the next n bits; zeros stand in for bits past the end of the segment. */
    method Get(n: nat) returns (v: nat)
      requires Valid() && n <= MIN_GET_BITS
      modifies this
      ensures Reached(old(insufficientData), old(at) + n)
      ensures v == Number(BitsAt(data, old(at), n)) < Pow2(n)
    {
      hide Low, BitsAt, Segment, Landing, Number, Pow2;
      Check(n);
      v := Peek(n);
      Drop(n);
    }
  }
}
