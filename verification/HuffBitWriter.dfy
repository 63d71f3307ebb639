/** The bit packer of the Huffman encoder: 24 bits of a 32-bit register, FF stuffing, and padding with ones. */
module HuffBitWriter {
  import opened Integers
  import opened Words
  import opened ByteStuffing
  import opened BitStrings

  const WORD := 0x1_0000_0000
  const FIELD := 0x100_0000  // the 24 bits of the register that are in use

  /** Bitwise or. */
  function BitOr(a: nat, b: nat): (r: nat)
  {
    if a == 0 then b
    else if b == 0 then a
    else 2 * BitOr(a / 2, b / 2) + (if a % 2 == 1 || b % 2 == 1 then 1 else 0)
  }

  lemma {:induction false} OrDisjoint(n: nat, m: nat, k: nat)
    requires n < Pow2(k)
    ensures BitOr(n, m * Pow2(k)) == n + m * Pow2(k)
  {
    if k > 0 {
      DoubledProduct(m, Pow2(k - 1));
      assert Pow2(k) == 2 * Pow2(k - 1);
      OrDisjoint(n / 2, m, k - 1);
    }
  }

  /** The low n bits of an integer in two's complement. */
  function LowBits(v: int, n: nat): (s: seq<bit>)
    ensures |s| == n && Number(s) == v % Pow2(n)
  {
    NumberToBits(v % Pow2(n), n);
    ToBits(v % Pow2(n), n)
  }

  /** The bits of a byte string. */
  function Unpacked(data: seq<byte>): (s: seq<bit>)
    ensures |s| == 8 * |data|
  {
    BitsAt(data, 0, 8 * |data|)
  }

  lemma BitAtStable(data: seq<byte>, b: byte, i: nat)
    requires i < 8 * |data|
    ensures BitAt(data + [b], i) == BitAt(data, i)
  {
    hide ToBits;
    assert i / 8 < |data|;
  }

  lemma UnpackedAppend(data: seq<byte>, b: byte)
    ensures Unpacked(data + [b]) == Unpacked(data) + ToBits(b, 8)
  {
    hide BitAt, ToBits, Number;
    var n := 8 * |data|;
    BitsAtSplit(data + [b], 0, n, 8);
    BitsAtByte(data + [b], |data|);
    forall i: nat | i < n
      ensures BitAt(data + [b], i) == BitAt(data, i)
    {
      BitAtStable(data, b, i);
    }
    assert BitsAt(data + [b], 0, n) == BitsAt(data, 0, n);
  }

  /** Bits left-justified in the 24-bit field. */
  ghost predicate Justified(field: nat, s: seq<bit>) {
    |s| <= 24 && field == Number(s) * Pow2(24 - |s|)
  }

  /** Taking the leading byte out of left-justified bits. */
  lemma PopByte(field: nat, s: seq<bit>)
    requires Justified(field, s) && |s| >= 8
    ensures field / 0x1_0000 == Number(s[..8]) < 256
    ensures Justified(field % 0x1_0000 * 0x100, s[8..])
  {
    hide Number, Pow2;
    var head, tail := s[..8], s[8..];
    assert s == head + tail;
    NumberConcat(head, tail);
    Pow2Add(|tail|, 24 - |s|);
    Pow2Add(8, 24 - |s|);
    Pow2Constants();
    Popped(Number(head), Number(tail), Pow2(|tail|), Pow2(24 - |s|));
    assert 24 - |tail| == 8 + (24 - |s|);
    Regroup(Number(tail), Pow2(24 - |s|), 0x100);
  }

  lemma Popped(h: nat, t: nat, p: nat, unit: nat)
    requires t < p && p * unit == 0x1_0000
    ensures (h * p + t) * unit / 0x1_0000 == h && (h * p + t) * unit % 0x1_0000 == t * unit
  {
    ScaleMonotone(t + 1, p, unit);
    ScaleSuccessor(t, unit);
    Distribute(h, p, t, unit);
    QuotientOf((h * p + t) * unit, 0x1_0000, h, t * unit);
    RestOf((h * p + t) * unit, 0x1_0000, h, t * unit);
  }

  /** A number of l bits, moved up by k, stays below bit k + l. */
  lemma AlignedFits(s: seq<bit>, k: nat)
    ensures (Number(s) + 1) * Pow2(k) == Number(s) * Pow2(k) + Pow2(k) <= Pow2(|s| + k)
  {
    hide Number, Pow2;
    Pow2Add(|s|, k);
    ScaleMonotone(Number(s) + 1, Pow2(|s|), Pow2(k));
    ScaleSuccessor(Number(s), Pow2(k));
  }

  lemma FieldAdd(register: nat, aligned: nat)
    requires register % FIELD + aligned < FIELD
    ensures (register + aligned) % FIELD == register % FIELD + aligned
    ensures register < WORD ==> register + aligned < WORD
  {
    var q := register / FIELD;
    assert register + aligned == FIELD * q + (register % FIELD + aligned);
  }

  lemma FieldShift(register: nat)
    ensures register / 0x1_0000 % 0x100 == register % FIELD / 0x1_0000
    ensures register * 0x100 % WORD % FIELD == register % FIELD % 0x1_0000 * 0x100
  {
    var q, r := register / 0x1_0000, register % 0x1_0000;
    assert register % FIELD == q % 0x100 * 0x1_0000 + r;
    assert register * 0x100 % WORD == (q % 0x100 * 0x1_0000 + r) * 0x100;
  }

  /** Adding new bits just below left-justified ones. */
  lemma MergeFields(field: nat, pend: seq<bit>, more: seq<bit>, aligned: nat)
    requires |pend| + |more| <= 24 && Justified(field, pend)
    requires aligned == Number(more) * Pow2(24 - |pend| - |more|)
    ensures aligned < Pow2(24 - |pend|)
    ensures field + aligned < FIELD && Justified(field + aligned, pend + more)
  {
    hide Number, Pow2;
    var k := 24 - |pend| - |more|;
    AlignedFits(more, k);
    AlignedFits(pend, 24 - |pend|);
    MergedNumber(pend, more, k);
    Pow2Constants();
  }

  /** Merging new bits below the ones already there. */
  lemma MergeBits(register: nat, pend: seq<bit>, more: seq<bit>)
    requires |pend| + |more| <= 24 && Justified(register % FIELD, pend)
    ensures var r := BitOr(Number(more) * Pow2(24 - |pend| - |more|), register);
            Justified(r % FIELD, pend + more) && (register < WORD ==> r < WORD)
  {
    hide Number, Pow2, BitOr, Justified;
    var aligned := Number(more) * Pow2(24 - |pend| - |more|);
    MergeFields(register % FIELD, pend, more, aligned);
    MergeDisjoint(register, pend, aligned);
    FieldAdd(register, aligned);
  }

  lemma MergeDisjoint(register: nat, pend: seq<bit>, aligned: nat)
    requires |pend| <= 24 && Justified(register % FIELD, pend) && aligned < Pow2(24 - |pend|)
    ensures BitOr(aligned, register) == aligned + register
  {
    hide Number, Pow2, BitOr;
    var room := 24 - |pend|;
    Pow2Constants();
    Pow2Add(|pend|, room);
    var high := register / FIELD;
    var m := high * Pow2(|pend|) + Number(pend);
    Distribute(high, Pow2(|pend|), Number(pend), Pow2(room));
    OrDisjoint(aligned, m, room);
  }

  lemma MergedNumber(pend: seq<bit>, more: seq<bit>, k: nat)
    ensures Number(pend + more) * Pow2(k) == Number(pend) * Pow2(|more| + k) + Number(more) * Pow2(k)
  {
    hide Number, Pow2;
    NumberConcat(pend, more);
    Pow2Add(|more|, k);
    Distribute(Number(pend), Pow2(|more|), Number(more), Pow2(k));
  }

  class BitWriter {
    var putBuffer: nat  // a 32-bit word; the pending bits stand left-justified in its low 24 bits
    var putBits: nat    // how many bits are pending
    var out: seq<byte>  // bytes written to the destination

    ghost const base: seq<byte>  // what had been written before
    ghost var data: seq<byte>  // the bytes written since, without stuffing
    ghost var sent: seq<bit>   // the bits emitted since

    /** Everything emitted is either written or pending, and the register holds exactly the pending bits. */
    ghost predicate Holds()
      reads this
    {
      && out == base + Stuff(data)
      && putBuffer < WORD
      && |sent| == 8 * |data| + putBits && putBits <= 24
      && sent[..8 * |data|] == Unpacked(data)
      && Justified(putBuffer % FIELD, sent[8 * |data|..])
    }

    /** Between calls at most seven bits are pending. */
    ghost predicate Valid()
      reads this
    {
      Holds() && putBits <= 7
    }

    constructor (base: seq<byte>)
      ensures Valid() && out == this.base == base && data == [] && sent == []
    {
      putBuffer, putBits, out := 0, 0, base;
      this.base, data, sent := base, [], [];
    }

    /** Writes one byte, followed by a zero if it is FF. */
    method EmitByte(c: byte)
      requires out == base + Stuff(data)
      modifies this`out, this`data
      ensures data == old(data) + [c] && out == base + Stuff(data)
    {
      StuffAppend(data, c);
      out := out + [c];
      if c == 0xFF {
        out := out + [0];
      }
      data := data + [c];
    }

    /** Moves the leading pending byte to the destination. */
    method ShiftOut()
      requires Holds() && putBits >= 8
      modifies this`putBuffer, this`putBits, this`out, this`data
      ensures Holds() && putBits == old(putBits) - 8 && |data| == |old(data)| + 1
    {
      hide Number, Justified, Pow2, Unpacked;
      ghost var n := 8 * |data|;
      ghost var pend := sent[n..];
      assert |pend| == putBits by { assert |sent| == n + putBits; }
      PopByte(putBuffer % FIELD, pend);
      FieldShift(putBuffer);
      var c := putBuffer / 0x1_0000 % 0x100;
      EmitByte(c);
      putBuffer := putBuffer * 0x100 % WORD;
      putBits := putBits - 8;
      UnpackedAppend(old(data), c);
      ToBitsNumber(pend[..8]);
      assert sent[..n + 8] == sent[..n] + pend[..8];
      assert sent[n + 8..] == pend[8..];
    }

    /** Puts the low size bits of code behind the pending ones. */
    method Append(code: int, size: nat)
      requires Valid() && size <= 16
      modifies this`putBuffer, this`putBits, this`sent
      ensures Holds() && sent == old(sent) + LowBits(code, size)
    {
      hide Number, Justified, Pow2, Unpacked, BitOr, LowBits;
      ghost var n := 8 * |data|;
      ghost var pend, bits := sent[n..], LowBits(code, size);
      assert |pend| == putBits;
      MergeBits(putBuffer, pend, bits);
      putBits := size + putBits;
      putBuffer := BitOr(code % Pow2(size) * Pow2(24 - putBits), putBuffer);
      sent := sent + bits;
      assert sent[..n] == old(sent)[..n];
      assert sent[n..] == pend + bits;
    }

    /** Emits the low size bits of code; a size of 0 means that the symbol has no code. */
    method EmitBits(code: int, size: nat) returns (ok: bool)
      requires Valid() && size <= 16
      modifies this`putBuffer, this`putBits, this`out, this`data, this`sent
      ensures ok <==> size > 0
      ensures ok ==> Valid() && sent == old(sent) + LowBits(code, size)
    {
      hide Justified, LowBits, Unpacked;
      if size == 0 {
        return false;
      }
      Append(code, size);
      while putBits >= 8
        invariant Holds() && sent == old(sent) + LowBits(code, size)
      {
        ShiftOut();
      }
      ok := true;
    }

    /** Pads the last byte with ones, if it is not full, and empties the register. */
    method Flush()
      requires Valid()
      modifies this`putBuffer, this`putBits, this`out, this`data, this`sent
      ensures Valid() && putBits == 0 && out == base + Stuff(data) && sent == Unpacked(data)
      ensures old(sent) <= sent && |sent| < |old(sent)| + 8
      ensures forall i :: |old(sent)| <= i < |sent| ==> sent[i] == 1
    {
      hide Number, Justified, Pow2, Unpacked, BitOr, LowBits;
      var ok := EmitBits(0x7F, 7);
      SevenOnes();
      ghost var n := 8 * |data|;
      putBuffer, putBits := 0, 0;
      sent := sent[..n];
      assert sent[n..] == [];
      EmptyJustified();
    }
  }

  lemma SevenOnes()
    ensures forall i :: 0 <= i < 7 ==> LowBits(0x7F, 7)[i] == 1
  {
    assert ToBits(1, 1) == [1];
    assert ToBits(3, 2) == [1, 1];
    assert ToBits(7, 3) == [1, 1, 1];
    assert ToBits(15, 4) == [1, 1, 1, 1];
    assert ToBits(31, 5) == [1, 1, 1, 1, 1];
    assert ToBits(63, 6) == [1, 1, 1, 1, 1, 1];
    assert ToBits(127, 7) == [1, 1, 1, 1, 1, 1, 1];
    Pow2Constants();
  }

  lemma EmptyJustified()
    ensures Justified(0, [])
  {
  }
}
