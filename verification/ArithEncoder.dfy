/** The arithmetic encoder: interval registers, carry resolution and "Pacman" termination (T.81, section D.1). */
module ArithEncoder {
  import opened Words
  import opened ByteStuffing
  import opened ArithTable
  import opened ArithModel
  import opened ArithShortest
  import opened Integers

  ghost predicate NoTrailingZero(data: seq<byte>) {
    data != [] ==> data[|data| - 1] != 0
  }

  class Encoder {
    var c: nat       // base of the coding interval
    var a: nat       // size of the coding interval
    var sc: nat      // stacked FF bytes, which a carry may still turn into 00
    var zc: nat      // postponed 00 bytes, which are dropped if nothing follows them
    var ct: nat      // shifts until the next byte is ready
    var buffer: int  // most recent byte that is not FF and may still take a carry; -1 if none
    var stats: seq<bin>
    var out: seq<byte>

    ghost var data: seq<byte>  // the bytes in out, without stuffing
    ghost const start: seq<bin>  // statistics bins at the start
    ghost var trace: seq<Decision>

    /** Every byte produced so far, final or not. */
    ghost function Bytes(): seq<byte>
      reads this`data, this`zc, this`buffer, this`sc
      requires -1 <= buffer < 0xFF
    {
      data + Repeat(0, zc) + (if buffer >= 0 then [buffer] else []) + Repeat(0xFF, sc)
    }

    ghost predicate Shape()
      reads this`data, this`zc, this`buffer, this`sc, this`out
    {
      && -1 <= buffer < 0xFF
      && (buffer == -1 ==> data == [] && zc == 0)
      && out == Stuff(data) && NoTrailingZero(data)
    }

    /** The bytes produced and the registers together denote exactly the interval iv. */
    ghost predicate Denotes(iv: Interval)
      reads this`data, this`zc, this`buffer, this`sc, this`out, this`a, this`c, this`ct
    {
      && Shape()
      && ct <= 11 && (Bytes() != [] ==> ct <= 8)
      && iv.shifts + ct == 11 + 8 * |Bytes()|
      && a == iv.range
      && Value(Bytes()) * Pow2(27 - ct) + c == iv.low
      && c + a <= Pow2(27 - ct) + Pow2(24 - ct)
      && iv.low + iv.range <= Pow2(16 + iv.shifts)
    }

    ghost function Start(): Coder
    {
      Coder(WHOLE, start)
    }

    ghost predicate Valid()
      reads this
    {
      && AllReady(Start(), trace)
      && ct > 0
      && stats == Run(Start(), trace).stats
      && Denotes(Renorm(Run(Start(), trace).iv))
    }

    constructor (bins: seq<bin>)
      ensures Valid() && stats == start == bins && trace == [] && out == []
    {
      hide Valid;
      c, a, sc, zc, ct, buffer := 0, 0x1_0000, 0, 0, 11, -1;
      stats, out, data, start, trace := bins, [], [], bins, [];
      new;
      StartsRight();
    }

    lemma StartsRight()
      requires c == 0 && a == 0x1_0000 && sc == 0 && zc == 0 && ct == 11 && buffer == -1
      requires stats == start && out == [] && data == [] && trace == []
      ensures Valid()
    {
      assert Bytes() == [];
      Pow2Constants();
    }

    method EmitByte(val: byte)
      modifies this`out
      ensures out == old(out) + [val]
    {
      out := out + [val];
    }

    method EmitPostponedZeros()
      requires out == Stuff(data)
      modifies this`out, this`data, this`zc
      ensures out == Stuff(data) && zc == 0
      ensures data == old(data) + Repeat(0, old(zc)) && old(out) <= out
    {
      hide Stuff;
      ghost var n := zc;
      while zc > 0
        invariant zc <= n
        invariant out == Stuff(data)
        invariant data == old(data) + Repeat(0, n - zc) && old(out) <= out
      {
        StuffAppend(data, 0);
        RepeatExtend(0, n - zc);
        EmitByte(0x00);
        data := data + [0];
        zc := zc - 1;
      }
    }

    method EmitStackedBytes()
      requires out == Stuff(data)
      modifies this`out, this`data, this`sc
      ensures out == Stuff(data) && sc == 0
      ensures data == old(data) + Repeat(0xFF, old(sc)) && old(out) <= out
    {
      hide Stuff;
      ghost var n := sc;
      while sc > 0
        invariant sc <= n
        invariant out == Stuff(data)
        invariant data == old(data) + Repeat(0xFF, n - sc) && old(out) <= out
      {
        StuffAppend(data, 0xFF);
        RepeatExtend(0xFF, n - sc);
        EmitByte(0xFF);
        EmitByte(0x00);
        assert out == Stuff(data + [0xFF]);
        data := data + [0xFF];
        sc := sc - 1;
      }
    }

    method EmitHeldByte(val: byte)
      requires out == Stuff(data)
      modifies this`out, this`data
      ensures out == Stuff(data) && data == old(data) + [val] && old(out) <= out
    {
      hide Stuff;
      StuffAppend(data, val);
      EmitByte(val);
      if val == 0xFF {
        EmitByte(0x00);
      }
      data := data + [val];
    }

    /** Writes the held byte, incremented by a carry, in front of the stacked bytes the carry turned into 00. */
    method ResolveCarry()
      requires Shape() && buffer >= 0
      modifies this`out, this`data, this`zc, this`sc
      ensures out == Stuff(data) && NoTrailingZero(data) && sc == 0 && old(out) <= out
      ensures |data + Repeat(0, zc)| == |old(Bytes())|
      ensures Value(data + Repeat(0, zc)) == old(Value(Bytes())) + 1
    {
      hide Stuff, Value;
      ValueCarry(data + Repeat(0, zc), buffer, sc);
      EmitPostponedZeros();
      EmitHeldByte(buffer + 1);
      zc := zc + sc;
      sc := 0;
    }

    /** Writes the held byte and the stacked bytes, which can no longer change; zero bytes are postponed. */
    method Settle()
      requires Shape()
      modifies this`out, this`data, this`zc, this`sc
      ensures out == Stuff(data) && NoTrailingZero(data) && sc == 0 && old(out) <= out
      ensures data + Repeat(0, zc) == old(Bytes())
    {
      hide Stuff, Value;
      if buffer == 0 {
        RepeatExtend(0, zc);
        zc := zc + 1;
      } else if buffer >= 0 {
        EmitPostponedZeros();
        EmitHeldByte(buffer);
        assert data + Repeat(0, zc) == data;
      }
      assert data + Repeat(0, zc) + Repeat(0xFF, sc) == old(Bytes());
      if sc > 0 {
        EmitPostponedZeros();
        EmitStackedBytes();
        assert data + Repeat(0, zc) == data;
      } else {
        assert data + Repeat(0, zc) + Repeat(0xFF, sc) == data + Repeat(0, zc);
      }
    }

    /** Section D.1.6: the next byte, which may carry into the bytes before it. */
    method ByteOut(temp: nat)
      requires Shape() && temp < 0x1FF
      requires temp > 0xFF ==> buffer >= 0
      modifies this`out, this`data, this`zc, this`sc, this`buffer
      ensures Shape() && old(out) <= out
      ensures |Bytes()| == |old(Bytes())| + 1
      ensures Value(Bytes()) == 256 * old(Value(Bytes())) + temp
    {
      hide Stuff, Value;
      if temp > 0xFF {
        ResolveCarry();
        buffer := temp % 0x100;
        ValueAppend(data + Repeat(0, zc), temp - 0x100);
        assert Bytes() == (data + Repeat(0, zc)) + [temp - 0x100];
      } else if temp == 0xFF {
        ValueAppend(Bytes(), 0xFF);
        RepeatExtend(0xFF, sc);
        sc := sc + 1;
        assert Bytes() == old(Bytes()) + [0xFF];
      } else {
        Settle();
        buffer := temp % 0x100;
        ValueAppend(old(Bytes()), temp);
        assert Bytes() == old(Bytes()) + [temp];
      }
    }

    /** One turn of the renormalization loop. */
    method Shift(ghost iv: Interval)
      requires ct > 0 && Denotes(iv) && 1 <= iv.range < 0x8000
      modifies this`a, this`c, this`ct, this`out, this`data, this`zc, this`sc, this`buffer
      ensures ct > 0 && Denotes(Interval(2 * iv.low, 2 * iv.range, iv.shifts + 1)) && old(out) <= out
    {
      hide Value, Stuff, Pow2;
      ghost var k := |Bytes()|;
      ghost var v := Value(Bytes());
      DoubleRegisters(v, c, a, ct, iv);
      a := 2 * a;
      c := 2 * c;
      ct := ct - 1;
      if ct == 0 {
        var temp := c / 0x8_0000;
        SplitOffByte(v, c, a);
        if temp > 0xFF {
          CarryHasTarget();
        }
        ByteOut(temp);
        c := c % 0x8_0000;
        ct := ct + 8;
        assert |Bytes()| == k + 1;
        assert Value(Bytes()) * Pow2(27 - ct) + c == 2 * iv.low;
      }
    }

    /** While no byte has been held yet, the bytes produced are all FF. */
    lemma OnlyStacked()
      requires Shape() && buffer == -1
      ensures Value(Bytes()) * Pow2(27) + Pow2(27) == Pow2(8 * |Bytes()| + 27)
    {
      hide Value, Pow2, Stuff;
      assert Bytes() == Repeat(0xFF, sc);
      ValueFullStack(sc);
      Pow2Add(8 * sc, 27);
      assert (Value(Bytes()) + 1) * Pow2(27) == Value(Bytes()) * Pow2(27) + Pow2(27);
    }

    /** No carry can leave the code space: before the first held byte there is nothing it could run into. */
    lemma CarryHasTarget()
      requires Shape() && c >= 0x800_0000 && a > 0
      requires Value(Bytes()) * Pow2(27) + c + a <= Pow2(8 * |Bytes()| + 27)
      ensures buffer >= 0
    {
      if buffer < 0 {
        OnlyStacked();
        Pow2Constants();
      }
    }

    method Renormalize(ghost part: Interval)
      requires ct > 0 && Denotes(part) && Proper(part)
      modifies this`a, this`c, this`ct, this`out, this`data, this`zc, this`sc, this`buffer
      ensures ct > 0 && Denotes(Renorm(part)) && old(out) <= out
    {
      ghost var iv := part;
      while a < 0x8000
        invariant ct > 0 && Denotes(iv) && Proper(iv) && Renorm(iv) == Renorm(part)
        invariant old(out) <= out
        decreases 0x8000 - a
      {
        hide Denotes;
        assert iv.range == a by { NamesRange(iv); }
        Shift(iv);
        iv := Interval(2 * iv.low, 2 * iv.range, iv.shifts + 1);
        NamesRange(iv);
      }
    }

    lemma NamesRange(iv: Interval)
      requires Denotes(iv)
      ensures a == iv.range
    {
    }

    /** Cuts the interval for one decision and adapts the estimate; the result says whether to renormalize. */
    method Narrow(st: nat, val: bit, ghost full: Interval) returns (more: bool)
      requires ct > 0 && Denotes(full) && 0x8000 <= full.range <= 0x1_0000 && st < |stats|
      modifies this`a, this`c, this`stats
      ensures Denotes(Split(full, old(stats)[st], val))
      ensures stats == old(stats)[st := Adapt(old(stats)[st], full.range, val)]
      ensures more <==> a < 0x8000
    {
      hide Value, Stuff, Qe, NextLps, NextMps, Pow2, Mps, Bytes;
      var sv := stats[st];
      var qe := Qe(sv);
      a := a - qe;
      if val != Mps(sv) {
        if a >= qe {
          c := c + a;
          a := qe;
        }
        stats := stats[st := AfterLps(sv)];
      } else {
        if a >= 0x8000 {
          return false;
        }
        if a < qe {
          c := c + a;
          a := qe;
        }
        stats := stats[st := AfterMps(sv)];
      }
      more := true;
    }

    /** Encodes one binary decision under the bin with the given number. */
    method Encode(st: nat, val: bit)
      requires Valid() && st < |stats|
      modifies this
      ensures Valid() && trace == old(trace) + [Decision(st, val)]
      ensures |stats| == |old(stats)| && old(out) <= out
    {
      hide Value, Stuff, Qe, Pow2, Renorm, Mps, Adapt, Split, Denotes, Run, Bytes;
      ghost var full := Renorm(Run(Start(), trace).iv);
      ghost var part := Split(full, stats[st], val);
      RunAppend(Start(), trace, Decision(st, val));
      var more := Narrow(st, val, full);
      trace := trace + [Decision(st, val)];
      assert Run(Start(), trace) == Coder(part, stats);
      NamesRange(part);
      if more {
        Renormalize(part);
      } else {
        RenormDone(part);
      }
    }

    /** Moves c to the number in the interval with the most trailing zero bits and aligns it to byte boundaries. */
    method ChooseFinal(ghost iv: Interval) returns (ghost choice: nat)
      requires ct > 0 && Denotes(iv) && 0x8000 <= iv.range <= 0x1_0000
      modifies this`c
      ensures Aligned(c, Value(Bytes()), |Bytes()|, ct, iv)
      ensures c == choice * Pow2(ct) && Roundest(old(c), iv.range, choice)
    {
      hide Value, Stuff, Pow2, Bytes, Roundest, Aligned;
      ghost var base := c;
      ChooseCode(c, a);
      var temp := (a - 1 + c) / 0x1_0000 * 0x1_0000;
      c := if temp < c then temp + 0x8000 else temp;
      choice := c;
      c := c * Pow2(ct);
      AlignChoice(Value(Bytes()), base, choice, a, ct, iv, |Bytes()|);
    }

    /** Settles the bytes before the last two, with one final carry if there is one. */
    method SettleFinal()
      requires Shape() && c < 0x1000_0000
      requires Value(Bytes()) * Pow2(27) + c < Pow2(8 * |Bytes()| + 27)
      modifies this`out, this`data, this`zc, this`sc
      ensures out == Stuff(data) && NoTrailingZero(data) && old(out) <= out
      ensures |data + Repeat(0, zc)| == |old(Bytes())|
      ensures Value(data + Repeat(0, zc)) == old(Value(Bytes())) + c / 0x800_0000
    {
      hide Value, Stuff, Pow2;
      if c >= 0x800_0000 {
        FinalCarryHasTarget();
        ResolveCarry();
      } else {
        Settle();
      }
    }

    lemma FinalCarryHasTarget()
      requires Shape() && c >= 0x800_0000
      requires Value(Bytes()) * Pow2(27) + c < Pow2(8 * |Bytes()| + 27)
      ensures buffer >= 0
    {
      if buffer < 0 {
        OnlyStacked();
        Pow2Constants();
      }
    }

    /** Writes the last two bytes of c unless only zero bytes would follow. */
    method EmitFinal()
      requires out == Stuff(data) && NoTrailingZero(data) && c < 0x1000_0000
      modifies this`out, this`data, this`zc
      ensures out == Stuff(data) && NoTrailingZero(data) && old(out) <= out
      ensures |data| <= old(|data| + zc) + 2
      ensures data + Repeat(0, old(|data| + zc) + 2 - |data|)
           == old(data + Repeat(0, zc)) + [c / 0x8_0000 % 0x100] + [c / 0x800 % 0x100]
    {
      hide Stuff;
      FinalBytes(c);
      if c % 0x800_0000 / 0x800 != 0 {
        EmitPostponedZeros();
        EmitHeldByte(c / 0x8_0000 % 0x100);
        if c % 0x8_0000 / 0x800 != 0 {
          EmitHeldByte(c / 0x800 % 0x100);
        }
      }
    }

    /**
     * Section D.1.8: termination. Emits the number in the final interval with the most trailing zero bits, less its
     * trailing zero bytes; no shorter data codes the same decisions.
     */
    method Finish()
      requires Valid()
      modifies this
      ensures trace == old(trace)
      ensures out == Stuff(data) && NoTrailingZero(data) && old(out) <= out
      ensures Follows(data, Coder(WHOLE, start), trace)
      ensures forall other :: Follows(other, Coder(WHOLE, start), trace) ==> |data| <= |other|
    {
      hide Value, Stuff, Pow2, Run, Renorm, CodesAt, Codes, CodeBytes, NoTrailingZero, Bytes, Roundest;
      ghost var iv, k, v, base := Renorm(Run(Start(), trace).iv), |Bytes()|, Value(Bytes()), c;
      ghost var choice := ChooseFinal(iv);
      SettleFinal();
      ghost var settled := data + Repeat(0, zc);
      ghost var hi, lo := c / 0x8_0000 % 0x100, c / 0x800 % 0x100;
      ValueAppend(settled, hi);
      ValueAppend(settled + [hi], lo);
      EmitFinal();
      PaddedCode(data, k + 2);
      FinalNumber(c, v);
      CodeReached(data, iv, k, ct, Value(settled + [hi] + [lo]));
      CodesRenorm(data, Run(Start(), trace).iv);
      forall other | Follows(other, Coder(WHOLE, start), trace)
        ensures |data| <= |other|
      {
        CodesRenorm(other, Run(Start(), trace).iv);
        NonzeroEnd(data);
        Shortest(data, other, iv, v, k, ct, base, choice);
      }
    }
  }

  lemma NonzeroEnd(data: seq<byte>)
    requires NoTrailingZero(data)
    ensures data != [] ==> data[|data| - 1] != 0
  {
  }

  ghost predicate Aligned(c: nat, v: nat, k: nat, ct: nat, iv: Interval) {
    && c % 0x1_0000 == 0 && c < 0x1000_0000
    && iv.low * Pow2(ct) <= v * Pow2(27) + c < (iv.low + iv.range) * Pow2(ct)
    && v * Pow2(27) + c < Pow2(8 * k + 27)
  }

  /** The number chosen at termination lies in the final interval and ends in 15 zero bits. */
  lemma ChooseCode(c: nat, a: nat)
    requires 0x8000 <= a <= 0x1_0000
    ensures var temp := (a - 1 + c) / 0x1_0000 * 0x1_0000;
            var code := if temp < c then temp + 0x8000 else temp;
            c <= code < c + a && code % 0x8000 == 0 && Roundest(c, a, code)
  {
    var q := (a - 1 + c) / 0x1_0000;
    assert q * 0x1_0000 == (2 * q) * 0x8000;
    assert q * 0x1_0000 + 0x8000 == (2 * q + 1) * 0x8000;
    forall x: nat | c <= x < c + a && x % 0x1_0000 == 0
      ensures x == q * 0x1_0000
    {
      assert x == x / 0x1_0000 * 0x1_0000;
    }
  }

  lemma AlignChoice(v: nat, base: nat, choice: nat, a: nat, ct: nat, iv: Interval, k: nat)
    requires 1 <= ct <= 11 && base <= choice < base + a && choice % 0x8000 == 0
    requires iv.shifts + ct == 11 + 8 * k && a == iv.range && v * Pow2(27 - ct) + base == iv.low
    requires base + a <= Pow2(27 - ct) + Pow2(24 - ct)
    requires iv.low + iv.range <= Pow2(16 + iv.shifts)
    ensures Aligned(choice * Pow2(ct), v, k, ct, iv)
  {
    hide Pow2;
    var u := Pow2(ct);
    AlignMultiple(choice, ct);
    Pow2Add(27 - ct, ct);
    Pow2Add(24 - ct, ct);
    Pow2Add(16 + iv.shifts, ct);
    Pow2Constants();
    ScaleInterval(v, Pow2(27 - ct), base, choice, a, u);
    OrderedBounds(0, iv.low + iv.range, Pow2(16 + iv.shifts), u);
    ScaleBound(choice, base + a, Pow2(27 - ct), Pow2(24 - ct), u);
  }

  lemma AlignMultiple(choice: nat, ct: nat)
    requires ct >= 1 && choice % 0x8000 == 0
    ensures choice * Pow2(ct) % 0x1_0000 == 0
  {
    var q, p := choice / 0x8000, Pow2(ct - 1);
    assert Pow2(ct) == 2 * p;
    assert choice * Pow2(ct) == (q * p) * 0x1_0000;
  }

  lemma ScaleInterval(v: nat, p: nat, base: nat, choice: nat, a: nat, u: nat)
    requires base <= choice < base + a && u > 0
    ensures (v * p + base) * u <= v * (p * u) + choice * u < (v * p + base + a) * u
  {
    assert (v * p) * u == v * (p * u);
    assert (v * p + base) * u == (v * p) * u + base * u;
    assert (v * p + (base + a)) * u == (v * p) * u + (base + a) * u;
    OrderedBounds(base, choice, choice, u);
    assert (choice + 1) * u == choice * u + u;
    OrderedBounds(0, choice + 1, base + a, u);
  }

  lemma ScaleBound(choice: nat, top: nat, p: nat, r: nat, u: nat)
    requires choice < top <= p + r && u > 0
    ensures choice * u < p * u + r * u
  {
    OrderedBounds(choice + 1, choice + 1, p + r, u);
    assert (choice + 1) * u == choice * u + u;
    assert (p + r) * u == p * u + r * u;
  }

  /** The two bytes and the carry bit left in c at termination. */
  lemma FinalBytes(c: nat)
    requires c < 0x1000_0000
    ensures c / 0x800 == c / 0x800_0000 * 0x1_0000 + c / 0x8_0000 % 0x100 * 0x100 + c / 0x800 % 0x100
    ensures c % 0x800_0000 / 0x800 == c / 0x8_0000 % 0x100 * 0x100 + c / 0x800 % 0x100
    ensures c % 0x8_0000 / 0x800 == c / 0x800 % 0x100
    ensures c / 0x800_0000 == if c >= 0x800_0000 then 1 else 0
  {
  }

  lemma {:induction false} PaddedCode(data: seq<byte>, n: nat)
    requires |data| <= n
    ensures CodeBytes(data, n) == Value(data + Repeat(0, n - |data|))
  {
    if n == |data| {
      CodeBytesValue(data, n);
      assert data[..n] == data + Repeat(0, 0);
    } else {
      PaddedCode(data, n - 1);
      RepeatExtend(0, n - 1 - |data|);
      ValueAppend(data + Repeat(0, n - 1 - |data|), 0);
      assert data + Repeat(0, n - |data|) == (data + Repeat(0, n - 1 - |data|)) + [0];
    }
  }

  lemma MultipleOf(c: nat)
    requires c % 0x1_0000 == 0
    ensures c / 0x800 * 0x800 == c
  {
    var q := c / 0x1_0000;
    assert c == 0x800 * (32 * q) + 0;
    QuotientOf(c, 0x800, 32 * q, 0);
  }

  lemma FinalNumber(c: nat, v: nat)
    requires c % 0x1_0000 == 0 && c < 0x1000_0000
    ensures (256 * (256 * (v + c / 0x800_0000) + c / 0x8_0000 % 0x100) + c / 0x800 % 0x100) * 0x800 == v * Pow2(27) + c
  {
    FinalBytes(c);
    Pow2Constants();
    MultipleOf(c);
  }

  lemma CodeReached(data: seq<byte>, iv: Interval, k: nat, ct: nat, full: nat)
    requires 1 <= ct <= 11 && iv.shifts + ct == 11 + 8 * k && |data| <= k + 2
    requires CodeBytes(data, k + 2) == full
    requires iv.low * Pow2(ct) <= full * 0x800 < (iv.low + iv.range) * Pow2(ct)
    ensures Codes(data, iv)
  {
    var n := k + 4;
    assert CodeBytes(data, k + 3) == 256 * full;
    assert CodeBytes(data, n) == 32 * (full * 0x800);
    hide CodeBytes, Pow2;
    Pow2Add(5, ct);
    Pow2Constants();
    assert 8 * n - 16 - iv.shifts == 5 + ct;
    Scale32(iv.low, Pow2(ct));
    Scale32(iv.low + iv.range, Pow2(ct));
    assert CodesAt(data, iv, n);
    CodesAnyDepth(data, iv, n);
  }

  lemma Scale32(x: nat, u: nat)
    ensures x * (32 * u) == 32 * (x * u)
  {
  }

  lemma RenormDone(iv: Interval)
    requires 0x8000 <= iv.range <= 0x1_0000
    ensures Renorm(iv) == iv
  {
  }

  lemma DoubleRegisters(v: nat, c: nat, a: nat, ct: nat, iv: Interval)
    requires 1 <= ct <= 11 && v * Pow2(27 - ct) + c == iv.low
    ensures v * Pow2(28 - ct) + 2 * c == 2 * iv.low
    ensures Pow2(28 - ct) == 2 * Pow2(27 - ct) && Pow2(25 - ct) == 2 * Pow2(24 - ct)
    ensures Pow2(16 + (iv.shifts + 1)) == 2 * Pow2(16 + iv.shifts)
  {
    assert v * Pow2(28 - ct) == 2 * (v * Pow2(27 - ct));
  }

  /** The three spacer bits of c bound a byte that carries, so that it is never FF itself. */
  lemma SplitOffByte(v: nat, c: nat, a: nat)
    ensures v * Pow2(27) + c == (256 * v + c / 0x8_0000) * Pow2(19) + c % 0x8_0000
    ensures a > 0 && c + a <= Pow2(27) + Pow2(24) ==> c / 0x8_0000 <= 0x11F
    ensures a <= 0x1_0000 ==> c % 0x8_0000 + a <= Pow2(19) + Pow2(16)
  {
    Pow2Constants();
  }
}
