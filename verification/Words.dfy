/** Bytes, bits, powers of two, and byte strings read as big-endian numbers. */
module Words {
  type byte = b: int | 0 <= b < 256

  type bit = b: int | 0 <= b <= 1

  function Pow2(n: nat): (p: nat)
    ensures p > 0
  {
    if n == 0 then 1 else 2 * Pow2(n - 1)
  }

  lemma Pow2Step(n: nat)
    ensures Pow2(n + 1) == 2 * Pow2(n)
    ensures Pow2(0) == 1 && Pow2(1) == 2
  {
  }

  lemma Pow2Add(m: nat, n: nat)
    ensures Pow2(m + n) == Pow2(m) * Pow2(n)
  {
    if m == 0 {
    } else {
      Pow2Add(m - 1, n);
      assert Pow2(m + n) == 2 * Pow2(m + n - 1);
    }
  }

  lemma Pow2Monotone(m: nat, n: nat)
    requires m <= n
    ensures Pow2(m) <= Pow2(n)
  {
    Pow2Add(m, n - m);
    assert Pow2(m) * 1 <= Pow2(m) * Pow2(n - m);
  }

  /** The powers of two the coders name as constants. */
  lemma Pow2Constants()
    ensures Pow2(0) == 1 && Pow2(1) == 2 && Pow2(2) == 4 && Pow2(3) == 8 && Pow2(4) == 16
    ensures Pow2(5) == 32 && Pow2(6) == 64 && Pow2(7) == 128 && Pow2(8) == 256
    ensures Pow2(11) == 0x800 && Pow2(12) == 0x1000 && Pow2(15) == 0x8000 && Pow2(16) == 0x1_0000
    ensures Pow2(19) == 0x8_0000 && Pow2(24) == 0x100_0000 && Pow2(27) == 0x800_0000
  {
    assert Pow2(4) == 16;
    assert Pow2(8) == 256;
    assert Pow2(12) == 0x1000;
    assert Pow2(16) == 0x1_0000;
    assert Pow2(20) == 0x10_0000;
    assert Pow2(24) == 0x100_0000;
  }

  lemma ScaleMonotone(a: nat, b: nat, unit: nat)
    requires a <= b
    ensures a * unit <= b * unit
  {
  }

  lemma ScaleSuccessor(a: nat, unit: nat)
    ensures (a + 1) * unit == a * unit + unit
  {
  }

  /** The number whose base-256 digits, most significant first, are s. */
  function Value(s: seq<byte>): (v: nat)
  {
    if s == [] then 0 else 256 * Value(s[..|s| - 1]) + s[|s| - 1]
  }

  lemma ValueAppend(s: seq<byte>, b: byte)
    ensures Value(s + [b]) == 256 * Value(s) + b
  {
    assert (s + [b])[..|s|] == s;
  }

  function Repeat(b: byte, n: nat): (s: seq<byte>)
    ensures |s| == n
    ensures forall i :: 0 <= i < n ==> s[i] == b
  {
    seq(n, _ => b)
  }

  lemma RepeatExtend(b: byte, n: nat)
    ensures Repeat(b, n + 1) == Repeat(b, n) + [b]
  {
  }

  lemma {:induction false} ValueFullStack(n: nat)
    ensures Value(Repeat(0xFF, n)) + 1 == Pow2(8 * n)
  {
    if n == 0 {
    } else {
      RepeatExtend(0xFF, n - 1);
      ValueAppend(Repeat(0xFF, n - 1), 0xFF);
      ValueFullStack(n - 1);
      Pow2Add(8, 8 * (n - 1));
      Pow2Constants();
    }
  }

  /** A carry into a stack of FF bytes turns them into 00 and increments the byte below. */
  lemma {:induction false} ValueCarry(s: seq<byte>, b: byte, n: nat)
    requires b < 0xFF
    ensures Value(s + [b] + Repeat(0xFF, n)) + 1 == Value(s + [b + 1] + Repeat(0, n))
  {
    if n == 0 {
      ValueAppend(s, b);
      ValueAppend(s, b + 1);
      assert s + [b] + Repeat(0xFF, n) == s + [b];
      assert s + [b + 1] + Repeat(0, n) == s + [b + 1];
    } else {
      ValueCarry(s, b, n - 1);
      var x, y := s + [b] + Repeat(0xFF, n - 1), s + [b + 1] + Repeat(0, n - 1);
      ValueAppend(x, 0xFF);
      ValueAppend(y, 0);
      assert s + [b] + Repeat(0xFF, n) == x + [0xFF];
      assert s + [b + 1] + Repeat(0, n) == y + [0];
    }
  }
}
