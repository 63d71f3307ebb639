/**
 * Termination of the arithmetic encoder picks the number in the final interval with the most trailing zero bits (T.81,
 * section D.1.8): no shorter data codes the same decisions.
 */
module ArithShortest {
  import opened Words
  import opened ArithModel

  ghost predicate Multiple(x: nat, e: nat) {
    exists q: nat :: x == q * Pow2(e)
  }

  lemma MultipleLess(x: nat, e: nat, d: nat)
    requires Multiple(x, e) && d <= e
    ensures Multiple(x, d)
  {
    hide Pow2;
    var q: nat :| x == q * Pow2(e);
    Pow2Add(e - d, d);
    Associate(q, Pow2(e - d), Pow2(d));
  }

  lemma Associate(a: nat, b: nat, c: nat)
    ensures a * (b * c) == (a * b) * c
  {
  }

  lemma Distributed(a: nat, b: nat, c: nat)
    ensures (a + b) * c == a * c + b * c
  {
  }

  lemma SameFactor(a: nat, b: nat, p: nat)
    requires p > 0 && a * p == b * p
    ensures a == b
  {
  }

  lemma OrderFactor(a: nat, b: nat, p: nat)
    requires p > 0
    ensures a * p <= b * p <==> a <= b
    ensures a * p < b * p <==> a < b
  {
  }

  /** Bytes that are zeros only shift. */
  lemma {:induction false} PaddedValue(data: seq<byte>, n: nat)
    requires |data| <= n
    ensures CodeBytes(data, n) == Value(data) * Pow2(8 * (n - |data|))
    decreases n
  {
    hide Pow2, Value;
    if n == |data| {
      CodeBytesValue(data, n);
      assert data[..n] == data;
      Pow2Constants();
    } else {
      PaddedValue(data, n - 1);
      Pow2Add(8, 8 * (n - 1 - |data|));
      Pow2Constants();
      Shift256(Value(data), Pow2(8 * (n - 1 - |data|)));
    }
  }

  lemma Shift256(a: nat, p: nat)
    ensures 256 * (a * p) == a * (256 * p)
  {
  }

  /** The last byte of data, which is not zero, lies behind the first k bytes. */
  lemma NotRounder(data: seq<byte>, k: nat, n: nat)
    requires k < |data| <= n && data[|data| - 1] != 0
    ensures !Multiple(CodeBytes(data, n), 8 * (n - k))
  {
    hide Pow2;
    PaddedValue(data, n);
    if Multiple(CodeBytes(data, n), 8 * (n - k)) {
      var q: nat :| CodeBytes(data, n) == q * Pow2(8 * (n - k));
      var more := 8 * (|data| - k);
      Pow2Add(more, 8 * (n - |data|));
      Associate(q, Pow2(more), Pow2(8 * (n - |data|)));
      SameFactor(Value(data), q * Pow2(more), Pow2(8 * (n - |data|)));
      Pow2Add(more - 8, 8);
      Pow2Constants();
      Associate(q, Pow2(more - 8), 256);
      LastByte(Value(data[..|data| - 1]), data[|data| - 1], q * Pow2(more - 8));
      assert false;
    }
  }

  lemma LastByte(a: nat, b: byte, c: nat)
    requires 256 * a + b == c * 256
    ensures b == 0
  {
  }

  /** The registers at termination, the number chosen, and that it is the only one so round. */
  ghost predicate IsFinal(iv: Interval, v: nat, k: nat, ct: nat, base: nat, choice: nat) {
    && 1 <= ct <= 11 && iv.shifts + ct == 11 + 8 * k && v * Pow2(27 - ct) + base == iv.low
    && Roundest(base, iv.range, choice)
  }

  /** In the interval at base of size a: a multiple of 2^15, and of 2^16 if there is one, which is the only one. */
  ghost predicate Roundest(base: nat, a: nat, choice: nat) {
    && base <= choice < base + a && choice % 0x8000 == 0
    && forall x: nat :: base <= x < base + a && x % 0x1_0000 == 0 ==> x == choice
  }

  /** The data in units of the interval. */
  lemma DataIs(data: seq<byte>, iv: Interval, v: nat, k: nat, ct: nat, base: nat, choice: nat)
    requires IsFinal(iv, v, k, ct, base, choice) && |data| <= k + 2
    requires CodeBytes(data, k + 2) * 0x800 == v * Pow2(27) + choice * Pow2(ct)
    ensures CodeBytes(data, k + 4) == (v * Pow2(27 - ct) + choice) * Pow2(5 + ct)
  {
    assert CodeBytes(data, k + 3) == 256 * CodeBytes(data, k + 2);
    assert CodeBytes(data, k + 4) == 256 * CodeBytes(data, k + 3);
    hide CodeBytes, Pow2;
    var u, full := Pow2(ct), CodeBytes(data, k + 2);
    Pow2Add(5, ct);
    Pow2Add(27 - ct, ct);
    Pow2Constants();
    Associate(v, Pow2(27 - ct), u);
    Distributed(v * Pow2(27 - ct), choice, u);
    assert full * 0x800 == (v * Pow2(27 - ct) + choice) * u;
    Shift32(v * Pow2(27 - ct) + choice, u);
  }

  lemma Shift32(a: nat, u: nat)
    ensures a * (32 * u) == 32 * (a * u)
  {
  }

  /** Above the registers everything is a multiple of 2^16. */
  lemma Above(v: nat, ct: nat)
    requires 1 <= ct <= 11
    ensures v * Pow2(27 - ct) == (v * Pow2(11 - ct)) * 0x1_0000
  {
    hide Pow2;
    Pow2Add(11 - ct, 16);
    Pow2Constants();
    Associate(v, Pow2(11 - ct), 0x1_0000);
  }

  lemma RoundSum(a: nat, b: nat, m: nat)
    requires m > 0 && b % m == 0
    ensures (a * m + b) % m == 0 && (a * m + b) / m == a + b / m
  {
    var q := b / m;
    assert b == q * m;
    Distributed(a, q, m);
    assert (a * m + b) == (a + q) * m;
    DivOfMultiple(a + q, m);
  }

  lemma DivOfMultiple(q: nat, m: nat)
    requires m > 0
    ensures (q * m) % m == 0 && (q * m) / m == q
  {
    var x := q * m;
    assert x == (x / m) * m + x % m;
    if x / m < q {
      OrderFactor(x / m + 1, q, m);
    } else if x / m > q {
      OrderFactor(q + 1, x / m, m);
    }
  }

  /** Up to 15 zero bits in units of the interval are there anyway. */
  lemma RoundAnyway(v: nat, ct: nat, choice: nat, e: nat)
    requires 1 <= ct <= 11 && choice % 0x8000 == 0 && e <= 20 + ct
    ensures Multiple((v * Pow2(27 - ct) + choice) * Pow2(5 + ct), e)
  {
    hide Pow2;
    var n := v * Pow2(27 - ct) + choice;
    Above(v, ct);
    RoundSum(2 * (v * Pow2(11 - ct)), choice, 0x8000);
    var q := n / 0x8000;
    assert n == q * 0x8000;
    Pow2Add(15, 5 + ct);
    Pow2Constants();
    Associate(q, 0x8000, Pow2(5 + ct));
    assert n * Pow2(5 + ct) == q * Pow2(20 + ct);
    MultipleLess(n * Pow2(5 + ct), 20 + ct, e);
  }

  /** A number in the interval with more zero bits is the one chosen. */
  lemma RounderIsChoice(iv: Interval, v: nat, k: nat, ct: nat, base: nat, choice: nat, m: nat)
    requires IsFinal(iv, v, k, ct, base, choice) && iv.low <= m < iv.low + iv.range && m % 0x1_0000 == 0
    ensures m == v * Pow2(27 - ct) + choice
  {
    hide Pow2;
    Above(v, ct);
    var x := m - v * Pow2(27 - ct);
    Difference(m, v * Pow2(11 - ct), 0x1_0000);
    assert base <= x < base + iv.range;
  }

  lemma Difference(m: nat, a: nat, p: nat)
    requires p > 0 && m % p == 0 && m >= a * p
    ensures (m - a * p) % p == 0
  {
    var q := m / p;
    assert m == q * p;
    OrderFactor(a, q, p);
    Distributed(q - a, a, p);
    DivOfMultiple(q - a, p);
  }

  /** If shorter data codes the interval, the chosen number has as many zero bits as that data. */
  lemma AsRound(data: seq<byte>, other: seq<byte>, iv: Interval, v: nat, k: nat, ct: nat, base: nat, choice: nat)
    requires IsFinal(iv, v, k, ct, base, choice) && |other| < |data| <= k + 2
    requires CodeBytes(data, k + 2) * 0x800 == v * Pow2(27) + choice * Pow2(ct) && Codes(other, iv)
    ensures Multiple(CodeBytes(data, k + 4), 8 * (k + 4 - |other|))
  {
    hide Pow2, CodeBytes, Value;
    var e, u := 8 * (k + 4 - |other|), Pow2(5 + ct);
    DataIs(data, iv, v, k, ct, base, choice);
    if e <= 20 + ct {
      RoundAnyway(v, ct, choice, e);
    } else {
      CodesAnyDepth(other, iv, k + 4);
      assert 8 * (k + 4) - 16 - iv.shifts == 5 + ct;
      PaddedValue(other, k + 4);
      var big := Value(other) * Pow2(e - 21 - ct);
      Pow2Add(e - 21 - ct, 21 + ct);
      Pow2Add(16, 5 + ct);
      Pow2Constants();
      Associate(Value(other), Pow2(e - 21 - ct), Pow2(21 + ct));
      Associate(big, 0x1_0000, u);
      assert CodeBytes(other, k + 4) == (big * 0x1_0000) * u;
      OrderFactor(iv.low, big * 0x1_0000, u);
      OrderFactor(big * 0x1_0000, iv.low + iv.range, u);
      DivOfMultiple(big, 0x1_0000);
      RounderIsChoice(iv, v, k, ct, base, choice, big * 0x1_0000);
      assert CodeBytes(data, k + 4) == Value(other) * Pow2(e);
    }
  }

  lemma Shortest(data: seq<byte>, other: seq<byte>, iv: Interval, v: nat, k: nat, ct: nat, base: nat, choice: nat)
    requires IsFinal(iv, v, k, ct, base, choice) && |data| <= k + 2 && (data != [] ==> data[|data| - 1] != 0)
    requires CodeBytes(data, k + 2) * 0x800 == v * Pow2(27) + choice * Pow2(ct) && Codes(other, iv)
    ensures |data| <= |other|
  {
    hide Pow2, CodeBytes, IsFinal, Codes, Multiple;
    if |other| < |data| {
      AsRound(data, other, iv, v, k, ct, base, choice);
      NotRounder(data, |other|, k + 4);
      assert false;
    }
  }
}
