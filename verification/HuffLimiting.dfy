/** Counting code lengths and limiting them to 16 (T.81, section K.2). */
module HuffLimiting {
  import opened Integers
  import opened Words
  import opened HuffTables
  import opened HuffDerived
  import opened HuffMerging

  const MAX_CLEN := 32

  /** How many of the first n entries are nonzero. */
  function Used(s: seq<nat>, n: nat): (count: nat)
    requires n <= |s|
    ensures count <= n
  {
    if n == 0 then 0 else Used(s, n - 1) + if s[n - 1] > 0 then 1 else 0
  }

  /** The code space that the first n symbols take, in units of length MAX_CLEN. */
  function CodeSpace(codesize: seq<nat>, n: nat): (space: nat)
    requires n <= |codesize|
  {
    if n == 0 then 0
    else CodeSpace(codesize, n - 1)
         + if 0 < codesize[n - 1] <= MAX_CLEN then Pow2(MAX_CLEN - codesize[n - 1]) else 0
  }

  /** How many of the first n symbols have length l. */
  function ClassSize(codesize: seq<nat>, n: nat, l: nat): (size: nat)
    requires n <= |codesize|
  {
    if n == 0 then 0 else ClassSize(codesize, n - 1, l) + if codesize[n - 1] == l then 1 else 0
  }

  /** bits counts the symbols of each length. */
  predicate Classes(bits: seq<byte>, codesize: seq<nat>) {
    && |bits| == MAX_CLEN + 1 && bits[0] == 0
    && forall l :: 1 <= l <= MAX_CLEN ==> bits[l] == ClassSize(codesize, |codesize|, l)
  }

  lemma {:induction false} CountUpdate(bits: seq<byte>, k: nat, v: byte, l: nat)
    requires 1 <= k < |bits| && l < |bits|
    ensures CountTo(bits[k := v], l) + (if k <= l then bits[k] else 0) == CountTo(bits, l) + (if k <= l then v else 0)
    decreases l
  {
    if l > 0 {
      CountUpdate(bits, k, v, l - 1);
    }
  }

  lemma {:induction false} EndUpdate(bits: seq<byte>, k: nat, v: byte, l: nat)
    requires 1 <= k < |bits| && 1 <= l < |bits|
    ensures k <= l ==> EndCode(bits[k := v], l) + bits[k] * Pow2(l - k) == EndCode(bits, l) + v * Pow2(l - k)
    ensures k > l ==> EndCode(bits[k := v], l) == EndCode(bits, l)
    decreases l
  {
    hide Pow2;
    Pow2Step(0);
    if l > 1 {
      EndUpdate(bits, k, v, l - 1);
      if k < l {
        Pow2Step(l - k - 1);
        DoubledProduct(bits[k], Pow2(l - k - 1));
        DoubledProduct(v, Pow2(l - k - 1));
      }
    }
  }

  lemma ClassWithin(bits: seq<byte>, k: nat, l: nat)
    requires 1 <= k <= l < |bits|
    ensures bits[k] <= CountTo(bits, l)
  {
    CountUpdate(bits, k, 0, l);
  }

  /** Two classes together hold at most all symbols. */
  lemma ClassesWithin(bits: seq<byte>, j: nat, k: nat, l: nat)
    requires 1 <= j < k <= l < |bits|
    ensures bits[j] + bits[k] <= CountTo(bits, l)
  {
    hide CountTo;
    CountUpdate(bits, j, 0, l);
    ClassWithin(bits[j := 0], k, l);
  }

  /** Adds one to a class; the class cannot overflow as long as there are fewer than 256 symbols. */
  method CountOne(bits: array<byte>, l: nat)
    requires 1 <= l < bits.Length == MAX_CLEN + 1 && CountTo(bits[..], MAX_CLEN) < 255
    modifies bits
    ensures CountTo(bits[..], MAX_CLEN) == old(CountTo(bits[..], MAX_CLEN)) + 1
    ensures EndCode(bits[..], MAX_CLEN) == old(EndCode(bits[..], MAX_CLEN)) + Pow2(MAX_CLEN - l)
    ensures old(bits[l]) < 255 && bits[..] == old(bits[..])[l := old(bits[l]) + 1]
  {
    hide CountTo, FirstCode, Pow2;
    ghost var b := bits[..];
    ClassWithin(b, l, MAX_CLEN);
    CountUpdate(b, l, b[l] + 1, MAX_CLEN);
    EndUpdate(b, l, b[l] + 1, MAX_CLEN);
    ScaleSuccessor(b[l], Pow2(MAX_CLEN - l));
    bits[l] := bits[l] + 1;
    assert bits[..] == b[l := b[l] + 1];
  }

  /** Counts the symbols of each code length; fails if a length exceeds 32. */
  method CountLengths(codesize: array<nat>) returns (ok: bool, bits: array<byte>)
    requires codesize.Length == SYMBOLS && Used(codesize[..], SYMBOLS) <= 255
    ensures fresh(bits) && bits.Length == MAX_CLEN + 1 && bits[0] == 0
    ensures ok <==> forall i :: 0 <= i < SYMBOLS ==> codesize[i] <= MAX_CLEN
    ensures ok ==> CountTo(bits[..], MAX_CLEN) == Used(codesize[..], SYMBOLS)
    ensures ok ==> EndCode(bits[..], MAX_CLEN) == CodeSpace(codesize[..], SYMBOLS) && Classes(bits[..], codesize[..])
  {
    hide CountTo, FirstCode, Pow2;
    bits := new byte[MAX_CLEN + 1](_ => 0);
    NothingCounted(bits[..], MAX_CLEN);
    for i := 0 to SYMBOLS
      invariant forall k :: 0 <= k < i ==> codesize[k] <= MAX_CLEN
      invariant CountTo(bits[..], MAX_CLEN) == Used(codesize[..], i)
      invariant EndCode(bits[..], MAX_CLEN) == CodeSpace(codesize[..], i)
      invariant bits[0] == 0 && forall l :: 1 <= l <= MAX_CLEN ==> bits[l] == ClassSize(codesize[..], i, l)
    {
      if codesize[i] != 0 {
        if codesize[i] > MAX_CLEN {
          return false, bits;
        }
        UsedMonotone(codesize[..], i + 1, SYMBOLS);
        CountOne(bits, codesize[i]);
      }
    }
    ok := true;
  }

  lemma {:induction false} UsedMonotone(s: seq<nat>, m: nat, n: nat)
    requires m <= n <= |s|
    ensures Used(s, m) <= Used(s, n)
    decreases n
  {
    if m < n {
      UsedMonotone(s, m, n - 1);
    }
  }

  lemma {:induction false} NothingCounted(bits: seq<byte>, l: nat)
    requires 1 <= l < |bits| && forall k :: 0 <= k < |bits| ==> bits[k] == 0
    ensures CountTo(bits, l) == 0 && EndCode(bits, l) == 0
    decreases l
  {
    if l > 1 {
      NothingCounted(bits, l - 1);
    }
  }

  // ---------------------------------------------------------------------------------------------
  // Limiting
  // ---------------------------------------------------------------------------------------------

  /** The n symbols have lengths of at most i and use up the code space exactly. */
  predicate Balanced(bits: seq<byte>, i: nat, n: nat) {
    && |bits| == MAX_CLEN + 1 && 1 <= i <= MAX_CLEN && bits[0] == 0
    && (forall l :: i < l <= MAX_CLEN ==> bits[l] == 0)
    && CountTo(bits, MAX_CLEN) == n && EndCode(bits, i) == Pow2(i)
  }

  /** The longest class is even, so that its symbols can be taken away in pairs. */
  lemma LongestPaired(bits: seq<byte>, i: nat, n: nat)
    requires Balanced(bits, i, n) && i > 1
    ensures bits[i] % 2 == 0
    ensures bits[i] == 0 ==> Balanced(bits, i - 1, n)
  {
    hide CountTo;
    Pow2Step(i - 1);
    assert EndCode(bits, i) == 2 * EndCode(bits, i - 1) + bits[i];
  }

  /** There is always a shorter class to split. */
  lemma RoomToSplit(bits: seq<byte>, i: nat, n: nat)
    requires Balanced(bits, i, n) && i > 16 && n <= 255
    ensures CountTo(bits, i - 2) > 0
  {
    if CountTo(bits, i - 2) == 0 {
      FirstCodeOfEmpty(bits, i - 1);
      assert EndCode(bits, i) == 2 * EndCode(bits, i - 1) + bits[i];
      hide CountTo, FirstCode, Pow2;
      Pow2Monotone(16, i);
      Pow2Constants();
      assert false;
    }
  }

  /** Moving a pair of the longest symbols keeps the balance. */
  lemma SplitBalanced(b0: seq<byte>, b1: seq<byte>, b2: seq<byte>, b3: seq<byte>, b4: seq<byte>, i: nat, j: nat, n: nat)
    requires Balanced(b0, i, n) && 1 <= j <= i - 2 && b0[i] >= 2 && b0[j] > 0
    requires b1 == b0[i := b0[i] - 2] && b1[i - 1] < 255 && b2 == b1[i - 1 := b1[i - 1] + 1]
    requires b2[j + 1] < 254 && b3 == b2[j + 1 := b2[j + 1] + 2] && b4 == b3[j := b3[j] - 1]
    ensures Balanced(b4, i, n) && b4[i] == b0[i] - 2
  {
    hide CountTo, FirstCode, Pow2;
    CountUpdate(b0, i, b0[i] - 2, MAX_CLEN);
    CountUpdate(b1, i - 1, b1[i - 1] + 1, MAX_CLEN);
    CountUpdate(b2, j + 1, b2[j + 1] + 2, MAX_CLEN);
    CountUpdate(b3, j, b3[j] - 1, MAX_CLEN);
    EndUpdate(b0, i, b0[i] - 2, i);
    EndUpdate(b1, i - 1, b1[i - 1] + 1, i);
    EndUpdate(b2, j + 1, b2[j + 1] + 2, i);
    EndUpdate(b3, j, b3[j] - 1, i);
    Pow2Step(0);
    Pow2Step(i - j - 1);
    AddedProduct(b1[i - 1], 1, Pow2(1));
    AddedProduct(b2[j + 1], 2, Pow2(i - j - 1));
    AddedProduct(b3[j] - 1, 1, Pow2(i - j));
  }

  lemma AddedProduct(a: nat, d: nat, p: nat)
    ensures (a + d) * p == a * p + d * p
  {
  }

  /** The greatest length up to j that some symbol has, 0 if there is none. */
  function LongestUpTo(bits: seq<byte>, j: nat): (k: nat)
    requires j < |bits|
    ensures k <= j && (k == 0 || bits[k] > 0) && forall l :: k < l <= j ==> bits[l] == 0
  {
    if j == 0 || bits[j] > 0 then j else LongestUpTo(bits, j - 1)
  }

  /** Splitting finds a class, and the classes that grow do not overflow. */
  lemma SplitFits(bits: seq<byte>, i: nat, n: nat)
    requires Balanced(bits, i, n) && i > 16 && n <= 255 && bits[i] > 0
    ensures var j := LongestUpTo(bits, i - 2);
            && bits[i] >= 2 && j >= 1 && bits[j] > 0 && bits[i - 1] <= 253 && bits[j + 1] <= 253
            && (j + 1 == i - 1 ==> bits[j + 1] <= 252)
  {
    hide CountTo, EndCode, Pow2;
    var j := LongestUpTo(bits, i - 2);
    LongestPaired(bits, i, n);
    RoomToSplit(bits, i, n);
    NoneBeyond(bits, j, i - 2);
    if j == 0 {
      CountStepDown(bits, 0);
    }
    ShortClasses(bits, i, j, n);
  }

  /**
   * Class j is split: the longest one below i - 1 that has a symbol. Its symbol and one of class i share two codes one
   * bit longer, and the other one of class i gets one bit less.
   */
  predicate IsSplit(b0: seq<byte>, b: seq<byte>, i: nat, j: nat) {
    && |b0| == |b| && 1 <= j <= i - 2 && i < |b| && b0[j] > 0
    && (forall l :: j < l <= i - 2 ==> b0[l] == 0)
    && forall l :: 0 <= l < |b| ==>
         b[l] as int - b0[l] == (if l == i then -2 else 0) + (if l == i - 1 then 1 else 0)
                         + (if l == j + 1 then 2 else 0) + (if l == j then -1 else 0)
  }

  /** Figure K.3 of T.81: two symbols of the longest class i are given shorter codes. */
  function SplitOnce(b0: seq<byte>, i: nat, n: nat): (b: seq<byte>)
    requires Balanced(b0, i, n) && i > 16 && n <= 255 && b0[i] > 0
    ensures Balanced(b, i, n) && b[i] == b0[i] - 2
    ensures exists j :: IsSplit(b0, b, i, j)
  {
    var j := LongestUpTo(b0, i - 2);
    SplitFits(b0, i, n);
    var b1 := b0[i := b0[i] - 2];
    var b2 := b1[i - 1 := b1[i - 1] + 1];
    var b3 := b2[j + 1 := b2[j + 1] + 2];
    SplitBalanced(b0, b1, b2, b3, b3[j := b3[j] - 1], i, j, n);
    assert IsSplit(b0, b3[j := b3[j] - 1], i, j);
    b3[j := b3[j] - 1]
  }

  /** The lengths limited to 16. */
  function Adjusted(bits: seq<byte>, i: nat, n: nat): (b: seq<byte>)
    requires Balanced(bits, i, n) && i >= 16 && n <= 255
    ensures Balanced(b, 16, n)
    ensures (forall l :: 16 < l < |bits| ==> bits[l] == 0) ==> b == bits
    decreases i, if i < |bits| then bits[i] else 0
  {
    if i == 16 then bits
    else if bits[i] > 0 then Adjusted(SplitOnce(bits, i, n), i, n)
    else
      LongestPaired(bits, i, n);
      Adjusted(bits, i - 1, n)
  }

  lemma SomeLeft(bits: seq<byte>, n: nat)
    requires Balanced(bits, 16, n) && n > 0
    ensures LongestUpTo(bits, 16) > 0
  {
    AllWithin(bits, n);
    NoneBeyond(bits, LongestUpTo(bits, 16), 16);
  }

  /** Without the pseudo-symbol, which has one of the longest codes. */
  function WithoutPseudo(bits: seq<byte>, n: nat): (b: seq<byte>)
    requires Balanced(bits, 16, n) && n > 0
    ensures |b| == MAX_CLEN + 1
    ensures exists i :: 1 <= i <= 16 && bits[i] > 0 && b == bits[i := bits[i] - 1]
                        && forall l :: i < l <= 16 ==> bits[l] == 0
  {
    SomeLeft(bits, n);
    var i := LongestUpTo(bits, 16);
    bits[i := bits[i] - 1]
  }

  /** The counts of a table come from code lengths of n symbols by limiting them and leaving out the pseudo-symbol. */
  ghost predicate Limited(bits: seq<byte>, codesize: seq<nat>, n: nat) {
    && 0 < n <= 255
    && exists b: seq<byte> :: Classes(b, codesize) && Balanced(b, MAX_CLEN, n)
                              && bits == WithoutPseudo(Adjusted(b, MAX_CLEN, n), n)[..MAX_LENGTH + 1]
  }

  /**
   * Takes two symbols out of the longest class: one gets one bit less, the other shares a shorter code with its owner.
   */
  method SplitClass(bits: array<byte>, i: nat, ghost n: nat)
    requires bits.Length == MAX_CLEN + 1 && Balanced(bits[..], i, n) && i > 16 && n <= 255 && bits[i] > 0
    modifies bits
    ensures bits[..] == SplitOnce(old(bits[..]), i, n)
  {
    hide CountTo, EndCode, Pow2, IsSplit;
    ghost var b0 := bits[..];
    SplitFits(b0, i, n);
    var j: nat := i - 2;
    while bits[j] == 0
      invariant LongestUpTo(b0, i - 2) <= j <= i - 2 && LongestUpTo(b0, j) == LongestUpTo(b0, i - 2) && bits[..] == b0
      decreases j
    {
      if j == 0 {
        assert false;  // JERR_HUFF_CLEN_OUTOFBOUNDS cannot happen here
      }
      j := j - 1;
    }
    bits[i] := bits[i] - 2;
    ghost var b1 := bits[..];
    bits[i - 1] := bits[i - 1] + 1;
    ghost var b2 := bits[..];
    bits[j + 1] := bits[j + 1] + 2;
    ghost var b3 := bits[..];
    bits[j] := bits[j] - 1;
    assert b1 == b0[i := b0[i] - 2];
    assert b2 == b1[i - 1 := b1[i - 1] + 1];
    assert b3 == b2[j + 1 := b2[j + 1] + 2];
    assert bits[..] == b3[j := b3[j] - 1];
  }

  lemma CountStepDown(bits: seq<byte>, j: nat)
    requires j < |bits| && bits[j] == 0
    ensures CountTo(bits, j) == if j == 0 then 0 else CountTo(bits, j - 1)
  {
  }

  /** No class that grows can overflow: the classes together hold at most 255 symbols. */
  lemma ShortClasses(bits: seq<byte>, i: nat, j: nat, n: nat)
    requires Balanced(bits, i, n) && i > 16 && n <= 255 && j <= i - 2 && bits[j] > 0 && bits[i] >= 2
    ensures j >= 1 && bits[i - 1] <= 253 && bits[j + 1] <= 253
    ensures j + 1 == i - 1 ==> bits[j + 1] <= 252
  {
    hide CountTo, EndCode, Pow2;
    CountUpdate(bits, j, 0, MAX_CLEN);
    ClassesWithin(bits[j := 0], i - 1, i, MAX_CLEN);
    if j + 1 < i - 1 {
      ClassesWithin(bits[j := 0], j + 1, i, MAX_CLEN);
    }
  }

  /** Limits the code lengths to 16, then takes the pseudo-symbol out of the longest class. */
  method LimitLengths(bits: array<byte>, ghost n: nat)
    requires bits.Length == MAX_CLEN + 1 && Balanced(bits[..], MAX_CLEN, n) && 2 <= n <= 255
    modifies bits
    ensures CountTo(bits[..], MAX_LENGTH) == n - 1
    ensures EndCode(bits[..], MAX_LENGTH) < Pow2(MAX_LENGTH)
    ensures bits[..] == WithoutPseudo(Adjusted(old(bits[..]), MAX_CLEN, n), n)
  {
    hide CountTo, EndCode, Pow2, SplitOnce;
    ghost var limited := Adjusted(bits[..], MAX_CLEN, n);
    var i: nat := MAX_CLEN;
    while i > 16
      invariant 16 <= i <= MAX_CLEN && Balanced(bits[..], i, n) && Adjusted(bits[..], i, n) == limited
    {
      while bits[i] > 0
        invariant Balanced(bits[..], i, n) && Adjusted(bits[..], i, n) == limited
        decreases bits[i]
      {
        SplitClass(bits, i, n);
      }
      LongestPaired(bits[..], i, n);
      i := i - 1;
    }
    ghost var b := bits[..];
    AllWithin(b, n);
    while bits[i] == 0
      invariant i <= 16 && bits[..] == b && CountTo(b, i) == n && LongestUpTo(b, i) == LongestUpTo(b, 16)
      decreases i
    {
      CountStepDown(b, i);
      i := i - 1;
    }
    CountUpdate(b, i, b[i] - 1, MAX_LENGTH);
    TakeOne(b, i);
    bits[i] := bits[i] - 1;
    assert bits[..] == b[i := b[i] - 1];
  }

  lemma AllWithin(bits: seq<byte>, n: nat)
    requires Balanced(bits, 16, n)
    ensures CountTo(bits, 16) == n
  {
    NoneBeyond(bits, 16, MAX_CLEN);
  }

  lemma {:induction false} NoneBeyond(bits: seq<byte>, k: nat, l: nat)
    requires k <= l < |bits| && forall i :: k < i <= l ==> bits[i] == 0
    ensures CountTo(bits, l) == CountTo(bits, k)
    decreases l
  {
    if k < l {
      NoneBeyond(bits, k, l - 1);
    }
  }

  lemma TakeOne(bits: seq<byte>, i: nat)
    requires |bits| == MAX_CLEN + 1 && 1 <= i <= 16 && bits[i] > 0 && EndCode(bits, 16) == Pow2(16)
    ensures EndCode(bits[i := bits[i] - 1], 16) < Pow2(16)
  {
    hide FirstCode, Pow2;
    EndUpdate(bits, i, bits[i] - 1, 16);
    AddedProduct(bits[i] - 1, 1, Pow2(16 - i));
  }
}
