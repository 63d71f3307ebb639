/**
 * Huffman tables (T.81, Annex C): the canonical code a table describes, and what makes a table acceptable.
 * A table lists how many symbols have each code length and the symbols in order of increasing length.
 */
module HuffTables {
  import opened Integers
  import opened Words
  import opened BitStrings

  const MAX_LENGTH := 16

  /** bits[l] symbols have codes of length l (bits[0] is unused); huffval lists the symbols. */
  datatype Table = Table(bits: seq<byte>, huffval: seq<byte>)

  predicate IsTable(t: Table) {
    |t.bits| == MAX_LENGTH + 1 && |t.huffval| == 256
  }

  /** Symbols with codes of length at most l. */
  function CountTo(bits: seq<byte>, l: nat): (n: nat)
    requires l < |bits|
  {
    if l == 0 then 0 else CountTo(bits, l - 1) + bits[l]
  }

  /** The first code of length l in the canonical assignment. */
  function FirstCode(bits: seq<byte>, l: nat): (c: nat)
    requires 1 <= l <= |bits|
  {
    if l == 1 then 0 else 2 * (FirstCode(bits, l - 1) + bits[l - 1])
  }

  /** One more than the last code of length l. */
  function EndCode(bits: seq<byte>, l: nat): (c: nat)
    requires 1 <= l < |bits|
    ensures c >= FirstCode(bits, l)
  {
    FirstCode(bits, l) + bits[l]
  }

  /** The code space is not used up, so that no code consists of ones only. */
  predicate Spare(bits: seq<byte>, l: nat)
    requires 1 <= l < |bits|
  {
    EndCode(bits, l) < Pow2(l)
  }

  /** At most 256 symbols, and codes left over at every length. */
  predicate Legal(bits: seq<byte>)
    requires |bits| == MAX_LENGTH + 1
  {
    CountTo(bits, MAX_LENGTH) <= 256 && forall l :: 1 <= l <= MAX_LENGTH ==> Spare(bits, l)
  }

  /** Number of symbols that have a code. */
  function Symbols(t: Table): nat
    requires IsTable(t)
  {
    CountTo(t.bits, MAX_LENGTH)
  }

  /** The code length of the p-th symbol, searching from length l on. */
  function LengthFrom(bits: seq<byte>, p: nat, l: nat): (r: nat)
    requires |bits| == MAX_LENGTH + 1 && 1 <= l <= MAX_LENGTH
    requires CountTo(bits, l - 1) <= p < CountTo(bits, MAX_LENGTH)
    ensures l <= r <= MAX_LENGTH
    ensures CountTo(bits, r - 1) <= p < CountTo(bits, r)
    decreases MAX_LENGTH - l
  {
    if p < CountTo(bits, l) then l else LengthFrom(bits, p, l + 1)
  }

  function Length(bits: seq<byte>, p: nat): (l: nat)
    requires |bits| == MAX_LENGTH + 1 && p < CountTo(bits, MAX_LENGTH)
    ensures 1 <= l <= MAX_LENGTH && CountTo(bits, l - 1) <= p < CountTo(bits, l)
  {
    LengthFrom(bits, p, 1)
  }

  function Code(bits: seq<byte>, p: nat): (c: nat)
    requires |bits| == MAX_LENGTH + 1 && p < CountTo(bits, MAX_LENGTH)
  {
    var l := Length(bits, p);
    FirstCode(bits, l) + (p - CountTo(bits, l - 1))
  }

  /** The code word of the p-th symbol. */
  function CodeWord(bits: seq<byte>, p: nat): (w: seq<bit>)
    requires |bits| == MAX_LENGTH + 1 && p < CountTo(bits, MAX_LENGTH)
    ensures |w| == Length(bits, p)
  {
    ToBits(Code(bits, p), Length(bits, p))
  }

  lemma {:induction false} CountMonotone(bits: seq<byte>, k: nat, l: nat)
    requires k <= l < |bits|
    ensures CountTo(bits, k) <= CountTo(bits, l)
    decreases l
  {
    if k < l {
      CountMonotone(bits, k, l - 1);
    }
  }

  lemma LengthUnique(bits: seq<byte>, p: nat, l: nat)
    requires |bits| == MAX_LENGTH + 1 && 1 <= l <= MAX_LENGTH && CountTo(bits, l - 1) <= p < CountTo(bits, l)
    ensures p < CountTo(bits, MAX_LENGTH) && Length(bits, p) == l
  {
    CountMonotone(bits, l, MAX_LENGTH);
    var r := Length(bits, p);
    if r < l {
      CountMonotone(bits, r, l - 1);
    } else if l < r {
      CountMonotone(bits, l, r - 1);
    }
  }

  /** First codes of longer lengths lie past the extensions of all shorter codes. */
  lemma {:induction false} FirstCodeGrows(bits: seq<byte>, k: nat, l: nat)
    requires 1 <= k < l <= |bits|
    ensures FirstCode(bits, l) >= EndCode(bits, k) * Pow2(l - k)
    decreases l
  {
    if l == k + 1 {
      assert Pow2(1) == 2 * Pow2(0);
    } else {
      FirstCodeGrows(bits, k, l - 1);
      DoubledProduct(EndCode(bits, k), Pow2(l - 1 - k));
    }
  }

  /** Once the code space is used up it stays so at greater lengths: the check at the last length decides. */
  lemma {:induction false} SpareBefore(bits: seq<byte>, k: nat, l: nat)
    requires 1 <= k <= l < |bits| && Spare(bits, l)
    ensures Spare(bits, k)
    decreases l
  {
    if k < l {
      assert Spare(bits, l - 1);
      SpareBefore(bits, k, l - 1);
    }
  }

  /** Every code fits its length and is not all ones. */
  lemma CodeBound(bits: seq<byte>, p: nat)
    requires |bits| == MAX_LENGTH + 1 && Legal(bits) && p < CountTo(bits, MAX_LENGTH)
    ensures Code(bits, p) + 1 < Pow2(Length(bits, p))
  {
    assert Spare(bits, Length(bits, p));
  }

  /** A number of l bits whose leading k bits are v. */
  lemma LeadingBits(s: seq<bit>, k: nat)
    requires k <= |s|
    ensures Number(s[..k]) * Pow2(|s| - k) <= Number(s) < (Number(s[..k]) + 1) * Pow2(|s| - k)
  {
    hide Number, Pow2;
    var front, back := s[..k], s[k..];
    assert s == front + back;
    NumberConcat(front, back);
    assert Number(back) < Pow2(|s| - k);
    ScaleSuccessor(Number(front), Pow2(|s| - k));
  }

  lemma CodeWordNumber(bits: seq<byte>, p: nat)
    requires |bits| == MAX_LENGTH + 1 && Legal(bits) && p < CountTo(bits, MAX_LENGTH)
    ensures Number(CodeWord(bits, p)) == Code(bits, p)
  {
    CodeBound(bits, p);
    NumberToBits(Code(bits, p), Length(bits, p));
  }

  /** Lengths without symbols only double the codes. */
  lemma {:induction false} FirstCodeAfterGap(bits: seq<byte>, k: nat, l: nat)
    requires 1 <= k < l <= |bits| && CountTo(bits, l - 1) == CountTo(bits, k)
    ensures FirstCode(bits, l) == EndCode(bits, k) * Pow2(l - k)
    decreases l
  {
    if l == k + 1 {
      Pow2Step(0);
    } else {
      CountMonotone(bits, k, l - 2);
      FirstCodeAfterGap(bits, k, l - 1);
      Pow2Step(l - 1 - k);
      DoubledProduct(EndCode(bits, k), Pow2(l - 1 - k));
    }
  }

  lemma {:induction false} FirstCodeAtStart(bits: seq<byte>, l: nat)
    requires 1 <= l <= |bits| && CountTo(bits, l - 1) == 0
    ensures FirstCode(bits, l) == 0
    decreases l
  {
    if l > 1 {
      FirstCodeAtStart(bits, l - 1);
    }
  }

  /**
   * Figure C.2 of T.81: the first code is zero, and each further one is the next number, with as many zeros appended
   * as its length is greater.
   */
  lemma CodesCount(bits: seq<byte>, p: nat)
    requires |bits| == MAX_LENGTH + 1 && p < CountTo(bits, MAX_LENGTH)
    ensures p == 0 ==> Code(bits, p) == 0
    ensures p > 0 ==> Length(bits, p - 1) <= Length(bits, p)
                      && Code(bits, p) == (Code(bits, p - 1) + 1) * Pow2(Length(bits, p) - Length(bits, p - 1))
  {
    hide FirstCode, Pow2;
    var l := Length(bits, p);
    if p == 0 {
      FirstCodeAtStart(bits, l);
    } else {
      var k := Length(bits, p - 1);
      if l < k {
        CountMonotone(bits, l, k - 1);
      } else if k < l {
        CountMonotone(bits, k, l - 1);
        FirstCodeAfterGap(bits, k, l);
      } else {
        Pow2Step(0);
      }
    }
  }

  /** The code of an accepted table is prefix-free, also against itself, and no word consists of ones only. */
  lemma PrefixFree(bits: seq<byte>, p: nat, q: nat)
    requires |bits| == MAX_LENGTH + 1 && Legal(bits)
    requires p < CountTo(bits, MAX_LENGTH) && q < CountTo(bits, MAX_LENGTH) && p != q
    ensures !(CodeWord(bits, p) <= CodeWord(bits, q))
  {
    hide Number, Pow2, FirstCode, CountTo, Legal, Code, CodeWord, Length;
    var w, u := CodeWord(bits, p), CodeWord(bits, q);
    if w <= u {
      CodeWordNumber(bits, p);
      CodeWordNumber(bits, q);
      LeadingBits(u, |w|);
      assert u[..|w|] == w;
      if |w| < |u| {
        CodesApart(bits, p, q);
      } else {
        assert w == u;
        SameLength(bits, p, q);
      }
    }
  }

  lemma SameLength(bits: seq<byte>, p: nat, q: nat)
    requires |bits| == MAX_LENGTH + 1 && p < CountTo(bits, MAX_LENGTH) && q < CountTo(bits, MAX_LENGTH)
    requires p != q && Length(bits, p) == Length(bits, q)
    ensures Code(bits, p) != Code(bits, q)
  {
  }

  /** A longer code lies past every extension of a shorter one. */
  lemma CodesApart(bits: seq<byte>, p: nat, q: nat)
    requires |bits| == MAX_LENGTH + 1 && p < CountTo(bits, MAX_LENGTH) && q < CountTo(bits, MAX_LENGTH)
    requires Length(bits, p) < Length(bits, q)
    ensures Code(bits, q) >= (Code(bits, p) + 1) * Pow2(Length(bits, q) - Length(bits, p))
  {
    hide Pow2, FirstCode, LengthFrom;
    var k, l := Length(bits, p), Length(bits, q);
    assert Code(bits, p) + 1 <= EndCode(bits, k);
    FirstCodeGrows(bits, k, l);
    ScaleMonotone(Code(bits, p) + 1, EndCode(bits, k), Pow2(l - k));
  }
}
