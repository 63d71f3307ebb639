/** Bit strings, most significant bit first, as numbers and as stretches of a byte string. */
module BitStrings {
  import opened Integers
  import opened Words

  function Number(s: seq<bit>): (v: nat)
    ensures v < Pow2(|s|)
  {
    if s == [] then 0 else 2 * Number(s[..|s| - 1]) + s[|s| - 1]
  }

  /** The n low bits of v. */
  function ToBits(v: nat, n: nat): (s: seq<bit>)
    ensures |s| == n
  {
    if n == 0 then [] else ToBits(v / 2, n - 1) + [v % 2]
  }

  lemma NumberAppend(s: seq<bit>, b: bit)
    ensures Number(s + [b]) == 2 * Number(s) + b
  {
    assert (s + [b])[..|s|] == s;
  }

  lemma {:induction false} NumberToBits(v: nat, n: nat)
    requires v < Pow2(n)
    ensures Number(ToBits(v, n)) == v
  {
    hide Number;
    if n == 0 {
      NumberEmpty();
    } else {
      NumberToBits(v / 2, n - 1);
      NumberAppend(ToBits(v / 2, n - 1), v % 2);
    }
  }

  lemma NumberEmpty()
    ensures Number([]) == 0
  {
  }

  lemma {:induction false} ToBitsNumber(s: seq<bit>)
    ensures ToBits(Number(s), |s|) == s
  {
    if s != [] {
      ToBitsNumber(s[..|s| - 1]);
    }
  }

  lemma {:induction false} NumberConcat(s: seq<bit>, t: seq<bit>)
    ensures Number(s + t) == Number(s) * Pow2(|t|) + Number(t)
  {
    if t == [] {
      assert s + t == s;
    } else {
      var front, last := t[..|t| - 1], t[|t| - 1];
      assert s + t == (s + front) + [last];
      assert t == front + [last];
      NumberAppend(front, last);
      NumberAppend(s + front, last);
      NumberConcat(s, front);
      hide Number;
      DoubledProduct(Number(s), Pow2(|front|));
    }
  }

  /** Bit i of a byte string followed by zeros for ever. */
  function BitAt(data: seq<byte>, i: nat): bit
  {
    if i / 8 < |data| then ToBits(data[i / 8], 8)[i % 8] else 0
  }

  function BitsAt(data: seq<byte>, pos: nat, n: nat): (s: seq<bit>)
    ensures |s| == n && forall i :: 0 <= i < n ==> s[i] == BitAt(data, pos + i)
  {
    seq<bit>(n, i requires 0 <= i < n => BitAt(data, pos + i))
  }

  lemma BitsAtSplit(data: seq<byte>, pos: nat, m: nat, n: nat)
    ensures BitsAt(data, pos, m + n) == BitsAt(data, pos, m) + BitsAt(data, pos + m, n)
  {
  }

  /** The bits of a whole byte. */
  lemma BitsAtByte(data: seq<byte>, k: nat)
    ensures BitsAt(data, 8 * k, 8) == ToBits(if k < |data| then data[k] else 0, 8)
  {
    forall i | 0 <= i < 8
      ensures BitsAt(data, 8 * k, 8)[i] == ToBits(if k < |data| then data[k] else 0, 8)[i]
    {
      assert (8 * k + i) / 8 == k && (8 * k + i) % 8 == i;
      ZeroBits(8);
    }
  }

  lemma {:induction false} ZeroBits(n: nat)
    ensures forall i :: 0 <= i < n ==> ToBits(0, n)[i] == 0
  {
    if n > 0 {
      ZeroBits(n - 1);
    }
  }

  /** The bit string s stands in data at bit position pos. */
  ghost predicate Carries(data: seq<byte>, pos: nat, s: seq<bit>) {
    BitsAt(data, pos, |s|) == s
  }

  lemma CarriesConcat(data: seq<byte>, pos: nat, s: seq<bit>, t: seq<bit>)
    ensures Carries(data, pos, s + t) <==> Carries(data, pos, s) && Carries(data, pos + |s|, t)
  {
    BitsAtSplit(data, pos, |s|, |t|);
    var u := BitsAt(data, pos, |s + t|);
    assert u[..|s|] == BitsAt(data, pos, |s|) && u[|s|..] == BitsAt(data, pos + |s|, |t|);
    assert (s + t)[..|s|] == s && (s + t)[|s|..] == t;
  }
}
