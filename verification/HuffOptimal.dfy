/** The table for given symbol counts: optimal code lengths, limited to 16, for the symbols sorted by count. */
module HuffOptimal {
  import opened Words
  import opened HuffTables
  import opened HuffDerived
  import opened CodeLengths
  import opened HuffMerging
  import opened HuffSorting
  import opened HuffLimiting

  /** Symbols with nonzero counts and symbols with nonzero code lengths are the same ones. */
  lemma {:induction false} UsedAlike(s: seq<nat>, t: seq<nat>, n: nat)
    requires n <= |s| && n <= |t| && forall i :: 0 <= i < n ==> (s[i] > 0 <==> t[i] > 0)
    ensures Used(s, n) == Used(t, n)
  {
    if n > 0 {
      UsedAlike(s, t, n - 1);
    }
  }

  lemma {:induction false} PresentCount(freq: seq<nat>, n: nat)
    requires n <= |freq|
    ensures |Present(freq, n)| == Used(freq, n)
  {
    if n > 0 {
      PresentCount(freq, n - 1);
    }
  }

  /** Completeness does not depend on the unit of length. */
  lemma {:induction false} CompleteUp(freq: seq<nat>, len: seq<nat>, m: nat, k: nat)
    requires Within(freq, len, m)
    ensures Complete(freq, len, m) <==> Complete(freq, len, m + k)
  {
    hide Sum, Shares, Pow2;
    if k > 0 {
      CompleteUp(freq, len, m, k - 1);
      SharesDouble(freq, len, m + k - 1);
      Pow2Step(m + k - 1);
    }
  }

  lemma CompleteAt(freq: seq<nat>, len: seq<nat>, m: nat, m1: nat)
    requires Complete(freq, len, m) && Within(freq, len, m1)
    ensures Complete(freq, len, m1)
  {
    hide Sum, Shares, Pow2;
    if m <= m1 {
      CompleteUp(freq, len, m, m1 - m);
    } else {
      CompleteUp(freq, len, m1, m - m1);
    }
  }

  /** The shares of the symbols add up to the code space they take. */
  lemma {:induction false} SharesAreSpace(freq: seq<nat>, len: seq<nat>, n: nat)
    requires n <= |freq| == |len| && Within(freq, len, MAX_CLEN)
    requires forall i :: 0 <= i < |freq| ==> (freq[i] > 0 <==> len[i] > 0)
    ensures Sum(Shares(freq, len, MAX_CLEN)[..n]) == CodeSpace(len, n)
  {
    if n > 0 {
      SharesAreSpace(freq, len, n - 1);
      var s: seq<nat> := Shares(freq, len, MAX_CLEN);
      assert s[..n][..n - 1] == s[..n - 1];
    }
  }

  /** Counted by length, optimal lengths of at most 32 use up the code space exactly. */
  lemma OptimalIsBalanced(freq: seq<nat>, len: seq<nat>, bits: seq<byte>, a: nat)
    requires |freq| == |len| == SYMBOLS && Optimal(freq, len) && a < 256 && freq[a] > 0 && freq[256] > 0
    requires forall i :: 0 <= i < SYMBOLS && freq[i] == 0 ==> len[i] == 0
    requires forall i :: 0 <= i < SYMBOLS ==> len[i] <= MAX_CLEN
    requires |bits| == MAX_CLEN + 1 && bits[0] == 0 && CountTo(bits, MAX_CLEN) == Used(len, SYMBOLS)
    requires EndCode(bits, MAX_CLEN) == CodeSpace(len, SYMBOLS)
    ensures Balanced(bits, MAX_CLEN, Used(freq, SYMBOLS))
  {
    hide Sum, Shares, Pow2, CountTo, EndCode, CodeSpace, Used, Cheapest;
    LengthsPositive(freq, len, a);
    UsedAlike(freq, len, SYMBOLS);
    var m: nat :| Complete(freq, len, m);
    CompleteAt(freq, len, m, MAX_CLEN);
    SharesAreSpace(freq, len, SYMBOLS);
    assert Shares(freq, len, MAX_CLEN)[..SYMBOLS] == Shares(freq, len, MAX_CLEN);
  }

  lemma LengthsPositive(freq: seq<nat>, len: seq<nat>, a: nat)
    requires |freq| == |len| == SYMBOLS && Optimal(freq, len) && a < 256 && freq[a] > 0 && freq[256] > 0
    requires forall i :: 0 <= i < SYMBOLS && freq[i] == 0 ==> len[i] == 0
    ensures forall i :: 0 <= i < SYMBOLS ==> (freq[i] > 0 <==> len[i] > 0)
  {
    hide Complete, Cheapest;
    var m: nat :| Complete(freq, len, m);
    forall i | 0 <= i < SYMBOLS && freq[i] > 0
      ensures len[i] > 0
    {
      NoEmptyCode(freq, len, m, i, if i == a then 256 else a);
    }
  }

  lemma {:induction false} CountOfPrefix(bits: seq<byte>, l: nat)
    requires |bits| == MAX_CLEN + 1 && l <= MAX_LENGTH
    ensures CountTo(bits[..17], l) == CountTo(bits, l)
    ensures l >= 1 ==> EndCode(bits[..17], l) == EndCode(bits, l)
  {
    if l > 0 {
      CountOfPrefix(bits, l - 1);
    }
  }

  /** The counts as the search uses them: the pseudo-symbol counts once. */
  function WithPseudo(freq: seq<nat>): (f: seq<nat>)
    requires |freq| == SYMBOLS
    ensures |f| == SYMBOLS
  {
    freq[256 := 1]
  }

  /** At least one real symbol, at most 254, and counts that the search for the lightest can see. */
  predicate Admissible(freq: seq<nat>) {
    |freq| == SYMBOLS && 1 <= Used(freq, 256) <= 254 && Searchable(WithPseudo(freq))
  }

  /**
   * The table gives codes to exactly the counted symbols, listed by descending count; its lengths are Huffman's,
   * limited to 16.
   */
  ghost predicate Serves(t: Table, freq: seq<nat>) {
    && IsTable(t) && |freq| == SYMBOLS && Legal(t.bits) && Symbols(t) == Used(freq, 256)
    && Limited(t.bits, HuffmanLengths(freq), Used(freq, SYMBOLS))
    && exists vals: seq<nat> :: Ranking(freq, vals) && Lists(t, vals)
  }

  predicate Lists(t: Table, vals: seq<nat>) {
    IsTable(t) && |vals| == Symbols(t) <= 256 && forall k :: 0 <= k < |vals| ==> t.huffval[k] == vals[k]
  }

  lemma {:induction false} UsedPrefix(s: seq<nat>, t: seq<nat>, n: nat)
    requires n <= |s| == |t| && s[..n] == t[..n]
    ensures Used(s, n) == Used(t, n)
  {
    forall i | 0 <= i < n
      ensures s[i] == t[i]
    {
      assert s[i] == s[..n][i] == t[..n][i];
    }
    UsedAlike(s, t, n);
  }

  lemma {:induction false} SomeUsed(s: seq<nat>, n: nat) returns (a: nat)
    requires n <= |s| && Used(s, n) > 0
    ensures a < n && s[a] > 0
  {
    if s[n - 1] > 0 {
      a := n - 1;
    } else {
      a := SomeUsed(s, n - 1);
    }
  }

  /** No symbol, nor the pseudo-symbol, gets an optimal code of more than 32 bits. */
  predicate Limitable(freq: seq<nat>)
    requires |freq| == SYMBOLS
  {
    forall s :: 0 <= s < SYMBOLS ==> HuffmanLengths(WithPseudo(freq))[s] <= MAX_CLEN
  }

  /**
   * Generates the best table for the counts, starting from Huffman's code lengths for the symbols and the
   * pseudo-symbol; these are optimal, and the table exists unless one of them exceeds 32.
   */
  method GenOptimalTable(htbl: Table, freq: array<nat>) returns (ok: bool, t: Table)
    requires IsTable(htbl) && freq.Length == SYMBOLS && Admissible(freq[..])
    modifies freq
    ensures Optimal(old(WithPseudo(freq[..])), HuffmanLengths(old(WithPseudo(freq[..]))))
    ensures ok <==> Limitable(old(freq[..]))
    ensures ok ==> Serves(t, old(WithPseudo(freq[..])))
  {
    hide Sum, Used, Optimal, Ranking, Legal, CountTo, EndCode, CodeSpace, Present, Balanced, Pow2, HuffmanLengths,
      Limited, Classes, Adjusted, WithoutPseudo, Searchable;
    ghost var f := WithPseudo(freq[..]);
    UsedPrefix(freq[..], f, 256);
    freq[256] := 1;
    assert freq[..] == f;
    var huffval := new byte[256](i requires 0 <= i < 256 => htbl.huffval[i]);
    ghost var vals := SortSymbols(freq, huffval);
    PresentCount(f, 256);
    var codesize := AssignLengths(freq);
    ghost var len := codesize[..];
    ghost var a := SomeUsed(f, 256);
    LengthsPositive(f, len, a);
    UsedAlike(f, len, SYMBOLS);
    UsedStep(f);
    var bits;
    ok, bits := CountLengths(codesize);
    t := htbl;
    if ok {
      OptimalIsBalanced(f, len, bits[..], a);
      ghost var counts := bits[..];
      LimitLengths(bits, Used(f, SYMBOLS));
      t := Table(bits[..17], huffval[..]);
      LimitedTable(counts, bits[..], len, Used(f, SYMBOLS));
      TableServes(bits[..], t, f, vals);
    }
  }

  lemma LimitedTable(counts: seq<byte>, bits: seq<byte>, len: seq<nat>, n: nat)
    requires Classes(counts, len) && Balanced(counts, MAX_CLEN, n) && 0 < n <= 255
    requires bits == WithoutPseudo(Adjusted(counts, MAX_CLEN, n), n)
    ensures Limited(bits[..MAX_LENGTH + 1], len, n)
  {
  }

  lemma UsedStep(freq: seq<nat>)
    requires |freq| == SYMBOLS && freq[256] == 1
    ensures Used(freq, SYMBOLS) == Used(freq, 256) + 1
  {
  }

  lemma TableServes(bits: seq<byte>, t: Table, freq: seq<nat>, vals: seq<nat>)
    requires |bits| == MAX_CLEN + 1 && IsTable(t) && t.bits == bits[..17] && |freq| == SYMBOLS
    requires CountTo(bits, MAX_LENGTH) == Used(freq, 256) == |vals| <= 256
    requires EndCode(bits, MAX_LENGTH) < Pow2(MAX_LENGTH)
    requires Ranking(freq, vals) && forall k :: 0 <= k < |vals| ==> t.huffval[k] == vals[k]
    requires Limited(t.bits, HuffmanLengths(freq), Used(freq, SYMBOLS))
    ensures Serves(t, freq)
  {
    hide Limited, HuffmanLengths, Used, Ranking, FirstCode, CountTo, Pow2;
    CountOfPrefix(bits, MAX_LENGTH);
    forall l | 1 <= l <= MAX_LENGTH
      ensures Spare(t.bits, l)
    {
      SpareBefore(t.bits, l, MAX_LENGTH);
    }
    assert Lists(t, vals);
  }

  // ---------------------------------------------------------------------------------------------
  // What the tables are good for
  // ---------------------------------------------------------------------------------------------

  /** A generated table is accepted by both table builders: for DC, if no symbol above 15 was counted. */
  lemma ServingTableAccepted(t: Table, freq: seq<nat>, isDC: bool)
    requires Serves(t, freq) && (isDC ==> forall s :: 16 <= s < 256 ==> freq[s] == 0)
    ensures Legal(t.bits) && ProperSymbols(t, isDC, Symbols(t))
  {
    hide CountTo, Used, Legal, Limited, HuffmanLengths;
    var vals: seq<nat> :| Ranking(freq, vals) && Lists(t, vals);
    forall p | 0 <= p < Symbols(t)
      ensures t.huffval[p] <= MaxSymbol(isDC)
    {
      assert vals[p] in vals;
    }
    forall p, q | 0 <= p < q < Symbols(t)
      ensures t.huffval[p] != t.huffval[q]
    {
      assert Before(freq, vals[p], vals[q]);
    }
  }

  /** Every counted symbol has a code, and no other symbol has one. */
  lemma CountedIsCoded(t: Table, freq: seq<nat>, s: byte)
    requires Serves(t, freq)
    ensures freq[s] > 0 <==> exists p :: 0 <= p < Symbols(t) && t.huffval[p] == s
  {
    hide CountTo, Used, Legal, Ordered, Limited, HuffmanLengths;
    var vals: seq<nat> :| Ranking(freq, vals) && Lists(t, vals);
    if freq[s] > 0 {
      assert s in vals;
      var p :| 0 <= p < |vals| && vals[p] == s;
      assert t.huffval[p] == s;
    }
    forall p | 0 <= p < Symbols(t)
      ensures freq[t.huffval[p]] > 0
    {
      assert vals[p] in vals;
    }
  }

  /** The symbols are listed by descending count, the smaller one first among equals. */
  lemma ListedByCount(t: Table, freq: seq<nat>, p: nat, q: nat)
    requires Serves(t, freq) && p < q < Symbols(t) <= 256
    ensures var a, b := t.huffval[p], t.huffval[q]; freq[a] > freq[b] || (freq[a] == freq[b] && a < b)
  {
    hide CountTo, Used, Legal, Limited, HuffmanLengths;
    var vals: seq<nat> :| Ranking(freq, vals) && Lists(t, vals);
    assert Before(freq, vals[p], vals[q]);
  }

  /** A more frequent symbol never has the longer code. */
  lemma FrequentNotLonger(t: Table, freq: seq<nat>, p: nat, q: nat)
    requires Serves(t, freq) && p < Symbols(t) <= 256 && q < Symbols(t)
    requires freq[t.huffval[p]] > freq[t.huffval[q]]
    ensures Length(t.bits, p) <= Length(t.bits, q)
  {
    hide CountTo, Used, Legal, Length, Limited, HuffmanLengths;
    var vals: seq<nat> :| Ranking(freq, vals) && Lists(t, vals);
    assert q < p ==> Before(freq, vals[q], vals[p]);
    if p <= q {
      LengthMonotone(t.bits, p, q);
    }
  }
}
