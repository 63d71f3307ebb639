/**
 * How good a generated table is: when no code had to be limited, no prefix code for the counted symbols and the word
 * that is left unused takes fewer bits.
 */
module HuffBest {
  import opened Words
  import opened HuffTables
  import opened CodeLengths
  import opened HuffMerging
  import opened HuffSorting
  import opened HuffLimiting
  import opened HuffOptimal
  import opened HuffDerived

  // ---------------------------------------------------------------------------------------------
  // Rearrangement
  // ---------------------------------------------------------------------------------------------

  predicate Falling(f: seq<nat>) {
    forall i, j :: 0 <= i < j < |f| ==> f[i] >= f[j]
  }

  predicate Rising(g: seq<nat>) {
    forall i, j :: 0 <= i < j < |g| ==> g[i] <= g[j]
  }

  /** The same lengths, in some order. */
  ghost predicate SameLengths(g: seq<nat>, l: seq<nat>) {
    |g| == |l| && forall x :: ClassSize(g, |g|, x) == ClassSize(l, |l|, x)
  }

  lemma {:induction false} ClassUpdate(len: seq<nat>, n: nat, i: nat, v: nat, x: nat)
    requires i < |len| && n <= |len|
    ensures ClassSize(len[i := v], n, x) + (if i < n && len[i] == x then 1 else 0)
            == ClassSize(len, n, x) + (if i < n && v == x then 1 else 0)
  {
    if n > 0 {
      ClassUpdate(len, n - 1, i, v, x);
    }
  }

  lemma {:induction false} ClassOfPrefix(len: seq<nat>, k: nat, n: nat, x: nat)
    requires n <= k <= |len|
    ensures ClassSize(len[..k], n, x) == ClassSize(len, n, x)
  {
    if n > 0 {
      ClassOfPrefix(len, k, n - 1, x);
    }
  }

  lemma {:induction false} SomeOfClass(len: seq<nat>, n: nat, x: nat) returns (i: nat)
    requires n <= |len| && ClassSize(len, n, x) > 0
    ensures i < n && len[i] == x
  {
    if len[n - 1] == x {
      i := n - 1;
    } else {
      i := SomeOfClass(len, n - 1, x);
    }
  }

  lemma {:induction false} NoneOfClass(len: seq<nat>, n: nat, x: nat)
    requires n <= |len| && forall i :: 0 <= i < n ==> len[i] != x
    ensures ClassSize(len, n, x) == 0
  {
    if n > 0 {
      NoneOfClass(len, n - 1, x);
    }
  }

  lemma CostStep(f: seq<nat>, l: seq<nat>)
    requires |f| == |l| > 0
    ensures Cost(f, l) == Cost(f[..|f| - 1], l[..|l| - 1]) + f[|f| - 1] * l[|l| - 1]
  {
    assert Weighted(f, l)[..|f| - 1] == Weighted(f[..|f| - 1], l[..|l| - 1]);
  }

  /** Exchanging an entry with the last one. */
  lemma SwapSame(l: seq<nat>, i: nat, g: seq<nat>)
    requires SameLengths(g, l) && |l| > 0 && i < |l| && l[i] == g[|g| - 1]
    ensures SameLengths(g[..|g| - 1], l[i := l[|l| - 1]][..|l| - 1])
  {
    var n: nat := |l| - 1;
    forall x
      ensures ClassSize(g[..n], n, x) == ClassSize(l[i := l[n]][..n], n, x)
    {
      assert ClassSize(g, |g|, x) == ClassSize(l, |l|, x);
      ClassOfPrefix(g, n, n, x);
      ClassOfPrefix(l[i := l[n]], n, n, x);
      ClassUpdate(l, n, i, l[n], x);
    }
  }

  /** With falling weights, rising lengths are the cheapest arrangement. */
  lemma {:induction false} RisingIsCheapest(f: seq<nat>, g: seq<nat>, l: seq<nat>)
    requires |f| == |g| && Falling(f) && Rising(g) && SameLengths(g, l)
    ensures Cost(f, g) <= Cost(f, l)
    decreases |f|
  {
    hide Cost;
    if f != [] {
      var n: nat := |f| - 1;
      assert ClassSize(g, |g|, g[n]) == ClassSize(l, |l|, g[n]) && ClassSize(g, |g|, l[n]) == ClassSize(l, |l|, l[n]);
      var i := SomeOfClass(l, |l|, g[n]);
      var j := SomeOfClass(g, |g|, l[n]);
      var l1, l2 := l[i := l[n]], l[i := l[n]][n := g[n]];
      CostUpdate(f, l, i, l[n]);
      CostUpdate(f, l1, n, g[n]);
      Rearranged(f[n], f[i], l[n], g[n]);
      SwapSame(l, i, g);
      assert l2[..n] == l1[..n];
      RisingIsCheapest(f[..n], g[..n], l1[..n]);
      CostStep(f, g);
      CostStep(f, l2);
    } else {
      assert g == l;
    }
  }

  // ---------------------------------------------------------------------------------------------
  // Symbols in the order of a table
  // ---------------------------------------------------------------------------------------------

  function Picked(s: seq<nat>, v: seq<nat>): (p: seq<nat>)
    requires forall k :: 0 <= k < |v| ==> v[k] < |s|
    ensures |p| == |v|
  {
    seq(|v|, k requires 0 <= k < |v| => s[v[k]])
  }

  /** v names places of s, each at most once, and all those that are not zero. */
  predicate Covers(v: seq<nat>, s: seq<nat>) {
    && (forall k :: 0 <= k < |v| ==> v[k] < |s|)
    && (forall k, l :: 0 <= k < l < |v| ==> v[k] != v[l])
    && forall i :: 0 <= i < |s| && s[i] > 0 ==> i in v
  }

  /** One entry fewer. */
  lemma CoversLess(v: seq<nat>, s: seq<nat>)
    requires Covers(v, s) && v != []
    ensures var n := |v| - 1; Covers(v[..n], s[v[n] := 0]) && Picked(s[v[n] := 0], v[..n]) == Picked(s, v)[..n]
  {
    var n := |v| - 1;
    forall i | 0 <= i < |s| && s[v[n] := 0][i] > 0
      ensures i in v[..n]
    {
      var k :| 0 <= k < |v| && v[k] == i;
      assert v[..n][k] == i;
    }
  }

  lemma {:induction false} CostPicked(freq: seq<nat>, len: seq<nat>, v: seq<nat>)
    requires |freq| == |len| && Covers(v, freq)
    ensures Cost(freq, len) == Cost(Picked(freq, v), Picked(len, v))
    decreases |v|
  {
    hide Sum, Covers;
    if v == [] {
      NothingCovered(freq);
      SumOfZeros(Weighted(freq, len));
      SumOfZeros(Weighted([], []));
    } else {
      var n: nat := |v| - 1;
      CoversLess(v, freq);
      InRange(v, freq);
      var less := freq[v[n] := 0];
      CostPicked(less, len, v[..n]);
      var w: seq<nat> := Weighted(freq, len);
      SumUpdate(w, v[n], 0);
      assert w[v[n] := 0] == Weighted(less, len);
      assert Picked(len, v)[..n] == Picked(len, v[..n]);
      CostStep(Picked(freq, v), Picked(len, v));
    }
  }

  lemma NothingCovered(s: seq<nat>)
    requires Covers([], s)
    ensures forall i :: 0 <= i < |s| ==> s[i] == 0
  {
  }

  lemma InRange(v: seq<nat>, s: seq<nat>)
    requires Covers(v, s)
    ensures forall k :: 0 <= k < |v| ==> v[k] < |s|
  {
  }

  lemma {:induction false} ClassPicked(len: seq<nat>, v: seq<nat>, x: nat)
    requires Covers(v, len) && x > 0
    ensures ClassSize(Picked(len, v), |v|, x) == ClassSize(len, |len|, x)
    decreases |v|
  {
    hide Covers;
    InRange(v, len);
    if v == [] {
      NothingCovered(len);
      NoneOfClass(len, |len|, x);
    } else {
      var n: nat := |v| - 1;
      CoversLess(v, len);
      ClassPicked(len[v[n] := 0], v[..n], x);
      ClassUpdate(len, |len|, v[n], 0, x);
      ClassOfPrefix(Picked(len, v), n, n, x);
    }
  }

  // ---------------------------------------------------------------------------------------------
  // Lengths in the order of a table
  // ---------------------------------------------------------------------------------------------

  function SortedLengths(bits: seq<byte>): (g: seq<nat>)
    requires |bits| == MAX_LENGTH + 1
    ensures |g| == CountTo(bits, MAX_LENGTH)
  {
    seq(CountTo(bits, MAX_LENGTH), p requires 0 <= p < CountTo(bits, MAX_LENGTH) => Length(bits, p))
  }

  lemma LengthsRise(bits: seq<byte>)
    requires |bits| == MAX_LENGTH + 1
    ensures Rising(SortedLengths(bits))
  {
    hide CountTo, Length;
    forall i, j | 0 <= i < j < CountTo(bits, MAX_LENGTH)
      ensures Length(bits, i) <= Length(bits, j)
    {
      LengthMonotone(bits, i, j);
    }
  }

  /** The first k symbols of a table, by length. */
  lemma {:induction false} ClassOfSorted(bits: seq<byte>, k: nat, x: nat)
    requires |bits| == MAX_LENGTH + 1 && k <= CountTo(bits, MAX_LENGTH) && 1 <= x <= MAX_LENGTH
    ensures ClassSize(SortedLengths(bits), k, x)
            == if k < CountTo(bits, x - 1) then 0 else if k < CountTo(bits, x) then k - CountTo(bits, x - 1)
              else bits[x]
  {
    hide Length;
    if k > 0 {
      ClassOfSorted(bits, k - 1, x);
      if CountTo(bits, x - 1) <= k - 1 < CountTo(bits, x) {
        LengthUnique(bits, k - 1, x);
      }
    } else {
      CountMonotone(bits, 0, x - 1);
    }
  }

  lemma ClassesSorted(bits: seq<byte>, x: nat)
    requires |bits| == MAX_LENGTH + 1
    ensures var n := CountTo(bits, MAX_LENGTH);
            ClassSize(SortedLengths(bits), n, x) == if 1 <= x <= MAX_LENGTH then bits[x] else 0
  {
    var n := CountTo(bits, MAX_LENGTH);
    if 1 <= x <= MAX_LENGTH {
      ClassOfSorted(bits, n, x);
      CountMonotone(bits, x, MAX_LENGTH);
    } else {
      hide CountTo, Length;
      NoneOfClass(SortedLengths(bits), n, x);
    }
  }

  /** The other symbols keep their lengths when one is taken out of the longest class. */
  lemma LengthStays(bits: seq<byte>, less: seq<byte>, i: nat, p: nat)
    requires |bits| == MAX_LENGTH + 1 && 1 <= i <= MAX_LENGTH && bits[i] > 0 && less == bits[i := bits[i] - 1]
    requires CountTo(bits, i) == CountTo(bits, MAX_LENGTH) && p < CountTo(bits, MAX_LENGTH) - 1
    ensures p < CountTo(less, MAX_LENGTH) && Length(less, p) == Length(bits, p)
  {
    hide CountTo, Length;
    var l := Length(bits, p);
    CountUpdate(bits, i, bits[i] - 1, MAX_LENGTH);
    CountUpdate(bits, i, bits[i] - 1, l);
    CountUpdate(bits, i, bits[i] - 1, l - 1);
    if l > i {
      CountMonotone(bits, i, l - 1);
    } else {
      CountMonotone(bits, l, i);
    }
    LengthUnique(less, p, l);
  }

  lemma SortedPrefix(bits: seq<byte>, less: seq<byte>)
    requires |bits| == |less| == MAX_LENGTH + 1 && CountTo(less, MAX_LENGTH) <= CountTo(bits, MAX_LENGTH)
    requires forall p :: 0 <= p < CountTo(less, MAX_LENGTH) ==> Length(less, p) == Length(bits, p)
    ensures SortedLengths(less) == SortedLengths(bits)[..CountTo(less, MAX_LENGTH)]
  {
    hide CountTo, Length;
  }

  lemma SortedAt(bits: seq<byte>, p: nat)
    requires |bits| == MAX_LENGTH + 1 && p < CountTo(bits, MAX_LENGTH)
    ensures SortedLengths(bits)[p] == Length(bits, p)
  {
  }

  /** Taking one symbol out of the longest class takes away the last length. */
  lemma LastTakenAway(bits: seq<byte>, less: seq<byte>, i: nat)
    requires |bits| == MAX_LENGTH + 1 && 1 <= i <= MAX_LENGTH && bits[i] > 0 && less == bits[i := bits[i] - 1]
    requires forall l :: i < l <= MAX_LENGTH ==> bits[l] == 0
    ensures var n := CountTo(bits, MAX_LENGTH);
            n > 0 && SortedLengths(less) == SortedLengths(bits)[..n - 1] && SortedLengths(bits)[n - 1] == i
  {
    hide CountTo, Length, SortedLengths;
    var n := CountTo(bits, MAX_LENGTH);
    CountStep(bits, i);
    CountUpdate(bits, i, bits[i] - 1, MAX_LENGTH);
    NoneBeyond(bits, i, MAX_LENGTH);
    LengthUnique(bits, n - 1, i);
    forall p | 0 <= p < n - 1
      ensures p < CountTo(less, MAX_LENGTH) && Length(less, p) == Length(bits, p)
    {
      LengthStays(bits, less, i, p);
    }
    SortedPrefix(bits, less);
    SortedAt(bits, n - 1);
  }

  // ---------------------------------------------------------------------------------------------
  // Tables whose codes were short enough
  // ---------------------------------------------------------------------------------------------

  lemma {:induction false} NothingToAdjust(bits: seq<byte>, i: nat, n: nat)
    requires Balanced(bits, i, n) && i >= 16 && n <= 255 && forall l :: 16 < l <= MAX_CLEN ==> bits[l] == 0
    ensures Adjusted(bits, i, n) == bits && Balanced(bits, 16, n)
    decreases i
  {
    hide CountTo, EndCode, Pow2;
    if i > 16 {
      LongestPaired(bits, i, n);
      NothingToAdjust(bits, i - 1, n);
    }
  }

  /** Symbols that do not occur get no length. */
  lemma {:induction false} NoCountNoLength(freq: seq<nat>, s: nat)
    requires |freq| == SYMBOLS && s < SYMBOLS && freq[s] == 0
    ensures HuffmanLengths(freq)[s] == 0
    decreases |Roots(freq)|
  {
    hide LightestOf;
    var c1 := LightestOf(freq, -1, SYMBOLS);
    var c2 := LightestOf(freq, c1, SYMBOLS);
    if c1 >= 0 && c2 >= 0 {
      LengthsSplit(freq, c1, c2);
      FewerRoots(freq, c1, c2);
      NoCountNoLength(Merged(freq, c1, c2), s);
    }
  }

  /** The counts of the symbols in the order of the table. */
  function TableCounts(t: Table, freq: seq<nat>): (f: seq<nat>)
    requires IsTable(t) && |freq| == SYMBOLS && Symbols(t) <= 256
    ensures |f| == Symbols(t)
  {
    seq(Symbols(t), p requires 0 <= p < Symbols(t) => freq[t.huffval[p]])
  }

  /** All the bits that the counted symbols take. */
  function TableCost(t: Table, freq: seq<nat>): (n: nat)
    requires IsTable(t) && |freq| == SYMBOLS && Symbols(t) <= 256
  {
    Cost(TableCounts(t, freq), SortedLengths(t.bits))
  }

  /** No optimal code has more than 16 bits. */
  predicate ShortEnough(freq: seq<nat>)
    requires |freq| == SYMBOLS
  {
    forall s :: 0 <= s < SYMBOLS ==> HuffmanLengths(freq)[s] <= MAX_LENGTH
  }

  /** The lengths of the table before the pseudo-symbol was taken out; its own was the greatest. */
  lemma BeforeRemoval(t: Table, freq: seq<nat>) returns (g: seq<nat>)
    requires Serves(t, freq) && ShortEnough(freq)
    ensures |g| == Symbols(t) + 1 == Used(freq, SYMBOLS) && Rising(g)
    ensures SortedLengths(t.bits) == g[..Symbols(t)]
    ensures forall x :: ClassSize(g, |g|, x) == if x == 0 then 0 else ClassSize(HuffmanLengths(freq), SYMBOLS, x)
  {
    hide CountTo, EndCode, Pow2, HuffmanLengths, Legal, Length, Used;
    var len, n := HuffmanLengths(freq), Used(freq, SYMBOLS);
    var b: seq<byte> :| Classes(b, len) && Balanced(b, MAX_CLEN, n)
                        && t.bits == WithoutPseudo(Adjusted(b, MAX_CLEN, n), n)[..MAX_LENGTH + 1];
    forall l | 16 < l
      ensures ClassSize(len, SYMBOLS, l) == 0
    {
      NoneOfClass(len, SYMBOLS, l);
    }
    NothingToAdjust(b, MAX_CLEN, n);
    AllWithin(b, n);
    SomeLeft(b, n);
    var c := b[..MAX_LENGTH + 1];
    CountOfPrefix(b, MAX_LENGTH);
    g := SortedLengths(c);
    LastTakenAway(c, t.bits, LongestUpTo(b, 16));
    LengthsRise(c);
    forall x
      ensures ClassSize(g, |g|, x) == if x == 0 then 0 else ClassSize(len, SYMBOLS, x)
    {
      ClassesSorted(c, x);
    }
  }

  /**
   * A table whose lengths did not have to be limited, together with the longest word for the pseudo-symbol, takes no
   * more bits than any prefix code for the counted symbols and the pseudo-symbol.
   */
  lemma ShortTableIsBest(t: Table, freq: seq<nat>, words: seq<seq<bit>>)
    requires Serves(t, freq) && freq[256] == 1 && 0 < Symbols(t) <= 256 && ShortEnough(freq)
    requires IsPrefixCode(freq, words)
    ensures TableCost(t, freq) + Length(t.bits, Symbols(t) - 1) <= Cost(freq, Lengths(words))
  {
    hide CountTo, Limited, HuffmanLengths, Legal, Length, Sum, Used, Optimal, ClassSize, SortedLengths;
    var len := HuffmanLengths(freq);
    var vals: seq<nat> :| Ranking(freq, vals) && Lists(t, vals);
    var v := vals + [256];
    var g := BeforeRemoval(t, freq);
    Ranked(freq, vals);
    LengthsOptimal(freq, 256);
    PositiveAlike(freq, vals);
    var f, l := Picked(freq, v), Picked(len, v);
    SameOrder(freq, len, v, g);
    RisingIsCheapest(f, g, l);
    CostPicked(freq, len, v);
    CostStep(f, g);
    TableCostIs(t, freq, vals);
    assert f[..|vals|] == Picked(freq, vals);
    SortedAt(t.bits, Symbols(t) - 1);
    assert g[|vals| - 1] <= g[|vals|];
    BeatsEveryPrefixCode(freq, len, words);
  }

  /** The ranking and the pseudo-symbol cover all counts, and these fall. */
  lemma Ranked(freq: seq<nat>, vals: seq<nat>)
    requires Ranking(freq, vals) && freq[256] == 1
    ensures Covers(vals + [256], freq) && Falling(Picked(freq, vals + [256]))
  {
    var v := vals + [256];
    forall i, j | 0 <= i < j < |v|
      ensures v[i] != v[j] && freq[v[i]] >= freq[v[j]]
    {
      if j < |vals| {
        assert Before(freq, vals[i], vals[j]);
      } else {
        assert vals[i] in vals;
      }
    }
    forall i | 0 <= i < |freq| && freq[i] > 0
      ensures i in v
    {
      if i < 256 {
        assert i in vals;
      } else {
        assert v[|vals|] == i;
      }
    }
  }

  /** The symbols that have lengths are those that occur. */
  lemma PositiveAlike(freq: seq<nat>, vals: seq<nat>)
    requires |freq| == SYMBOLS && freq[256] == 1 && Ranking(freq, vals) && vals != []
    ensures forall i :: 0 <= i < SYMBOLS ==> (freq[i] > 0 <==> HuffmanLengths(freq)[i] > 0)
  {
    hide HuffmanLengths, Optimal, Ordered;
    forall i | 0 <= i < SYMBOLS && freq[i] == 0
      ensures HuffmanLengths(freq)[i] == 0
    {
      NoCountNoLength(freq, i);
    }
    LengthsOptimal(freq, 256);
    assert vals[0] in vals;
    LengthsPositive(freq, HuffmanLengths(freq), vals[0]);
  }

  lemma SameOrder(freq: seq<nat>, len: seq<nat>, v: seq<nat>, g: seq<nat>)
    requires |freq| == |len| == SYMBOLS && Covers(v, freq) && |g| == |v|
    requires forall i :: 0 <= i < SYMBOLS ==> (freq[i] > 0 <==> len[i] > 0)
    requires forall k :: 0 <= k < |v| ==> v[k] < SYMBOLS && freq[v[k]] > 0
    requires forall x :: ClassSize(g, |g|, x) == if x == 0 then 0 else ClassSize(len, SYMBOLS, x)
    ensures SameLengths(g, Picked(len, v))
  {
    assert Covers(v, len);
    hide Covers, ClassSize;
    forall x
      ensures ClassSize(g, |g|, x) == ClassSize(Picked(len, v), |v|, x)
    {
      if x == 0 {
        NoneOfClass(Picked(len, v), |v|, 0);
      } else {
        ClassPicked(len, v, x);
      }
    }
  }

  lemma TableCostIs(t: Table, freq: seq<nat>, vals: seq<nat>)
    requires IsTable(t) && |freq| == SYMBOLS && Symbols(t) <= 256 && Lists(t, vals)
    requires forall k :: 0 <= k < |vals| ==> vals[k] < |freq|
    ensures TableCost(t, freq) == Cost(Picked(freq, vals), SortedLengths(t.bits))
  {
    hide Cost, SortedLengths, CountTo;
    assert TableCounts(t, freq) == Picked(freq, vals);
  }
}
