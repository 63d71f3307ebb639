/**
 * Lengths of prefix codes for weighted symbols.  Lengths are possible for a prefix code exactly if they satisfy
 * Kraft's inequality; lengths of least total weight come from merging the two lightest symbols.
 */
module CodeLengths {
  import opened Words

  function Sum(s: seq<nat>): (n: nat)
  {
    if s == [] then 0 else Sum(s[..|s| - 1]) + s[|s| - 1]
  }

  lemma {:induction false} SumUpdate(s: seq<nat>, i: nat, v: nat)
    requires i < |s|
    ensures Sum(s[i := v]) + s[i] == Sum(s) + v
  {
    var t := s[i := v];
    if i < |s| - 1 {
      SumUpdate(s[..|s| - 1], i, v);
      assert t[..|s| - 1] == s[..|s| - 1][i := v];
    } else {
      assert t[..|s| - 1] == s[..|s| - 1];
    }
  }

  lemma {:induction false} SumScaled(s: seq<nat>, t: seq<nat>, k: nat)
    requires |s| == |t| && forall i :: 0 <= i < |s| ==> t[i] == k * s[i]
    ensures Sum(t) == k * Sum(s)
  {
    if s != [] {
      SumScaled(s[..|s| - 1], t[..|t| - 1], k);
    }
  }

  lemma {:induction false} SumEven(s: seq<nat>)
    requires forall i :: 0 <= i < |s| ==> s[i] % 2 == 0
    ensures Sum(s) % 2 == 0
  {
    if s != [] {
      SumEven(s[..|s| - 1]);
    }
  }

  /** Two different entries are part of the sum. */
  lemma SumOfTwo(s: seq<nat>, i: nat, j: nat)
    requires i < |s| && j < |s| && i != j
    ensures s[i] + s[j] <= Sum(s)
  {
    SumUpdate(s, i, 0);
    SumUpdate(s[i := 0], j, 0);
  }

  // ---------------------------------------------------------------------------------------------
  // Kraft sums and costs
  // ---------------------------------------------------------------------------------------------

  /** The share of the code space, in units of length m, that each symbol with a nonzero weight takes. */
  function Shares(freq: seq<nat>, len: seq<nat>, m: nat): (s: seq<nat>)
    requires |freq| == |len|
    ensures |s| == |freq|
  {
    seq(|freq|, i requires 0 <= i < |freq| => if freq[i] > 0 && len[i] <= m then Pow2(m - len[i]) else 0)
  }

  function Weighted(freq: seq<nat>, len: seq<nat>): (s: seq<nat>)
    requires |freq| == |len|
    ensures |s| == |freq|
  {
    seq(|freq|, i requires 0 <= i < |freq| => freq[i] * len[i])
  }

  /** Total number of bits that the symbols take. */
  function Cost(freq: seq<nat>, len: seq<nat>): (n: nat)
    requires |freq| == |len|
  {
    Sum(Weighted(freq, len))
  }

  predicate Within(freq: seq<nat>, len: seq<nat>, m: nat) {
    |freq| == |len| && forall i :: 0 <= i < |freq| && freq[i] > 0 ==> len[i] <= m
  }

  /** Kraft's inequality for the symbols with nonzero weights, none longer than m. */
  predicate Fits(freq: seq<nat>, len: seq<nat>, m: nat) {
    Within(freq, len, m) && Sum(Shares(freq, len, m)) <= Pow2(m)
  }

  /** Kraft's inequality holds with equality: the code is complete. */
  predicate Complete(freq: seq<nat>, len: seq<nat>, m: nat) {
    Within(freq, len, m) && Sum(Shares(freq, len, m)) == Pow2(m)
  }

  /** No code for these weights is cheaper. */
  ghost predicate Cheapest(freq: seq<nat>, len: seq<nat>) {
    |freq| == |len| && forall other: seq<nat>, m: nat :: Fits(freq, other, m) ==> Cost(freq, len) <= Cost(freq, other)
  }

  /** The lengths belong to a complete code and none is cheaper. */
  ghost predicate Optimal(freq: seq<nat>, len: seq<nat>) {
    Cheapest(freq, len) && exists m: nat :: Complete(freq, len, m)
  }

  lemma SharesDouble(freq: seq<nat>, len: seq<nat>, m: nat)
    requires Within(freq, len, m)
    ensures Within(freq, len, m + 1) && Sum(Shares(freq, len, m + 1)) == 2 * Sum(Shares(freq, len, m))
  {
    SumScaled(Shares(freq, len, m), Shares(freq, len, m + 1), 2);
  }

  /** With at least two symbols none has the empty code. */
  lemma NoEmptyCode(freq: seq<nat>, len: seq<nat>, m: nat, a: nat, b: nat)
    requires Complete(freq, len, m) && a < |freq| && b < |freq| && a != b && freq[a] > 0 && freq[b] > 0
    ensures len[a] > 0
  {
    hide Sum;
    var s: seq<nat> := Shares(freq, len, m);
    SumOfTwo(s, a, b);
    assert s[b] > 0;
  }

  /** Shorter for every symbol is cheaper. */
  lemma {:induction false} SumLess(s: seq<nat>, t: seq<nat>, x: nat)
    requires |s| == |t| && x < |s| && s[x] < t[x] && forall i :: 0 <= i < |s| ==> s[i] <= t[i]
    ensures Sum(s) < Sum(t)
    decreases |s|
  {
    var n := |s| - 1;
    if x < n {
      SumLess(s[..n], t[..n], x);
    } else {
      SumAtMost(s[..n], t[..n]);
    }
  }

  lemma {:induction false} SumAtMost(s: seq<nat>, t: seq<nat>)
    requires |s| == |t| && forall i :: 0 <= i < |s| ==> s[i] <= t[i]
    ensures Sum(s) <= Sum(t)
    decreases |s|
  {
    if s != [] {
      SumAtMost(s[..|s| - 1], t[..|t| - 1]);
    }
  }

  lemma ShorterIsCheaper(freq: seq<nat>, a: seq<nat>, b: seq<nat>, x: nat)
    requires |freq| == |a| == |b| && x < |freq| && freq[x] > 0
    requires forall i :: 0 <= i < |freq| && freq[i] > 0 ==> a[i] < b[i]
    ensures Cost(freq, a) < Cost(freq, b)
  {
    hide Sum;
    var s: seq<nat>, t: seq<nat> := Weighted(freq, a), Weighted(freq, b);
    forall i | 0 <= i < |freq|
      ensures s[i] <= t[i] && (i == x ==> s[i] < t[i])
    {
      ProductGrows(freq[i], a[i], b[i]);
    }
    SumLess(s, t, x);
  }

  lemma ProductGrows(f: nat, a: nat, b: nat)
    requires f > 0 ==> a < b
    ensures f * a <= f * b && (f > 0 ==> f * a < f * b)
  {
    if f > 0 {
      assert f * b == f * a + f * (b - a);
    }
  }

  lemma CostUpdate(freq: seq<nat>, len: seq<nat>, x: nat, v: nat)
    requires |freq| == |len| && x < |freq|
    ensures Cost(freq, len[x := v]) + freq[x] * len[x] == Cost(freq, len) + freq[x] * v
  {
    hide Sum;
    var w: seq<nat> := Weighted(freq, len);
    var wx: nat := freq[x] * v;
    SumUpdate(w, x, wx);
    assert w[x := wx] == Weighted(freq, len[x := v]);
  }

  /** Shares are even if every length is less than m. */
  lemma SharesEven(freq: seq<nat>, len: seq<nat>, m: nat, x: nat)
    requires Within(freq, len, m) && m > 0 && x < |freq|
    requires forall i :: 0 <= i < |freq| && freq[i] > 0 && i != x ==> len[i] < m
    ensures Sum(Shares(freq, len, m)[x := 0]) % 2 == 0
  {
    hide Sum, Pow2;
    var s: seq<nat> := Shares(freq, len, m)[x := 0];
    forall i | 0 <= i < |s|
      ensures s[i] % 2 == 0
    {
      if i != x && freq[i] > 0 {
        Pow2Step(m - len[i] - 1);
      }
    }
    SumEven(s);
  }

  /** A symbol that alone has the greatest length can be made shorter by one. */
  lemma Shorten(freq: seq<nat>, len: seq<nat>, m: nat, x: nat)
    requires Fits(freq, len, m) && x < |freq| && freq[x] > 0 && len[x] == m > 0
    requires forall i :: 0 <= i < |freq| && freq[i] > 0 && i != x ==> len[i] < m
    ensures Fits(freq, len[x := m - 1], m - 1) && Cost(freq, len[x := m - 1]) <= Cost(freq, len)
  {
    hide Sum, Pow2, Weighted;
    var s: seq<nat> := Shares(freq, len, m);
    var short := len[x := m - 1];
    Pow2Step(m - 1);
    SumUpdate(s, x, 0);
    SharesEven(freq, len, m, x);
    SumUpdate(s, x, 2);
    assert s[x := 2] == Shares(freq, short, m);
    SharesDouble(freq, short, m - 1);
    CostUpdate(freq, len, x, m - 1);
    ScaleMonotone(m - 1, m, freq[x]);
  }

  /** Two symbols cannot both have the empty code. */
  lemma NoRoom(freq: seq<nat>, len: seq<nat>, a: nat, b: nat)
    requires a < |freq| && b < |freq| && a != b && freq[a] > 0 && freq[b] > 0
    ensures !Fits(freq, len, 0)
  {
    hide Sum;
    if Within(freq, len, 0) {
      SumOfTwo(Shares(freq, len, 0), a, b);
    }
  }

  /** At no extra cost two symbols have the greatest length. */
  lemma {:induction false} TwoDeepest(freq: seq<nat>, len: seq<nat>, m: nat, a: nat, b: nat)
    returns (len1: seq<nat>, m1: nat, x: nat, y: nat)
    requires Fits(freq, len, m) && a < |freq| && b < |freq| && a != b && freq[a] > 0 && freq[b] > 0
    ensures Fits(freq, len1, m1) && Cost(freq, len1) <= Cost(freq, len) && m1 > 0
    ensures x < |freq| && y < |freq| && x != y && freq[x] > 0 && freq[y] > 0 && len1[x] == len1[y] == m1
    decreases m
  {
    hide Sum, Shares, Weighted, Pow2;
    if m == 0 {
      NoRoom(freq, len, a, b);
      assert false;
    } else if u: nat :| u < |freq| && freq[u] > 0 && len[u] == m {
      if v: nat :| v < |freq| && freq[v] > 0 && len[v] == m && v != u {
        len1, m1, x, y := len, m, u, v;
      } else {
        Shorten(freq, len, m, u);
        var less: nat := m - 1;
        len1, m1, x, y := TwoDeepest(freq, len[u := less], less, a, b);
      }
    } else {
      SharesDouble(freq, len, m - 1);
      Pow2Step(m - 1);
      len1, m1, x, y := TwoDeepest(freq, len, m - 1, a, b);
    }
  }

  /** Giving the greater of two lengths to the lighter of two symbols costs nothing. */
  lemma Exchange(freq: seq<nat>, len: seq<nat>, m: nat, i: nat, j: nat)
    requires Fits(freq, len, m) && i < |freq| && j < |freq| && i != j
    requires 0 < freq[i] <= freq[j] && len[i] <= len[j]
    ensures Fits(freq, len[i := len[j]][j := len[i]], m)
    ensures Cost(freq, len[i := len[j]][j := len[i]]) <= Cost(freq, len)
  {
    hide Pow2, Sum;
    var len1 := len[i := len[j]][j := len[i]];
    var s: seq<nat> := Shares(freq, len, m);
    SumUpdate(s, i, s[j]);
    SumUpdate(s[i := s[j]], j, s[i]);
    assert s[i := s[j]][j := s[i]] == Shares(freq, len1, m);
    var w: seq<nat> := Weighted(freq, len);
    var wi: nat, wj: nat := freq[i] * len[j], freq[j] * len[i];
    SumUpdate(w, i, wi);
    SumUpdate(w[i := wi], j, wj);
    assert w[i := wi][j := wj] == Weighted(freq, len1);
    Rearranged(freq[i], freq[j], len[i], len[j]);
  }

  lemma Rearranged(p: nat, q: nat, k: nat, l: nat)
    requires p <= q && k <= l
    ensures p * l + q * k <= p * k + q * l
  {
    assert (q - p) * (l - k) >= 0;
  }

  /** c1 is a lightest symbol, and c2 a lightest one besides it. */
  predicate Lightest(freq: seq<nat>, c1: nat, c2: nat) {
    && c1 < |freq| && c2 < |freq| && c1 != c2 && freq[c1] > 0 && freq[c2] > 0
    && (forall i :: 0 <= i < |freq| && freq[i] > 0 ==> freq[c1] <= freq[i])
    && (forall i :: 0 <= i < |freq| && freq[i] > 0 && i != c1 ==> freq[c2] <= freq[i])
  }

  /** At no extra cost the two lightest symbols have the greatest length. */
  lemma LightestDeepest(freq: seq<nat>, len: seq<nat>, m: nat, c1: nat, c2: nat) returns (len1: seq<nat>, m1: nat)
    requires Fits(freq, len, m) && Lightest(freq, c1, c2)
    ensures Fits(freq, len1, m1) && Cost(freq, len1) <= Cost(freq, len) && m1 > 0
    ensures len1[c1] == len1[c2] == m1
  {
    hide Pow2, Sum, Shares, Weighted;
    var x, y;
    len1, m1, x, y := TwoDeepest(freq, len, m, c1, c2);
    var other := if x == c1 then y else x;  // a deepest symbol besides c1
    if len1[c1] < m1 {
      var z := if x == c2 then y else x;
      other := if x == c2 then x else y;
      Exchange(freq, len1, m1, c1, z);
      len1 := len1[c1 := len1[z]][z := len1[c1]];
    }
    if len1[c2] < m1 {
      Exchange(freq, len1, m1, c2, other);
      len1 := len1[c2 := len1[other]][other := len1[c2]];
    }
  }

  /** The weights after merging c2 into c1. */
  function Merged(freq: seq<nat>, c1: nat, c2: nat): (f: seq<nat>)
    requires c1 < |freq| && c2 < |freq|
    ensures |f| == |freq|
  {
    freq[c1 := freq[c1] + freq[c2]][c2 := 0]
  }

  /** The lengths once the merged symbol is taken apart again. */
  function Split(len: seq<nat>, c1: nat, c2: nat): (l: seq<nat>)
    requires c1 < |len| && c2 < |len|
    ensures |l| == |len|
  {
    len[c1 := len[c1] + 1][c2 := len[c1] + 1]
  }

  /** Merging two symbols of greatest length gives lengths for the merged weights. */
  lemma Contract(freq: seq<nat>, len: seq<nat>, m: nat, c1: nat, c2: nat)
    requires Fits(freq, len, m) && Lightest(freq, c1, c2) && len[c1] == len[c2] == m > 0
    ensures Fits(Merged(freq, c1, c2), len[c1 := m - 1], m)
    ensures Cost(Merged(freq, c1, c2), len[c1 := m - 1]) + freq[c1] + freq[c2] == Cost(freq, len)
  {
    hide Sum, Pow2, Weighted;
    var s: seq<nat> := Shares(freq, len, m);
    SumUpdate(s, c1, 2);
    SumUpdate(s[c1 := 2], c2, 0);
    Pow2Step(0);
    assert s[c1 := 2][c2 := 0] == Shares(Merged(freq, c1, c2), len[c1 := m - 1], m);
    MergedCost(freq, len, len[c1 := m - 1], c1, c2, m - 1);
  }

  /** One more bit for each of two symbols costs as much as their weights. */
  lemma MergedCost(freq: seq<nat>, len: seq<nat>, len1: seq<nat>, c1: nat, c2: nat, k: nat)
    requires |freq| == |len| == |len1| && c1 < |freq| && c2 < |freq| && c1 != c2
    requires len[c1] == len[c2] == k + 1 && len1[c1] == k
    requires forall i :: 0 <= i < |len| && i != c1 && i != c2 ==> len1[i] == len[i]
    ensures Cost(Merged(freq, c1, c2), len1) + freq[c1] + freq[c2] == Cost(freq, len)
  {
    hide Sum;
    var w: seq<nat> := Weighted(freq, len);
    var top: nat := (freq[c1] + freq[c2]) * k;
    SumUpdate(w, c1, top);
    SumUpdate(w[c1 := top], c2, 0);
    assert w[c1 := top][c2 := 0] == Weighted(Merged(freq, c1, c2), len1);
    SplitProduct(freq[c1], freq[c2], k);
  }

  lemma SplitProduct(a: nat, b: nat, k: nat)
    ensures (a + b) * k + a + b == a * (k + 1) + b * (k + 1)
  {
  }

  /** Taking the merged symbol apart gives lengths for the old weights, just as complete. */
  lemma Expand(freq: seq<nat>, len: seq<nat>, m: nat, c1: nat, c2: nat)
    requires Lightest(freq, c1, c2) && Complete(Merged(freq, c1, c2), len, m)
    ensures Complete(freq, Split(len, c1, c2), m + 1)
    ensures Cost(freq, Split(len, c1, c2)) == Cost(Merged(freq, c1, c2), len) + freq[c1] + freq[c2]
  {
    hide Sum, Pow2, Weighted;
    var f1 := Merged(freq, c1, c2);
    SharesDouble(f1, len, m);
    var s: seq<nat> := Shares(f1, len, m + 1);
    assert len[c1] <= m;
    var half := Pow2(m - len[c1]);
    Pow2Step(m - len[c1]);
    Pow2Step(m);
    SumUpdate(s, c1, half);
    SumUpdate(s[c1 := half], c2, half);
    assert s[c1 := half][c2 := half] == Shares(freq, Split(len, c1, c2), m + 1);
    MergedCost(freq, Split(len, c1, c2), len, c1, c2, len[c1]);
  }

  /** Huffman's step: optimal lengths for the merged weights give optimal lengths for the weights before. */
  lemma OptimalSplit(freq: seq<nat>, len: seq<nat>, c1: nat, c2: nat)
    requires Lightest(freq, c1, c2) && Optimal(Merged(freq, c1, c2), len)
    ensures Optimal(freq, Split(len, c1, c2))
  {
    hide Sum, Shares, Weighted, Pow2;
    var m: nat :| Complete(Merged(freq, c1, c2), len, m);
    Expand(freq, len, m, c1, c2);
    forall other: seq<nat>, k: nat | Fits(freq, other, k)
      ensures Cost(freq, Split(len, c1, c2)) <= Cost(freq, other)
    {
      var deep, k1 := LightestDeepest(freq, other, k, c1, c2);
      Contract(freq, deep, k1, c1, c2);
    }
  }

  /** One symbol needs no bits. */
  lemma OptimalAlone(freq: seq<nat>, c: nat, len: seq<nat>)
    requires c < |freq| == |len| && freq[c] > 0 && forall i :: 0 <= i < |freq| && i != c ==> freq[i] == 0
    requires forall i :: 0 <= i < |len| ==> len[i] == 0
    ensures Optimal(freq, len)
  {
    var zeros := seq<nat>(|freq|, _ => 0);
    SumScaled(zeros, Weighted(freq, len), 0);
    SumScaled(zeros, zeros, 0);
    var s: seq<nat> := Shares(freq, len, 0);
    SumUpdate(zeros, c, 1);
    assert s == zeros[c := 1];
    assert Complete(freq, len, 0);
  }

  // ---------------------------------------------------------------------------------------------
  // Prefix codes
  // ---------------------------------------------------------------------------------------------

  /** Of the symbols with nonzero weights, none has a code word that starts another's. */
  predicate IsPrefixCode(freq: seq<nat>, words: seq<seq<bit>>) {
    && |freq| == |words|
    && forall i, j :: 0 <= i < |freq| && 0 <= j < |freq| && i != j && freq[i] > 0 && freq[j] > 0 ==>
       !(words[i] <= words[j])
  }

  function Lengths(words: seq<seq<bit>>): (len: seq<nat>)
    ensures |len| == |words|
  {
    seq(|words|, i requires 0 <= i < |words| => |words[i]|)
  }

  /** The weights of the symbols whose words start with b. */
  function Starting(freq: seq<nat>, words: seq<seq<bit>>, b: bit): (f: seq<nat>)
    requires |freq| == |words|
    ensures |f| == |freq|
  {
    seq(|freq|, i requires 0 <= i < |freq| => if words[i] != [] && words[i][0] == b then freq[i] else 0)
  }

  function Tails(words: seq<seq<bit>>): (t: seq<seq<bit>>)
    ensures |t| == |words|
  {
    seq(|words|, i requires 0 <= i < |words| => if words[i] == [] then [] else words[i][1..])
  }

  lemma {:induction false} SumTermwise(s: seq<nat>, t: seq<nat>, u: seq<nat>)
    requires |s| == |t| == |u| && forall i :: 0 <= i < |s| ==> s[i] == t[i] + u[i]
    ensures Sum(s) == Sum(t) + Sum(u)
  {
    if s != [] {
      SumTermwise(s[..|s| - 1], t[..|s| - 1], u[..|s| - 1]);
    }
  }

  lemma {:induction false} SumOfZeros(s: seq<nat>)
    requires forall i :: 0 <= i < |s| ==> s[i] == 0
    ensures Sum(s) == 0
  {
    if s != [] {
      SumOfZeros(s[..|s| - 1]);
    }
  }

  /** Kraft's inequality: the lengths of every prefix code fit. */
  lemma {:induction false} Kraft(freq: seq<nat>, words: seq<seq<bit>>, m: nat)
    requires IsPrefixCode(freq, words) && Within(freq, Lengths(words), m)
    ensures Fits(freq, Lengths(words), m)
    decreases m
  {
    hide Sum, Pow2;
    var s: seq<nat> := Shares(freq, Lengths(words), m);
    if c :| 0 <= c < |freq| && freq[c] > 0 && words[c] == [] {
      forall i | 0 <= i < |freq| && i != c
        ensures s[i] == 0
      {
        assert words[c] <= words[i];
      }
      SumUpdate(s, c, 0);
      SumOfZeros(s[c := 0]);
    } else if m == 0 {
      SumOfZeros(s);
    } else {
      var f0, f1, t := Starting(freq, words, 0), Starting(freq, words, 1), Tails(words);
      HalfIsPrefixCode(freq, words, 0, m);
      HalfIsPrefixCode(freq, words, 1, m);
      Kraft(f0, t, m - 1);
      Kraft(f1, t, m - 1);
      SumTermwise(s, Shares(f0, Lengths(t), m - 1), Shares(f1, Lengths(t), m - 1));
      Pow2Step(m - 1);
    }
  }

  lemma HalfIsPrefixCode(freq: seq<nat>, words: seq<seq<bit>>, b: bit, m: nat)
    requires IsPrefixCode(freq, words) && Within(freq, Lengths(words), m) && m > 0
    requires forall i :: 0 <= i < |freq| && freq[i] > 0 ==> words[i] != []
    ensures IsPrefixCode(Starting(freq, words, b), Tails(words))
    ensures Within(Starting(freq, words, b), Lengths(Tails(words)), m - 1)
  {
    var f, t := Starting(freq, words, b), Tails(words);
    forall i, j | 0 <= i < |f| && 0 <= j < |f| && i != j && f[i] > 0 && f[j] > 0
      ensures !(t[i] <= t[j])
    {
      assert !(words[i] <= words[j]);
    }
  }

  /** Optimal lengths are no worse than those of any prefix code. */
  lemma BeatsEveryPrefixCode(freq: seq<nat>, len: seq<nat>, words: seq<seq<bit>>)
    requires Optimal(freq, len) && IsPrefixCode(freq, words)
    ensures Cost(freq, len) <= Cost(freq, Lengths(words))
  {
    var m := Longest(words, |words|);
    Kraft(freq, words, m);
  }

  function Longest(words: seq<seq<bit>>, n: nat): (m: nat)
    requires n <= |words|
    ensures forall i :: 0 <= i < n ==> |words[i]| <= m
  {
    if n == 0 then 0
    else
      var m := Longest(words, n - 1);
      if |words[n - 1]| > m then |words[n - 1]| else m
  }
}
