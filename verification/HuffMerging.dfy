/** Huffman's algorithm over arrays (T.81, section K.2): merging counts and deepening the branches merged. */
module HuffMerging {
  import opened CodeLengths

  const SYMBOLS := 257          // 256 byte values and the pseudo-symbol
  const SEARCH_BOUND := 1000000000

  /** The k-th symbol of a chain is linked to the next one. */
  predicate LinkAt(others: seq<int>, chain: seq<nat>, k: nat)
    requires k < |chain|
  {
    chain[k] < |others| && others[chain[k]] == if k + 1 < |chain| then chain[k + 1] else -1
  }

  /** The others links lead from c through exactly the symbols of chain, in order. */
  predicate Chain(others: seq<int>, chain: seq<nat>, c: nat) {
    && chain != [] && chain[0] == c
    && (forall k :: 0 <= k < |chain| ==> LinkAt(others, chain, k))
    && forall k, l :: 0 <= k < l < |chain| ==> chain[k] != chain[l]
  }

  /** The branches: each symbol of nonzero weight belongs to the branch of one root that still has a weight. */
  ghost predicate Forest(freq0: seq<nat>, freq: seq<nat>, others: seq<int>, root: seq<nat>, chains: seq<seq<nat>>) {
    && |freq0| == |freq| == |others| == |root| == |chains| == SYMBOLS
    && (forall s :: 0 <= s < SYMBOLS ==> root[s] < SYMBOLS && if freq0[s] > 0 then freq[root[s]] > 0 else root[s] == s)
    && (forall c :: 0 <= c < SYMBOLS && freq[c] > 0 ==> Chain(others, chains[c], c))
    && forall c, s :: 0 <= c < SYMBOLS && 0 <= s < SYMBOLS && freq[c] > 0 ==>
                        (s in chains[c] <==> freq0[s] > 0 && root[s] == c)
  }

  /** Depth within the branch plus the length that the root gets. */
  function Combined(codesize: seq<nat>, root: seq<nat>, len: seq<nat>): (l: seq<nat>)
    requires |codesize| == |root| == |len| == SYMBOLS && forall s :: 0 <= s < SYMBOLS ==> root[s] < SYMBOLS
    ensures |l| == SYMBOLS
  {
    seq(SYMBOLS, s requires 0 <= s < SYMBOLS => codesize[s] + len[root[s]])
  }

  /** Of the symbols below n with a weight, besides skip, the lightest; the last among equals, -1 if there is none. */
  function LightestOf(freq: seq<nat>, skip: int, n: nat): (c: int)
    requires n <= |freq|
    ensures -1 <= c < n && (c == -1 <==> forall i :: 0 <= i < n && freq[i] > 0 ==> i == skip)
    ensures c >= 0 ==> freq[c] > 0 && c != skip
    ensures c >= 0 ==> forall i :: 0 <= i < n && freq[i] > 0 && i != skip ==>
      freq[c] < freq[i] || (freq[c] == freq[i] && i <= c)
  {
    if n == 0 then -1
    else
      var c := LightestOf(freq, skip, n - 1);
      if freq[n - 1] > 0 && n - 1 != skip && (c < 0 || freq[n - 1] <= freq[c]) then n - 1 else c
  }

  /** The two symbols that are merged next. */
  predicate LightestTwo(freq: seq<nat>, c1: nat, c2: nat) {
    |freq| == SYMBOLS && c1 == LightestOf(freq, -1, SYMBOLS) && c2 == LightestOf(freq, c1, SYMBOLS)
  }

  lemma TwoAreLightest(freq: seq<nat>, c1: nat, c2: nat)
    requires LightestTwo(freq, c1, c2)
    ensures Lightest(freq, c1, c2)
  {
  }

  /** Huffman's lengths: those of the merged weights, with the merged symbol taken apart (section K.2). */
  function HuffmanLengths(freq: seq<nat>): (len: seq<nat>)
    requires |freq| == SYMBOLS
    ensures |len| == SYMBOLS
    decreases |Roots(freq)|
  {
    var c1 := LightestOf(freq, -1, SYMBOLS);
    var c2 := LightestOf(freq, c1, SYMBOLS);
    if c1 < 0 || c2 < 0 then seq(SYMBOLS, _ => 0)
    else
      assert LightestTwo(freq, c1, c2);
      FewerRoots(freq, c1, c2);
      Split(HuffmanLengths(Merged(freq, c1, c2)), c1, c2)
  }

  lemma LengthsSplit(freq: seq<nat>, c1: nat, c2: nat)
    requires LightestTwo(freq, c1, c2)
    ensures Lightest(freq, c1, c2) && HuffmanLengths(freq) == Split(HuffmanLengths(Merged(freq, c1, c2)), c1, c2)
  {
    hide LightestOf;
    TwoAreLightest(freq, c1, c2);
  }

  /**
   * One merge: the weight of the second symbol goes to the first, which stands for both from then on, and each of the
   * two gets one bit more than what stands for them.
   */
  lemma MergeMeans(freq: seq<nat>, c1: nat, c2: nat)
    requires |freq| == SYMBOLS && c1 < SYMBOLS && c2 < SYMBOLS && c1 != c2 && freq[c1] > 0 && freq[c2] > 0
    requires forall i :: 0 <= i < SYMBOLS && freq[i] > 0 && i != c1 ==>
      freq[c1] < freq[i] || (freq[c1] == freq[i] && i < c1)
    requires forall i :: 0 <= i < SYMBOLS && freq[i] > 0 && i != c1 && i != c2 ==>
               freq[c2] < freq[i] || (freq[c2] == freq[i] && i < c2)
    ensures var one := HuffmanLengths(freq[c1 := freq[c1] + freq[c2]][c2 := 0]);
            HuffmanLengths(freq) == one[c1 := one[c1] + 1][c2 := one[c1] + 1]
  {
    hide LightestOf, HuffmanLengths;
    assert LightestOf(freq, -1, SYMBOLS) == c1;
    assert LightestOf(freq, c1, SYMBOLS) == c2;
    LengthsSplit(freq, c1, c2);
    assert Merged(freq, c1, c2) == freq[c1 := freq[c1] + freq[c2]][c2 := 0];
  }

  /** No prefix code for the symbols of nonzero weight is cheaper. */
  lemma {:induction false} LengthsOptimal(freq: seq<nat>, some: nat)
    requires |freq| == SYMBOLS && some < SYMBOLS && freq[some] > 0
    ensures Optimal(freq, HuffmanLengths(freq))
    decreases |Roots(freq)|
  {
    hide Optimal, LightestOf, Sum;
    var c1 := LightestOf(freq, -1, SYMBOLS);
    var c2 := LightestOf(freq, c1, SYMBOLS);
    if c2 < 0 {
      OptimalAlone(freq, c1, HuffmanLengths(freq));
    } else {
      LengthsSplit(freq, c1, c2);
      FewerRoots(freq, c1, c2);
      LengthsOptimal(Merged(freq, c1, c2), c1);
      OptimalSplit(freq, HuffmanLengths(Merged(freq, c1, c2)), c1, c2);
    }
  }

  function Roots(freq: seq<nat>): (r: set<nat>)
  {
    set c: nat | c < |freq| && freq[c] > 0
  }

  lemma FewerRoots(freq: seq<nat>, c1: nat, c2: nat)
    requires LightestTwo(freq, c1, c2)
    ensures |Roots(Merged(freq, c1, c2))| < |Roots(freq)|
  {
    hide LightestOf;
    TwoAreLightest(freq, c1, c2);
    assert Roots(Merged(freq, c1, c2)) == Roots(freq) - {c2};
  }

  /** In every merge down to a single root the search sees both of the lightest: it looks no further than the bound. */
  predicate Searchable(freq: seq<nat>)
    requires |freq| == SYMBOLS
    decreases |Roots(freq)|
  {
    var c1 := LightestOf(freq, -1, SYMBOLS);
    var c2 := LightestOf(freq, c1, SYMBOLS);
    c1 < 0 || c2 < 0 || (FewerRoots(freq, c1, c2); freq[c2] <= SEARCH_BOUND && Searchable(Merged(freq, c1, c2)))
  }

  lemma SearchableMerged(freq: seq<nat>, c1: nat, c2: nat)
    requires LightestTwo(freq, c1, c2)
    ensures Lightest(freq, c1, c2)
    ensures Searchable(freq) <==> freq[c2] <= SEARCH_BOUND && Searchable(Merged(freq, c1, c2))
  {
    hide LightestOf;
    TwoAreLightest(freq, c1, c2);
  }

  /** Counts whose total is within the bound can be searched. */
  lemma {:induction false} SmallIsSearchable(freq: seq<nat>)
    requires |freq| == SYMBOLS && Sum(freq) <= SEARCH_BOUND
    ensures Searchable(freq)
    decreases |Roots(freq)|
  {
    hide LightestOf, Sum;
    var c1 := LightestOf(freq, -1, SYMBOLS);
    var c2 := LightestOf(freq, c1, SYMBOLS);
    if c1 >= 0 && c2 >= 0 {
      SearchableMerged(freq, c1, c2);
      FewerRoots(freq, c1, c2);
      MergedSum(freq, c1, c2);
      Within1(freq, c2);
      SmallIsSearchable(Merged(freq, c1, c2));
    }
  }

  /** Counts whose total is more than twice the bound cannot. */
  lemma {:induction false} SearchableIsSmall(freq: seq<nat>, c1: nat, c2: nat)
    requires LightestTwo(freq, c1, c2) && Searchable(freq)
    ensures Sum(freq) <= 2 * SEARCH_BOUND
    decreases |Roots(freq)|
  {
    hide LightestOf, Sum;
    SearchableMerged(freq, c1, c2);
    var merged := Merged(freq, c1, c2);
    MergedSum(freq, c1, c2);
    var d1 := LightestOf(merged, -1, SYMBOLS);
    var d2 := LightestOf(merged, d1, SYMBOLS);
    if d1 >= 0 && d2 >= 0 {
      FewerRoots(freq, c1, c2);
      SearchableIsSmall(merged, d1, d2);
    } else {
      assert merged[c1] > 0;
      OnlyOne(merged, c1);
    }
  }

  lemma OnlyOne(freq: seq<nat>, c: nat)
    requires c < |freq| && forall i :: 0 <= i < |freq| && i != c ==> freq[i] == 0
    ensures Sum(freq) == freq[c]
  {
    SumUpdate(freq, c, 0);
    SumOfZeros(freq[c := 0]);
  }

  /** Two symbols counted more than 10^9 times each, with the pseudo-symbol: the second one is never found. */
  lemma HeavyCountsAreNotSearchable(freq: seq<nat>)
    requires |freq| == SYMBOLS && freq[0] > SEARCH_BOUND && freq[1] > SEARCH_BOUND && freq[256] == 1
    requires forall i :: 2 <= i < 256 ==> freq[i] == 0
    ensures !Searchable(freq)
  {
    hide LightestOf;
    var c1 := LightestOf(freq, -1, SYMBOLS);
    var c2 := LightestOf(freq, c1, SYMBOLS);
    assert c1 == 256 && c2 >= 0;
    SearchableMerged(freq, c1, c2);
  }

  /** Depths in the branches, together with the lengths of the roots, are the lengths of all the symbols. */
  ghost predicate Extends(freq0: seq<nat>, freq: seq<nat>, codesize: seq<nat>, root: seq<nat>)
    requires |freq0| == |freq| == |codesize| == |root| == SYMBOLS && forall s :: 0 <= s < SYMBOLS ==> root[s] < SYMBOLS
  {
    Combined(codesize, root, HuffmanLengths(freq)) == HuffmanLengths(freq0)
  }

  /** The branches' depths, one greater for the symbols of chain. */
  function Deeper(codesize: seq<nat>, chain: seq<nat>): (d: seq<nat>)
    ensures |d| == |codesize|
  {
    seq(|codesize|, s requires 0 <= s < |codesize| => codesize[s] + if s in chain then 1 else 0)
  }

  function Rerooted(root: seq<nat>, chain: seq<nat>, c: nat): (r: seq<nat>)
    ensures |r| == |root|
  {
    seq(|root|, s requires 0 <= s < |root| => if s in chain then c else root[s])
  }

  lemma ChainEnds(others: seq<int>, chain: seq<nat>, c: nat, k: nat)
    requires Chain(others, chain, c) && k < |chain|
    ensures chain[k] < |others| && others[chain[k]] == if k + 1 < |chain| then chain[k + 1] else -1
    ensures others[chain[k]] < 0 <==> k + 1 == |chain|
  {
    assert LinkAt(others, chain, k);
  }

  lemma ChainsJoin(others: seq<int>, a: seq<nat>, b: seq<nat>, c1: nat, c2: nat)
    requires Chain(others, a, c1) && Chain(others, b, c2)
    requires forall s :: s in a ==> s !in b
    ensures a[|a| - 1] < |others| && Chain(others[a[|a| - 1] := c2], a + b, c1)
  {
    ChainEnds(others, a, c1, |a| - 1);
    var linked := others[a[|a| - 1] := c2];
    var ab := a + b;
    forall k | 0 <= k < |ab|
      ensures LinkAt(linked, ab, k)
    {
      JoinLinks(others, a, b, c1, c2, k);
    }
    JoinDistinct(others, a, b, c1, c2);
  }

  lemma JoinDistinct(others: seq<int>, a: seq<nat>, b: seq<nat>, c1: nat, c2: nat)
    requires Chain(others, a, c1) && Chain(others, b, c2)
    requires forall s :: s in a ==> s !in b
    ensures forall k, l :: 0 <= k < l < |a + b| ==> (a + b)[k] != (a + b)[l]
  {
    forall k, l | 0 <= k < l < |a + b|
      ensures (a + b)[k] != (a + b)[l]
    {
      if k < |a| <= l {
        assert a[k] in a && b[l - |a|] in b;
      }
    }
  }

  lemma JoinLinks(others: seq<int>, a: seq<nat>, b: seq<nat>, c1: nat, c2: nat, k: nat)
    requires Chain(others, a, c1) && Chain(others, b, c2) && k < |a + b|
    requires forall s :: s in a ==> s !in b
    ensures a[|a| - 1] < |others| && LinkAt(others[a[|a| - 1] := c2], a + b, k)
  {
    ChainEnds(others, a, c1, |a| - 1);
    if k < |a| {
      ChainEnds(others, a, c1, k);
      assert k < |a| - 1 ==> a[k] != a[|a| - 1];
    } else {
      ChainEnds(others, b, c2, k - |a|);
      assert b[k - |a|] in b && a[|a| - 1] in a;
    }
  }

  lemma ChainKept(others: seq<int>, chain: seq<nat>, c: nat, i: nat, v: int)
    requires Chain(others, chain, c) && i < |others| && i !in chain
    ensures Chain(others[i := v], chain, c)
  {
    var linked := others[i := v];
    forall k | 0 <= k < |chain|
      ensures LinkAt(linked, chain, k)
    {
      assert LinkAt(others, chain, k) && chain[k] in chain;
    }
  }

  /** Merging two branches keeps the forest. */
  lemma ForestMerged(freq0: seq<nat>, freq: seq<nat>, others: seq<int>, root: seq<nat>, chains: seq<seq<nat>>, c1: nat,
      c2: nat)
    requires Forest(freq0, freq, others, root, chains) && Lightest(freq, c1, c2)
    ensures forall s :: s in chains[c1] ==> s !in chains[c2]
    ensures chains[c1] != [] && chains[c1][|chains[c1]| - 1] < SYMBOLS
    ensures Forest(freq0, Merged(freq, c1, c2), others[chains[c1][|chains[c1]| - 1] := c2],
                   Rerooted(root, chains[c2], c1), chains[c1 := chains[c1] + chains[c2]])
  {
    var a, b := chains[c1], chains[c2];
    var f1 := Merged(freq, c1, c2);
    var r1, ch1 := Rerooted(root, b, c1), chains[c1 := a + b];
    assert Chain(others, a, c1) && Chain(others, b, c2);
    InForest(freq0, freq, others, root, chains, c1);
    InForest(freq0, freq, others, root, chains, c2);
    ChainsJoin(others, a, b, c1, c2);
    var last := a[|a| - 1];
    assert last in a;
    forall c | 0 <= c < SYMBOLS && f1[c] > 0
      ensures Chain(others[last := c2], ch1[c], c)
    {
      if c != c1 {
        ChainKept(others, chains[c], c, last, c2);
      }
    }
    forall c, s | 0 <= c < SYMBOLS && 0 <= s < SYMBOLS && f1[c] > 0
      ensures s in ch1[c] <==> freq0[s] > 0 && r1[s] == c
    {
      assert s in chains[c2] <==> freq0[s] > 0 && root[s] == c2;
      assert s in chains[c1] <==> freq0[s] > 0 && root[s] == c1;
    }
  }

  lemma InForest(freq0: seq<nat>, freq: seq<nat>, others: seq<int>, root: seq<nat>, chains: seq<seq<nat>>, c: nat)
    requires Forest(freq0, freq, others, root, chains) && c < SYMBOLS && freq[c] > 0
    ensures forall s :: s in chains[c] ==> s < SYMBOLS && freq0[s] > 0 && root[s] == c
  {
    forall s | s in chains[c]
      ensures s < SYMBOLS && freq0[s] > 0 && root[s] == c
    {
      var k :| 0 <= k < |chains[c]| && chains[c][k] == s;
      assert LinkAt(others, chains[c], k);
    }
  }

  /** Merging the two lightest roots takes a symbol apart the other way round. */
  lemma ExtendsMerged(freq0: seq<nat>, freq: seq<nat>, codesize: seq<nat>, others: seq<int>, root: seq<nat>,
                      chains: seq<seq<nat>>, c1: nat, c2: nat)
    requires |codesize| == SYMBOLS && Forest(freq0, freq, others, root, chains) && LightestTwo(freq, c1, c2)
    requires Extends(freq0, freq, codesize, root)
    ensures Lightest(freq, c1, c2)
    ensures Extends(freq0, Merged(freq, c1, c2), Deeper(Deeper(codesize, chains[c1]), chains[c2]),
      Rerooted(root, chains[c2], c1))
  {
    hide Chain, LightestOf, HuffmanLengths, Combined;
    LengthsSplit(freq, c1, c2);
    CombinedSplit(freq0, freq, codesize, others, root, chains, c1, c2, HuffmanLengths(Merged(freq, c1, c2)));
  }

  lemma CombinedSplit(freq0: seq<nat>, freq: seq<nat>, codesize: seq<nat>, others: seq<int>, root: seq<nat>,
                      chains: seq<seq<nat>>, c1: nat, c2: nat, len: seq<nat>)
    requires |codesize| == |len| == SYMBOLS && Forest(freq0, freq, others, root, chains) && Lightest(freq, c1, c2)
    ensures Combined(Deeper(Deeper(codesize, chains[c1]), chains[c2]), Rerooted(root, chains[c2], c1), len)
            == Combined(codesize, root, Split(len, c1, c2))
  {
    hide Chain;
    forall s | 0 <= s < SYMBOLS
      ensures Combined(Deeper(Deeper(codesize, chains[c1]), chains[c2]), Rerooted(root, chains[c2], c1), len)[s]
              == Combined(codesize, root, Split(len, c1, c2))[s]
    {
      assert s in chains[c2] <==> freq0[s] > 0 && root[s] == c2;
      assert s in chains[c1] <==> freq0[s] > 0 && root[s] == c1;
      if freq0[s] == 0 && (s == c1 || s == c2) {
        RootWasThere(freq0, freq, others, root, chains, s);
      }
    }
  }

  /** Roots are symbols that had a weight from the start. */
  lemma RootWasThere(freq0: seq<nat>, freq: seq<nat>, others: seq<int>, root: seq<nat>, chains: seq<seq<nat>>, c: nat)
    requires Forest(freq0, freq, others, root, chains) && c < SYMBOLS && freq[c] > 0
    ensures freq0[c] > 0 && root[c] == c
  {
    assert chains[c][0] in chains[c];
  }

  // ---------------------------------------------------------------------------------------------
  // The algorithm
  // ---------------------------------------------------------------------------------------------

  /** What the search finds: nothing beyond its bound. */
  function Seen(freq: seq<nat>, c: int): int
    requires c < |freq|
  {
    if c >= 0 && freq[c] <= SEARCH_BOUND then c else -1
  }

  /** The lightest symbol of nonzero weight besides skip, if it is not heavier than the bound. */
  method FindLightest(freq: array<nat>, skip: int) returns (c: int)
    requires freq.Length == SYMBOLS
    ensures c == Seen(freq[..], LightestOf(freq[..], skip, SYMBOLS))
  {
    c := -1;
    var v: nat := SEARCH_BOUND;
    for i := 0 to SYMBOLS
      invariant c == Seen(freq[..], LightestOf(freq[..], skip, i)) && v == if c >= 0 then freq[c] else SEARCH_BOUND
    {
      if freq[i] != 0 && freq[i] <= v && i != skip {
        v := freq[i];
        c := i;
      }
    }
  }

  /** Adds one to the depth of every symbol in the branch of c; last is where the branch ends. */
  method Deepen(codesize: array<nat>, others: array<int>, c: nat, ghost chain: seq<nat>) returns (last: nat)
    requires codesize.Length == others.Length == SYMBOLS && Chain(others[..], chain, c)
    modifies codesize
    ensures codesize[..] == Deeper(old(codesize[..]), chain)
    ensures chain != [] && last == chain[|chain| - 1] < SYMBOLS
  {
    last := c;
    ChainEnds(others[..], chain, c, 0);
    codesize[last] := codesize[last] + 1;
    ghost var k := 0;
    while others[last] >= 0
      invariant 0 <= k < |chain| && last == chain[k] < SYMBOLS
      invariant forall s :: 0 <= s < SYMBOLS ==> codesize[s] == old(codesize[s]) + if s in chain[..k + 1] then 1 else 0
      decreases |chain| - k
    {
      ChainEnds(others[..], chain, c, k);
      assert chain[..k + 2] == chain[..k + 1] + [chain[k + 1]];
      last := others[last];
      k := k + 1;
      ChainEnds(others[..], chain, c, k);
      codesize[last] := codesize[last] + 1;
    }
    ChainEnds(others[..], chain, c, k);
    assert chain[..k + 1] == chain;
  }

  ghost predicate Merging(freq0: seq<nat>, freq: seq<nat>, codesize: seq<nat>, others: seq<int>, root: seq<nat>,
                          chains: seq<seq<nat>>)
  {
    && |codesize| == SYMBOLS && Forest(freq0, freq, others, root, chains) && Extends(freq0, freq, codesize, root)
    && Sum(freq) == Sum(freq0)
    && forall s :: 0 <= s < SYMBOLS && freq0[s] == 0 ==> codesize[s] == 0
  }

  /** Merges the branch of c2 into that of c1. */
  method Merge(freq: array<nat>, codesize: array<nat>, others: array<int>, c1: nat, c2: nat,
               ghost freq0: seq<nat>, ghost root: seq<nat>, ghost chains: seq<seq<nat>>)
    returns (ghost root1: seq<nat>, ghost chains1: seq<seq<nat>>)
    requires freq.Length == codesize.Length == others.Length == SYMBOLS && freq != codesize
    requires Merging(freq0, freq[..], codesize[..], others[..], root, chains) && LightestTwo(freq[..], c1, c2)
    modifies freq, codesize, others
    ensures freq[..] == Merged(old(freq[..]), c1, c2) && freq[c1] > 0
    ensures Merging(freq0, freq[..], codesize[..], others[..], root1, chains1)
  {
    hide Extends, Sum, Forest, Chain, Deeper, Rerooted, LightestOf;
    ghost var f, size, links := freq[..], codesize[..], others[..];
    TwoAreLightest(f, c1, c2);
    ForestMerged(freq0, f, links, root, chains, c1, c2);
    ExtendsMerged(freq0, f, size, links, root, chains, c1, c2);
    RootChains(freq0, f, links, root, chains, c1, c2);
    OutsideStays(freq0, f, size, links, root, chains, c1);
    OutsideStays(freq0, f, Deeper(size, chains[c1]), links, root, chains, c2);
    MergedSum(f, c1, c2);
    freq[c1] := freq[c1] + freq[c2];
    freq[c2] := 0;
    assert freq[..] == Merged(f, c1, c2);
    var last := Deepen(codesize, others, c1, chains[c1]);
    others[last] := c2;
    assert others[..] == links[last := c2];
    ChainStays(links, chains[c1], chains[c2], c2, last);
    last := Deepen(codesize, others, c2, chains[c2]);
    root1, chains1 := Rerooted(root, chains[c2], c1), chains[c1 := chains[c1] + chains[c2]];
  }

  lemma ChainStays(others: seq<int>, a: seq<nat>, b: seq<nat>, c2: nat, last: nat)
    requires Chain(others, b, c2) && a != [] && last == a[|a| - 1] < |others| && forall s :: s in a ==> s !in b
    ensures Chain(others[last := c2], b, c2)
  {
    assert last in a;
    ChainKept(others, b, c2, last, c2);
  }

  /** Symbols without a weight are in no branch. */
  lemma OutsideStays(freq0: seq<nat>, freq: seq<nat>, codesize: seq<nat>, others: seq<int>, root: seq<nat>,
                     chains: seq<seq<nat>>, c: nat)
    requires Forest(freq0, freq, others, root, chains) && c < SYMBOLS && freq[c] > 0 && |codesize| == SYMBOLS
    requires forall s :: 0 <= s < SYMBOLS && freq0[s] == 0 ==> codesize[s] == 0
    ensures forall s :: 0 <= s < SYMBOLS && freq0[s] == 0 ==> Deeper(codesize, chains[c])[s] == 0
  {
  }

  lemma RootChains(freq0: seq<nat>, freq: seq<nat>, others: seq<int>, root: seq<nat>, chains: seq<seq<nat>>, c1: nat,
      c2: nat)
    requires Forest(freq0, freq, others, root, chains) && Lightest(freq, c1, c2)
    ensures |chains| == SYMBOLS && Chain(others, chains[c1], c1) && Chain(others, chains[c2], c2)
  {
  }

  lemma MergedSum(freq: seq<nat>, c1: nat, c2: nat)
    requires c1 < |freq| && c2 < |freq| && c1 != c2
    ensures Sum(Merged(freq, c1, c2)) == Sum(freq)
  {
    hide Sum;
    var m: seq<nat> := Merged(freq, c1, c2);
    SumUpdate(m, c1, freq[c1]);
    SumUpdate(m[c1 := freq[c1]], c2, freq[c2]);
    assert m[c1 := freq[c1]][c2 := freq[c2]] == freq;
  }

  lemma Within1(freq: seq<nat>, i: nat)
    requires i < |freq|
    ensures freq[i] <= Sum(freq)
  {
    SumUpdate(freq, i, 0);
  }

  /** Every symbol is a branch of its own. */
  lemma StartMerging(freq: seq<nat>, codesize: seq<nat>, others: seq<int>)
      returns (root: seq<nat>, chains: seq<seq<nat>>)
    requires |freq| == |codesize| == |others| == SYMBOLS
    requires forall i :: 0 <= i < SYMBOLS ==> codesize[i] == 0 && others[i] == -1
    ensures Merging(freq, freq, codesize, others, root, chains)
  {
    hide HuffmanLengths, Sum;
    root := seq(SYMBOLS, i => i);
    chains := seq(SYMBOLS, i => [i]);
    assert Combined(codesize, root, HuffmanLengths(freq)) == HuffmanLengths(freq);
  }

  /** A single branch is left: the depths are the lengths. */
  lemma EndMerging(freq0: seq<nat>, freq: seq<nat>, codesize: seq<nat>, others: seq<int>, root: seq<nat>,
                   chains: seq<seq<nat>>, c: nat)
    requires Merging(freq0, freq, codesize, others, root, chains)
    requires c == LightestOf(freq, -1, SYMBOLS) && LightestOf(freq, c, SYMBOLS) < 0
    ensures codesize == HuffmanLengths(freq0)
  {
    hide Forest, Sum, LightestOf;
    RootsInRange(freq0, freq, others, root, chains);
    assert Combined(codesize, root, seq(SYMBOLS, _ => 0)) == codesize;
  }

  lemma RootsInRange(freq0: seq<nat>, freq: seq<nat>, others: seq<int>, root: seq<nat>, chains: seq<seq<nat>>)
    requires Forest(freq0, freq, others, root, chains)
    ensures |root| == |freq| == |freq0| == SYMBOLS && forall s :: 0 <= s < SYMBOLS ==> root[s] < SYMBOLS
  {
  }

  /** With two branches left no symbol has got its whole length, so these are not the lengths of a prefix code. */
  lemma StoppedEarly(freq0: seq<nat>, freq: seq<nat>, codesize: seq<nat>, others: seq<int>, root: seq<nat>,
                     chains: seq<seq<nat>>, c1: nat, c2: nat, some: nat)
    requires Merging(freq0, freq, codesize, others, root, chains) && LightestTwo(freq, c1, c2)
    requires some < SYMBOLS && freq0[some] > 0
    ensures !Optimal(freq0, codesize)
  {
    hide LightestOf, HuffmanLengths, Chain, Sum, Complete, Cost;
    TwoAreLightest(freq, c1, c2);
    var len, len0 := HuffmanLengths(freq), HuffmanLengths(freq0);
    LengthsOptimal(freq, c1);
    LengthsOptimal(freq0, some);
    var m: nat :| Complete(freq, len, m);
    forall s | 0 <= s < SYMBOLS && freq0[s] > 0
      ensures codesize[s] < len0[s]
    {
      NoEmptyCode(freq, len, m, root[s], if root[s] == c1 then c2 else c1);
      assert Combined(codesize, root, len)[s] == codesize[s] + len[root[s]];
    }
    ShorterIsCheaper(freq0, codesize, len0, some);
    if k: nat :| Complete(freq0, codesize, k) {
      CompleteFits(freq0, codesize, k);
    }
  }

  lemma CompleteFits(freq: seq<nat>, len: seq<nat>, m: nat)
    requires Complete(freq, len, m)
    ensures Fits(freq, len, m)
  {
  }

  /**
   * Assigns code lengths by repeatedly merging the two lightest symbols. The lengths are Huffman's, and then no prefix
   * code for the symbols of nonzero weight is cheaper, if and only if the search sees the symbols of every merge; if
   * not, it stops early, and the lengths belong to no complete code.
   */
  method AssignLengths(freq: array<nat>) returns (codesize: array<nat>)
    requires freq.Length == SYMBOLS && freq[256] > 0
    modifies freq
    ensures fresh(codesize) && codesize.Length == SYMBOLS
    ensures Optimal(old(freq[..]), codesize[..]) <==> Searchable(old(freq[..]))
    ensures Searchable(old(freq[..])) ==> codesize[..] == HuffmanLengths(old(freq[..]))
    ensures forall s :: 0 <= s < SYMBOLS && old(freq[s]) == 0 ==> codesize[s] == 0
  {
    hide Extends, Forest, Optimal, Sum, Chain, HuffmanLengths, LightestOf, Searchable;
    ghost var freq0 := freq[..];
    LengthsOptimal(freq0, 256);
    codesize := new nat[SYMBOLS](_ => 0);
    var others := new int[SYMBOLS](_ => -1);
    ghost var root, chains := StartMerging(freq[..], codesize[..], others[..]);
    ghost var some: nat := 256;  // a symbol of nonzero weight
    while true
      invariant Merging(freq0, freq[..], codesize[..], others[..], root, chains)
      invariant some < SYMBOLS && freq[some] > 0
      invariant Searchable(freq[..]) <==> Searchable(freq0)
      decreases |Roots(freq[..])|
    {
      var c1 := FindLightest(freq, -1);
      assert freq[..][some] > 0;
      var c2 := FindLightest(freq, c1);
      if c2 < 0 {
        Stopped(freq0, freq[..], codesize[..], others[..], root, chains, c1);
        return;
      }
      FewerRoots(freq[..], c1, c2);
      SearchableMerged(freq[..], c1, c2);
      root, chains := Merge(freq, codesize, others, c1, c2, freq0, root, chains);
      some := c1;
    }
  }

  /** When the search finds no second symbol, either a single branch is left, or it has stopped early. */
  lemma Stopped(freq0: seq<nat>, freq: seq<nat>, codesize: seq<nat>, others: seq<int>, root: seq<nat>,
                chains: seq<seq<nat>>, c1: int)
    requires |freq0| == |freq| == SYMBOLS && Merging(freq0, freq, codesize, others, root, chains) && freq0[256] > 0
    requires exists s :: 0 <= s < SYMBOLS && freq[s] > 0
    requires c1 == Seen(freq, LightestOf(freq, -1, SYMBOLS)) && Seen(freq, LightestOf(freq, c1, SYMBOLS)) < 0
    ensures Optimal(freq0, codesize) <==> Searchable(freq)
    ensures Searchable(freq) ==> codesize == HuffmanLengths(freq0)
  {
    hide LightestOf, Extends, Forest, Sum, Chain, HuffmanLengths, Optimal;
    var l1 := LightestOf(freq, -1, SYMBOLS);
    var l2 := LightestOf(freq, l1, SYMBOLS);
    if l2 < 0 {
      EndMerging(freq0, freq, codesize, others, root, chains, l1);
      LengthsOptimal(freq0, 256);
    } else {
      TwoAreLightest(freq, l1, l2);
      StoppedEarly(freq0, freq, codesize, others, root, chains, l1, l2, 256);
      SearchableMerged(freq, l1, l2);
    }
  }
}
