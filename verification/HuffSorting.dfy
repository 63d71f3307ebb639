/** Sorting the symbols by descending count: repeated selection from a linked list kept in an array. */
module HuffSorting {
  import opened Words
  import opened HuffMerging

  /** The symbols below i with nonzero counts, in ascending order. */
  function Present(freq: seq<nat>, i: nat): (s: seq<nat>)
    requires i <= |freq|
    ensures |s| <= i
  {
    if i == 0 then []
    else if freq[i - 1] > 0 then Present(freq, i - 1) + [i - 1]
    else Present(freq, i - 1)
  }

  lemma {:induction false} PresentIs(freq: seq<nat>, i: nat)
    requires i <= |freq|
    ensures forall k :: 0 <= k < |Present(freq, i)| ==> Present(freq, i)[k] < i && freq[Present(freq, i)[k]] > 0
    ensures forall c :: 0 <= c < i && freq[c] > 0 ==> c in Present(freq, i)
    ensures forall k, l :: 0 <= k < l < |Present(freq, i)| ==> Present(freq, i)[k] < Present(freq, i)[l]
  {
    if i > 0 {
      PresentIs(freq, i - 1);
    }
  }

  /** More frequent symbols come first, and smaller ones among equally frequent ones. */
  predicate Before(freq: seq<nat>, a: nat, b: nat)
    requires a < |freq| && b < |freq|
  {
    freq[a] > freq[b] || (freq[a] == freq[b] && a < b)
  }

  predicate Ordered(freq: seq<nat>, vals: seq<nat>) {
    && (forall k :: 0 <= k < |vals| ==> vals[k] < |freq|)
    && forall k, l :: 0 <= k < l < |vals| ==> Before(freq, vals[k], vals[l])
  }

  /** All the symbols with nonzero counts, once each, in order. */
  ghost predicate Ranking(freq: seq<nat>, vals: seq<nat>) {
    && |freq| == SYMBOLS && Ordered(freq, vals)
    && forall s :: s in vals <==> 0 <= s < 256 && freq[s] > 0
  }

  predicate Ascending(s: seq<nat>) {
    && (forall k :: 0 <= k < |s| ==> s[k] < 256)
    && forall k, l :: 0 <= k < l < |s| ==> s[k] < s[l]
  }

  /** done is in order and everything in it comes before everything in list. */
  ghost predicate Selected(freq: seq<nat>, done: seq<nat>, list: seq<nat>) {
    && |freq| == SYMBOLS && Ordered(freq, done) && Ascending(list)
    && (forall k, l :: 0 <= k < |done| && 0 <= l < |list| ==> Before(freq, done[k], list[l]))
    && (forall s :: s in done || s in list <==> 0 <= s < 256 && freq[s] > 0)
    && |done| + |list| == |Present(freq, 256)|
  }

  /** All links but the one of the last symbol. */
  predicate Linked(others: seq<int>, chain: seq<nat>) {
    && (forall k :: 0 <= k < |chain| ==> chain[k] < |others|)
    && (forall k :: 0 <= k < |chain| - 1 ==> others[chain[k]] == chain[k + 1])
    && forall k, l :: 0 <= k < l < |chain| ==> chain[k] != chain[l]
  }

  lemma LinkMore(others: seq<int>, chain: seq<nat>, i: nat)
    requires chain != [] && Linked(others, chain) && i < |others| && i !in chain
    ensures Linked(others[chain[|chain| - 1] := i], chain + [i])
  {
  }

  lemma LinkLast(others: seq<int>, chain: seq<nat>)
    requires chain != [] && Linked(others, chain)
    ensures Chain(others[chain[|chain| - 1] := -1], chain, chain[0])
  {
    var linked := others[chain[|chain| - 1] := -1];
    forall k | 0 <= k < |chain|
      ensures LinkAt(linked, chain, k)
    {
    }
  }

  /** Links the symbols with nonzero counts, starting from entry 256; the count of 256 ends the search. */
  method BuildList(freq: array<nat>) returns (others: array<int>)
    requires freq.Length == SYMBOLS && freq[256] > 0
    ensures fresh(others) && others.Length == SYMBOLS && Chain(others[..], [256] + Present(freq[..], 256), 256)
  {
    hide Present, Linked, Chain;
    others := new int[SYMBOLS](_ => -1);
    var j: nat := 256;
    ghost var chain := [256];
    var i := 0;
    PresentSteps(freq[..], 0);
    StartLinked(others[..]);
    while i <= 255
      invariant 0 <= i <= 256 && chain == [256] + Present(freq[..], i)
      invariant Linked(others[..], chain) && j == chain[|chain| - 1] < SYMBOLS
    {
      PresentSteps(freq[..], i);
      if freq[i] != 0 {
        ghost var links := others[..];
        LinkMore(links, chain, i);
        chain := chain + [i];
        others[j] := i;
        assert others[..] == links[j := i];
        j := i;
      }
      i := i + 1;
    }
    LinkLast(others[..], chain);
    ghost var links := others[..];
    others[j] := -1;
    assert others[..] == links[j := -1];
  }

  lemma PresentSteps(freq: seq<nat>, i: nat)
    requires |freq| == SYMBOLS && i <= 256
    ensures Present(freq, 0) == []
    ensures Present(freq, i + 1) == if freq[i] > 0 then Present(freq, i) + [i] else Present(freq, i)
    ensures i < 256 ==> i !in [256] + Present(freq, i)
  {
    PresentIs(freq, i);
    hide Present;
    PresentUnroll(freq, i);
  }

  lemma PresentUnroll(freq: seq<nat>, i: nat)
    requires i < |freq|
    ensures Present(freq, 0) == []
    ensures Present(freq, i + 1) == if freq[i] > 0 then Present(freq, i) + [i] else Present(freq, i)
  {
  }

  lemma StartLinked(others: seq<int>)
    requires |others| == SYMBOLS
    ensures Linked(others, [256])
  {
  }

  /** Of the symbols in chain from position 1 to n - 1, the one at q comes before the others. */
  predicate Best(freq: seq<nat>, chain: seq<nat>, n: nat, q: nat) {
    && 1 <= q < n <= |chain| && (forall k :: 0 <= k < |chain| ==> chain[k] < |freq|)
    && forall k :: 1 <= k < n && k != q ==> Before(freq, chain[q], chain[k])
  }

  lemma BestFirst(freq: seq<nat>, list: seq<nat>)
    requires |freq| == SYMBOLS && list != [] && Ascending(list)
    ensures Best(freq, [256] + list, 2, 1)
  {
  }

  /** Later symbols of a list are larger, so that an earlier one stays best unless the count is greater. */
  lemma BestMore(freq: seq<nat>, list: seq<nat>, n: nat, q: nat)
    requires |freq| == SYMBOLS && Ascending(list) && Best(freq, [256] + list, n, q) && n <= |list|
    ensures var chain := [256] + list;
            chain[n] < 256 && Best(freq, chain, n + 1, if freq[chain[n]] > freq[chain[q]] then n else q)
  {
    var chain := [256] + list;
    assert chain[q] == list[q - 1] && chain[n] == list[n - 1];
  }

  /** Finds the most frequent symbol of a nonempty list; j is the entry that links to it. */
  method SelectBest(freq: array<nat>, others: array<int>, ghost list: seq<nat>) returns (i: nat, j: nat, ghost q: nat)
    requires freq.Length == others.Length == SYMBOLS && list != [] && Ascending(list)
    requires Chain(others[..], [256] + list, 256)
    ensures Best(freq[..], [256] + list, |list| + 1, q) && i == list[q - 1] && j == ([256] + list)[q - 1]
  {
    hide Chain, Before, Best;
    ghost var chain := [256] + list;
    BestFirst(freq[..], list);
    ChainEnds(others[..], chain, 256, 0);
    var c1: nat := others[256];
    var v := freq[c1];
    i, j, q := c1, 256, 1;
    ghost var k := 1;
    ChainEnds(others[..], chain, 256, 1);
    while others[c1] >= 0
      invariant 1 <= k < |chain| && c1 == chain[k] < 256
      invariant 1 <= q <= k && Best(freq[..], chain, k + 1, q) && i == chain[q] && j == chain[q - 1] && v == freq[i]
      decreases |chain| - k
    {
      ChainEnds(others[..], chain, 256, k);
      var c2: nat := others[c1];
      BestMore(freq[..], list, k + 1, q);
      if freq[c2] > v {
        v := freq[c2];
        i := c2;
        j := c1;
        q := k + 1;
      }
      c1 := c2;
      k := k + 1;
    }
    ChainEnds(others[..], chain, 256, k);
  }

  lemma Unlink(others: seq<int>, chain: seq<nat>, q: nat)
    requires chain != [] && 1 <= q < |chain| && Chain(others, chain, chain[0])
    ensures chain[q] < |others| && chain[q - 1] < |others|
    ensures Chain(others[chain[q - 1] := others[chain[q]]], chain[..q] + chain[q + 1..], chain[0])
  {
    ChainEnds(others, chain, chain[0], q);
    ChainEnds(others, chain, chain[0], q - 1);
    var linked, short := others[chain[q - 1] := others[chain[q]]], chain[..q] + chain[q + 1..];
    forall k | 0 <= k < |short|
      ensures LinkAt(linked, short, k)
    {
      ChainEnds(others, chain, chain[0], if k < q then k else k + 1);
    }
  }

  /** The selected symbol comes before all that are left. */
  lemma BestOfRest(freq: seq<nat>, list: seq<nat>, q: nat)
    requires Best(freq, [256] + list, |list| + 1, q)
    ensures 1 <= q <= |list| && list[q - 1] < |freq|
    ensures var rest := list[..q - 1] + list[q..];
            forall l :: 0 <= l < |rest| ==> rest[l] < |freq| && Before(freq, list[q - 1], rest[l])
  {
    hide Before;
    var chain, rest := [256] + list, list[..q - 1] + list[q..];
    assert chain[q] == list[q - 1];
    forall l | 0 <= l < |rest|
      ensures rest[l] < |freq| && Before(freq, list[q - 1], rest[l])
    {
      assert rest[l] == chain[if l < q - 1 then l + 1 else l + 2];
    }
  }

  lemma SelectedMore(freq: seq<nat>, done: seq<nat>, list: seq<nat>, q: nat)
    requires Selected(freq, done, list) && Best(freq, [256] + list, |list| + 1, q)
    ensures 1 <= q <= |list| && Selected(freq, done + [list[q - 1]], list[..q - 1] + list[q..])
  {
    hide Present, Before, Best;
    BestOfRest(freq, list, q);
    var i, rest := list[q - 1], list[..q - 1] + list[q..];
    var done1 := done + [i];
    assert forall l :: 0 <= l < |rest| ==> rest[l] == list[if l < q - 1 then l else l + 1];
    forall k, l | 0 <= k < |done1| && 0 <= l < |rest|
      ensures Before(freq, done1[k], rest[l])
    {
    }
    SameMembers(done, list, q - 1);
  }

  lemma SameMembers(done: seq<nat>, list: seq<nat>, q: nat)
    requires q < |list|
    ensures forall s :: s in done + [list[q]] || s in list[..q] + list[q + 1..] <==> s in done || s in list
  {
    assert list == list[..q] + [list[q]] + list[q + 1..];
  }

  /** Enters the symbols with nonzero counts into huffval in order of descending count. */
  method SortSymbols(freq: array<nat>, huffval: array<byte>) returns (ghost vals: seq<nat>)
    requires freq.Length == SYMBOLS && freq[256] > 0 && huffval.Length == 256
    modifies huffval
    ensures Ranking(freq[..], vals) && |vals| == |Present(freq[..], 256)| <= 256
    ensures forall k :: 0 <= k < |vals| ==> huffval[k] == vals[k]
  {
    hide Present, Chain, Ordered, Before, Best;
    var others := BuildList(freq);
    ghost var list := Present(freq[..], 256);
    StartSelected(freq[..]);
    vals := [];
    var p := 0;
    while others[256] >= 0
      invariant others.Length == SYMBOLS && fresh(others) && Chain(others[..], [256] + list, 256)
      invariant Selected(freq[..], vals, list) && p == |vals|
      invariant forall k :: 0 <= k < p ==> k < 256 && huffval[k] == vals[k]
      decreases |list|
    {
      ListEnds(others[..], list);
      FewSymbols(freq[..]);
      var i, j;
      ghost var q;
      i, j, q := SelectBest(freq, others, list);
      BestOfRest(freq[..], list, q);
      ghost var links, chain := others[..], [256] + list;
      Unlink(links, chain, q);
      SelectedMore(freq[..], vals, list, q);
      others[j] := others[i];
      assert others[..] == links[chain[q - 1] := links[chain[q]]];
      assert chain[..q] + chain[q + 1..] == [256] + (list[..q - 1] + list[q..]);
      huffval[p] := i;
      p := p + 1;
      vals := vals + [list[q - 1]];
      list := list[..q - 1] + list[q..];
    }
    ListEnds(others[..], list);
    FewSymbols(freq[..]);
  }

  lemma ListEnds(others: seq<int>, list: seq<nat>)
    requires |others| == SYMBOLS && Chain(others, [256] + list, 256)
    ensures others[256] < 0 <==> list == []
  {
    ChainEnds(others, [256] + list, 256, 0);
  }

  lemma StartSelected(freq: seq<nat>)
    requires |freq| == SYMBOLS
    ensures Selected(freq, [], Present(freq, 256))
  {
    PresentIs(freq, 256);
    hide Present;
  }

  lemma FewSymbols(freq: seq<nat>)
    requires |freq| == SYMBOLS
    ensures |Present(freq, 256)| <= 256
  {
  }
}
