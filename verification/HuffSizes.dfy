/** How many symbols a scan sends: at least one with each of its tables, and at most 64 for each block. */
module HuffSizes {
  import opened CodeLengths
  import opened HuffMerging
  import opened HuffLimiting
  import opened HuffOptimal
  import opened HuffTokens
  import opened HuffBlocks
  import opened HuffCounts
  import opened HuffGeneration
  import opened Coefficients

  const SYMBOLS_PER_BLOCK := 64
  const MAX_BLOCKS := 15624999  // SYMBOLS_PER_BLOCK * MAX_BLOCKS + 1 is within the search bound

  /** How many symbols of a table there are. */
  function SymbolsIn(toks: seq<Token>, dc: bool, tbl: nat): (n: nat)
  {
    if toks == [] then 0
    else (if toks[0].Symbol? && toks[0].dc == dc && toks[0].tbl == tbl then 1 else 0) + SymbolsIn(toks[1..], dc, tbl)
  }

  lemma {:induction false} SymbolsConcat(a: seq<Token>, b: seq<Token>, dc: bool, tbl: nat)
    ensures SymbolsIn(a + b, dc, tbl) == SymbolsIn(a, dc, tbl) + SymbolsIn(b, dc, tbl)
    decreases |a|
  {
    if a == [] {
      assert a + b == b;
    } else {
      assert (a + b)[1..] == a[1..] + b;
      SymbolsConcat(a[1..], b, dc, tbl);
    }
  }

  lemma OneSymbol(tok: Token, dc: bool, tbl: nat)
    ensures SymbolsIn([tok], dc, tbl) == if tok.Symbol? && tok.dc == dc && tok.tbl == tbl then 1 else 0
  {
    assert [tok][1..] == [];
  }

  lemma SymbolWithBits(tok: Token, v: int, n: nat, dc: bool, tbl: nat)
    ensures SymbolsIn([tok, Bits(v, n)], dc, tbl) == SymbolsIn([tok], dc, tbl)
  {
    assert [tok] + [Bits(v, n)] == [tok, Bits(v, n)];
    SymbolsConcat([tok], [Bits(v, n)], dc, tbl);
    OneSymbol(Bits(v, n), dc, tbl);
  }

  // ---------------------------------------------------------------------------------------------
  // Counts
  // ---------------------------------------------------------------------------------------------

  /** The counts of one table. */
  function CountsFor(t: Tally, dc: bool, tbl: nat): (freq: seq<nat>)
    requires IsTally(t) && Keeps(t, dc, tbl)
    ensures |freq| == SYMBOLS
  {
    if dc then t.dc[tbl] else t.ac[tbl]
  }

  lemma AddOne(t: Tally, tok: Token, dc: bool, tbl: nat)
    requires IsTally(t) && Keeps(t, dc, tbl)
    ensures var f := CountsFor(Add(t, tok), dc, tbl);
            && f[256] == CountsFor(t, dc, tbl)[256]
            && Sum(f) == Sum(CountsFor(t, dc, tbl)) + if tok.Symbol? && tok.dc == dc && tok.tbl == tbl then 1 else 0
  {
    hide Sum;
    if tok.Symbol? && tok.dc == dc && tok.tbl == tbl {
      var f := CountsFor(t, dc, tbl);
      SumUpdate(f, tok.s, f[tok.s] + 1);
    }
  }

  /** The counts of a table add up to the number of its symbols. */
  lemma {:induction false} SumOfCounts(t: Tally, toks: seq<Token>, dc: bool, tbl: nat)
    requires IsTally(t) && Keeps(t, dc, tbl)
    ensures Sum(CountsFor(AddAll(t, toks), dc, tbl)) == Sum(CountsFor(t, dc, tbl)) + SymbolsIn(toks, dc, tbl)
    ensures CountsFor(AddAll(t, toks), dc, tbl)[256] == CountsFor(t, dc, tbl)[256]
    decreases |toks|
  {
    hide Add, Sum, CountsFor;
    if toks != [] {
      AddOne(t, toks[0], dc, tbl);
      SumOfCounts(Add(t, toks[0]), toks[1..], dc, tbl);
    }
  }

  lemma {:induction false} NoneUsed(freq: seq<nat>, n: nat)
    requires n <= |freq| && Used(freq, n) == 0
    ensures forall s :: 0 <= s < n ==> freq[s] == 0
  {
    if n > 0 {
      NoneUsed(freq, n - 1);
    }
  }

  /** The search for the lightest sees enough of the counts. */
  predicate InReach(freq: seq<nat>) {
    |freq| == SYMBOLS && Searchable(WithPseudo(freq))
  }

  lemma CountsSummed(books: Books, toks: seq<Token>, dc: bool, tbl: nat)
    requires Keeps(CountsOf(books, toks), dc, tbl)
    ensures var f := CountsFor(CountsOf(books, toks), dc, tbl);
            f[256] == 0 && Sum(f) == SymbolsIn(toks, dc, tbl) && Sum(WithPseudo(f)) == Sum(f) + 1
  {
    hide Sum, AddAll;
    var none := NoCounts(|books.dc|, |books.ac|);
    SumOfCounts(none, toks, dc, tbl);
    SumOfZeros(CountsFor(none, dc, tbl));
    SumUpdate(CountsFor(CountsOf(books, toks), dc, tbl), 256, 1);
  }

  /** A table with some symbols, but not too many, has counts that generation takes. */
  lemma SomeCountable(books: Books, toks: seq<Token>, dc: bool, tbl: nat)
    requires Keeps(CountsOf(books, toks), dc, tbl) && SymbolsIn(toks, dc, tbl) >= 1
    requires InReach(CountsFor(CountsOf(books, toks), dc, tbl)) || SymbolsIn(toks, dc, tbl) < SEARCH_BOUND
    ensures Countable(CountsFor(CountsOf(books, toks), dc, tbl))
  {
    hide Sum, CountsOf, CountsFor, Searchable;
    var f := CountsFor(CountsOf(books, toks), dc, tbl);
    CountsSummed(books, toks, dc, tbl);
    if SymbolsIn(toks, dc, tbl) < SEARCH_BOUND {
      SmallIsSearchable(WithPseudo(f));
    }
    if Used(f, 256) == 0 {
      NoneUsed(f, 256);
      SumOfZeros(f);
    }
  }

  // ---------------------------------------------------------------------------------------------
  // Restart intervals
  // ---------------------------------------------------------------------------------------------

  /** No interval sends more symbols of a table than its blocks may. */
  predicate WithinBlocks(lists: seq<seq<Token>>, blocks: seq<nat>, dc: bool, tbl: nat) {
    |lists| == |blocks| && forall i :: 0 <= i < |lists| ==>
      SymbolsIn(lists[i], dc, tbl) <= SYMBOLS_PER_BLOCK * blocks[i]
  }

  lemma {:induction false} JoinedWithin(lists: seq<seq<Token>>, blocks: seq<nat>, dc: bool, tbl: nat)
    requires WithinBlocks(lists, blocks, dc, tbl)
    ensures SymbolsIn(Joined(lists), dc, tbl) <= SYMBOLS_PER_BLOCK * Sum(blocks)
    decreases |lists|
  {
    if lists != [] {
      var n := |lists| - 1;
      JoinedWithin(lists[..n], blocks[..n], dc, tbl);
      SymbolsConcat(Joined(lists[..n]), lists[n], dc, tbl);
    }
  }

  lemma {:induction false} JoinedSome(lists: seq<seq<Token>>, i: nat, dc: bool, tbl: nat)
    requires i < |lists| && SymbolsIn(lists[i], dc, tbl) >= 1
    ensures SymbolsIn(Joined(lists), dc, tbl) >= 1
    decreases |lists|
  {
    var n := |lists| - 1;
    SymbolsConcat(Joined(lists[..n]), lists[n], dc, tbl);
    if i < n {
      JoinedSome(lists[..n], i, dc, tbl);
    }
  }

  lemma {:induction false} SomeBlocks(blocks: seq<nat>) returns (i: nat)
    requires Sum(blocks) > 0
    ensures i < |blocks| && blocks[i] > 0
  {
    var n := |blocks| - 1;
    if blocks[n] > 0 {
      i := n;
    } else {
      i := SomeBlocks(blocks[..n]);
    }
  }

  lemma FaultFree(lists: seq<seq<Token>>, i: nat)
    requires i < |lists| && Fault !in Joined(lists)
    ensures Fault !in lists[i]
  {
    EachIn(lists, i);
  }

  /** The search sees enough of the counts of each selected table. */
  predicate AllInReach(sel: Selection, t: Tally) {
    && (forall i :: 0 <= i < |t.dc| && Selects(sel, true, i) ==> InReach(t.dc[i]))
    && (forall i :: 0 <= i < |t.ac| && Selects(sel, false, i) ==> InReach(t.ac[i]))
  }

  /**
   * A scan is not empty, and it has at most 15624999 blocks, or else the search sees enough of its counts all the same.
   */
  predicate FewEnough(blocks: seq<nat>, sel: Selection, t: Tally) {
    Sum(blocks) > 0 && (Sum(blocks) <= MAX_BLOCKS || AllInReach(sel, t))
  }

  /** Each interval with blocks in it sends a symbol of each selected table, and none sends too many. */
  ghost predicate Sized(sel: Selection, lists: seq<seq<Token>>, blocks: seq<nat>) {
    forall dc: bool, tbl: nat :: Selects(sel, dc, tbl) ==>
                                   && WithinBlocks(lists, blocks, dc, tbl)
                                   && forall i :: 0 <= i < |lists| && blocks[i] > 0 ==>
                                      SymbolsIn(lists[i], dc, tbl) >= 1
  }

  /** So the statistics of a scan are always such that tables can be generated for them. */
  lemma SizedIsCountable(books: Books, sel: Selection, lists: seq<seq<Token>>, blocks: seq<nat>)
    requires Sized(sel, lists, blocks) && FewEnough(blocks, sel, CountsOf(books, Joined(lists)))
    ensures AllCountable(sel, CountsOf(books, Joined(lists)))
  {
    hide Sum, CountsOf, Joined, Selects, Countable, InReach;
    var t := CountsOf(books, Joined(lists));
    var i := SomeBlocks(blocks);
    forall dc: bool, tbl: nat | Keeps(t, dc, tbl) && Selects(sel, dc, tbl)
      ensures Countable(CountsFor(t, dc, tbl))
    {
      JoinedWithin(lists, blocks, dc, tbl);
      JoinedSome(lists, i, dc, tbl);
      SomeCountable(books, Joined(lists), dc, tbl);
    }
    assert forall j :: 0 <= j < |t.dc| ==> Keeps(t, true, j) && CountsFor(t, true, j) == t.dc[j];
    assert forall j :: 0 <= j < |t.ac| ==> Keeps(t, false, j) && CountsFor(t, false, j) == t.ac[j];
  }

  // ---------------------------------------------------------------------------------------------
  // One block
  // ---------------------------------------------------------------------------------------------

  /** Every symbol takes a position of the block. */
  lemma {:induction false} AcAtMost(a: nat, maxBits: nat, z: seq<Coef>, k: nat, r: nat, dc: bool, tbl: nat)
    requires maxBits <= 15 && k <= |z|
    ensures SymbolsIn(AcTokens(a, maxBits, z, k, r), dc, tbl) <= if dc || a != tbl then 0 else |z| - k + r
    decreases |z| - k, r
  {
    hide AcTokens, SymbolsIn, CoefTokens;
    AcUnroll(a, maxBits, z, k, r);
    NoSymbols(dc, tbl);
    if k == |z| {
      OneSymbol(Symbol(false, a, EOB), dc, tbl);
    } else if z[k] == 0 {
      AcAtMost(a, maxBits, z, k + 1, r + 1, dc, tbl);
    } else if r > 15 {
      AcAtMost(a, maxBits, z, k, r - 16, dc, tbl);
      OneSymbol(Symbol(false, a, ZRL), dc, tbl);
      SymbolsConcat([Symbol(false, a, ZRL)], AcTokens(a, maxBits, z, k, r - 16), dc, tbl);
    } else {
      AcAtMost(a, maxBits, z, k + 1, 0, dc, tbl);
      CoefAtMost(a, maxBits, z[k], r, dc, tbl);
      SymbolsConcat(CoefTokens(a, maxBits, z[k], r), AcTokens(a, maxBits, z, k + 1, 0), dc, tbl);
    }
  }

  lemma NoSymbols(dc: bool, tbl: nat)
    ensures SymbolsIn([], dc, tbl) == 0
  {
  }

  lemma CoefAtMost(a: nat, maxBits: nat, v: Coef, r: nat, dc: bool, tbl: nat)
    requires maxBits <= 15 && r <= 15
    ensures SymbolsIn(CoefTokens(a, maxBits, v, r), dc, tbl) <= if dc || a != tbl then 0 else 1
    ensures Fault !in CoefTokens(a, maxBits, v, r) ==> SymbolsIn(CoefTokens(a, maxBits, v, r), false, a) == 1
  {
    hide NumBits, SymbolsIn;
    var n := NumBits(Magnitude(v));
    OneSymbol(Fault, dc, tbl);
    if n < maxBits {
      var tok := Symbol(false, a, 16 * r + n);
      SymbolWithBits(tok, Appended(v), n, dc, tbl);
      SymbolWithBits(tok, Appended(v), n, false, a);
      OneSymbol(tok, dc, tbl);
      OneSymbol(tok, false, a);
    }
  }

  /** Unless everything has been sent, a symbol is due. */
  lemma {:induction false} AcAtLeast(a: nat, maxBits: nat, z: seq<Coef>, k: nat, r: nat)
    requires maxBits <= 15 && k <= |z| && (k < |z| || r > 0) && Fault !in AcTokens(a, maxBits, z, k, r)
    ensures SymbolsIn(AcTokens(a, maxBits, z, k, r), false, a) >= 1
    decreases |z| - k
  {
    hide AcTokens, SymbolsIn, CoefTokens;
    AcUnroll(a, maxBits, z, k, r);
    OneSymbol(Symbol(false, a, EOB), false, a);
    OneSymbol(Symbol(false, a, ZRL), false, a);
    if k < |z| {
      if z[k] == 0 {
        AcAtLeast(a, maxBits, z, k + 1, r + 1);
      } else if r > 15 {
        SymbolsConcat([Symbol(false, a, ZRL)], AcTokens(a, maxBits, z, k, r - 16), false, a);
      } else {
        CoefAtMost(a, maxBits, z[k], r, false, a);
        SymbolsConcat(CoefTokens(a, maxBits, z[k], r), AcTokens(a, maxBits, z, k + 1, 0), false, a);
      }
    }
  }

  lemma DcAtMost(d: nat, diff: int, maxBits: nat, dc: bool, tbl: nat)
    requires maxBits <= 15
    ensures SymbolsIn(DcTokens(d, diff, maxBits), dc, tbl) <= if !dc || d != tbl then 0 else 1
    ensures Fault !in DcTokens(d, diff, maxBits) ==> SymbolsIn(DcTokens(d, diff, maxBits), true, d) == 1
  {
    hide NumBits, SymbolsIn;
    var n := NumBits(Magnitude(diff));
    OneSymbol(Fault, dc, tbl);
    if n <= maxBits {
      var tok := Symbol(true, d, n);
      SymbolWithBits(tok, Appended(diff), n, dc, tbl);
      SymbolWithBits(tok, Appended(diff), n, true, d);
      OneSymbol(tok, dc, tbl);
      OneSymbol(tok, true, d);
    }
  }
}
