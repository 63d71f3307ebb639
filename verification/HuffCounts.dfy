/** How often each symbol of each table occurs. */
module HuffCounts {
  import opened Words
  import opened HuffMerging
  import opened HuffTokens

  /** Symbol counts for the DC and AC tables. */
  datatype Tally = Tally(dc: seq<seq<nat>>, ac: seq<seq<nat>>)

  predicate IsTally(t: Tally) {
    && (forall i :: 0 <= i < |t.dc| ==> |t.dc[i]| == SYMBOLS)
    && (forall i :: 0 <= i < |t.ac| ==> |t.ac[i]| == SYMBOLS)
  }

  /** There are counts for the table. */
  predicate Keeps(t: Tally, dc: bool, tbl: nat) {
    tbl < (if dc then |t.dc| else |t.ac|)
  }

  /** There are counts for as many tables as books has. */
  predicate Matches(t: Tally, books: Books) {
    IsTally(t) && |t.dc| == |books.dc| && |t.ac| == |books.ac|
  }

  /** The tally with one more occurrence of a symbol. */
  function Add(t: Tally, tok: Token): (u: Tally)
    requires IsTally(t)
    ensures IsTally(u) && |u.dc| == |t.dc| && |u.ac| == |t.ac|
  {
    match tok
    case Symbol(dc, tbl, s) =>
      if !Keeps(t, dc, tbl) then t
      else if dc then t.(dc := t.dc[tbl := t.dc[tbl][s := t.dc[tbl][s] + 1]])
      else t.(ac := t.ac[tbl := t.ac[tbl][s := t.ac[tbl][s] + 1]])
    case _ => t
  }

  function AddAll(t: Tally, toks: seq<Token>): (u: Tally)
    requires IsTally(t)
    ensures IsTally(u) && |u.dc| == |t.dc| && |u.ac| == |t.ac|
    decreases |toks|
  {
    if toks == [] then t else AddAll(Add(t, toks[0]), toks[1..])
  }

  /** How often a symbol of one table occurs. */
  function Occurrences(toks: seq<Token>, tok: Token): (n: nat)
  {
    if toks == [] then 0 else (if toks[0] == tok then 1 else 0) + Occurrences(toks[1..], tok)
  }

  function CountOf(t: Tally, dc: bool, tbl: nat, s: byte): (n: nat)
    requires IsTally(t) && Keeps(t, dc, tbl)
  {
    if dc then t.dc[tbl][s] else t.ac[tbl][s]
  }

  lemma AddCounts(t: Tally, tok: Token, dc: bool, tbl: nat, s: byte)
    requires IsTally(t) && Keeps(t, dc, tbl)
    ensures CountOf(Add(t, tok), dc, tbl, s) == CountOf(t, dc, tbl, s) + if tok == Symbol(dc, tbl, s) then 1 else 0
  {
  }

  /** The tally of a token sequence is the multiset of its symbols. */
  lemma {:induction false} AddAllCounts(t: Tally, toks: seq<Token>, dc: bool, tbl: nat, s: byte)
    requires IsTally(t) && Keeps(t, dc, tbl)
    ensures CountOf(AddAll(t, toks), dc, tbl, s) == CountOf(t, dc, tbl, s) + Occurrences(toks, Symbol(dc, tbl, s))
    decreases |toks|
  {
    hide Add;
    if toks != [] {
      AddCounts(t, toks[0], dc, tbl, s);
      AddAllCounts(Add(t, toks[0]), toks[1..], dc, tbl, s);
    }
  }

  lemma AddHead(t: Tally, tok: Token, rest: seq<Token>)
    requires IsTally(t)
    ensures AddAll(t, [tok] + rest) == AddAll(Add(t, tok), rest)
    ensures AddAll(t, []) == t
  {
    assert ([tok] + rest)[1..] == rest;
  }

  lemma {:induction false} AddConcat(t: Tally, a: seq<Token>, b: seq<Token>)
    requires IsTally(t)
    ensures AddAll(t, a + b) == AddAll(AddAll(t, a), b)
    decreases |a|
  {
    hide Add;
    if a == [] {
      assert a + b == b;
    } else {
      AddConcat(Add(t, a[0]), a[1..], b);
      assert (a + b)[1..] == a[1..] + b;
    }
  }

  lemma AddLast(t: Tally, toks: seq<Token>, tok: Token)
    requires IsTally(t)
    ensures AddAll(t, toks + [tok]) == Add(AddAll(t, toks), tok)
    ensures AddAll(t, []) == t
  {
    hide Add;
    AddConcat(t, toks, [tok]);
    assert [tok][1..] == [];
  }

  lemma {:induction false} Occurs(toks: seq<Token>, tok: Token)
    requires tok in toks
    ensures Occurrences(toks, tok) > 0
    decreases |toks|
  {
    if toks[0] != tok {
      Occurs(toks[1..], tok);
    }
  }

  lemma {:induction false} OccursNot(toks: seq<Token>, tok: Token)
    requires tok !in toks
    ensures Occurrences(toks, tok) == 0
    decreases |toks|
  {
    if toks != [] {
      OccursNot(toks[1..], tok);
    }
  }

  /** Counts of no symbols, for given numbers of tables. */
  function NoCounts(dcs: nat, acs: nat): (t: Tally)
    ensures IsTally(t) && |t.dc| == dcs && |t.ac| == acs
  {
    Tally(seq(dcs, _ => seq(SYMBOLS, _ => 0)), seq(acs, _ => seq(SYMBOLS, _ => 0)))
  }

  /** Counted from nothing, a tally is the multiset of symbols. */
  lemma TallyIs(dcs: nat, acs: nat, toks: seq<Token>, dc: bool, tbl: nat, s: byte)
    requires Keeps(NoCounts(dcs, acs), dc, tbl)
    ensures CountOf(AddAll(NoCounts(dcs, acs), toks), dc, tbl, s) == Occurrences(toks, Symbol(dc, tbl, s))
  {
    hide AddAll, Occurrences;
    AddAllCounts(NoCounts(dcs, acs), toks, dc, tbl, s);
    assert CountOf(NoCounts(dcs, acs), dc, tbl, s) == 0;
  }
}
