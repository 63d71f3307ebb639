/** Generating the tables of a scan from its statistics, and why its output pass cannot meet a symbol without a code. */
module HuffGeneration {
  import opened Words
  import opened ByteStuffing
  import opened CodeLengths
  import opened HuffTables
  import opened HuffDerived
  import opened HuffMerging
  import opened HuffLimiting
  import opened HuffSorting
  import opened HuffBitWriter
  import opened HuffOptimal
  import opened HuffTokens
  import opened HuffCounts

  /** The tables that a scan uses. */
  datatype Selection = Selection(dc: seq<nat>, ac: seq<nat>)

  predicate Selects(sel: Selection, dc: bool, tbl: nat) {
    tbl in (if dc then sel.dc else sel.ac)
  }

  /** A symbol of a selected table: the category of a DC difference, or a run and a category of at most 14. */
  predicate Uses(sel: Selection, tok: Token) {
    match tok
    case Symbol(dc, tbl, s) => Selects(sel, dc, tbl) && if dc then s <= 15 else s % 16 <= 14
    case Bits(_, n) => 1 <= n <= 16
    case Fault => true
  }

  predicate UsesOnly(sel: Selection, toks: seq<Token>) {
    forall tok :: tok in toks ==> Uses(sel, tok)
  }

  lemma UsesConcat(sel: Selection, a: seq<Token>, b: seq<Token>)
    ensures UsesOnly(sel, a) && UsesOnly(sel, b) ==> UsesOnly(sel, a + b)
  {
    hide Uses;
  }

  /** Everything sent in some intervals, one after the other. */
  function Joined(lists: seq<seq<Token>>): (toks: seq<Token>)
  {
    if lists == [] then [] else Joined(lists[..|lists| - 1]) + lists[|lists| - 1]
  }

  lemma {:induction false} EachIn(lists: seq<seq<Token>>, i: nat)
    requires i < |lists|
    ensures PartOf(lists[i], Joined(lists))
    decreases |lists|
  {
    if i < |lists| - 1 {
      EachIn(lists[..|lists| - 1], i);
    }
  }

  lemma JoinedNext(lists: seq<seq<Token>>, i: nat)
    requires i < |lists|
    ensures Joined(lists[..i + 1]) == Joined(lists[..i]) + lists[i] && Joined(lists[..0]) == []
      && lists[..|lists|] == lists
  {
    assert lists[..i + 1][..i] == lists[..i];
  }

  lemma {:induction false} JoinedUses(sel: Selection, lists: seq<seq<Token>>)
    requires forall i :: 0 <= i < |lists| ==> UsesOnly(sel, lists[i])
    ensures UsesOnly(sel, Joined(lists))
    decreases |lists|
  {
    hide Uses;
    if lists != [] {
      JoinedUses(sel, lists[..|lists| - 1]);
    }
  }

  /** What a statistics pass over toks counts, for as many tables as books has. */
  function CountsOf(books: Books, toks: seq<Token>): (t: Tally)
    ensures Matches(t, books)
  {
    AddAll(NoCounts(|books.dc|, |books.ac|), toks)
  }

  predicate InRange(sel: Selection, books: Books) {
    && (forall k :: 0 <= k < |sel.dc| ==> sel.dc[k] < |books.dc|)
    && (forall k :: 0 <= k < |sel.ac| ==> sel.ac[k] < |books.ac|)
  }

  /** At least one symbol, and counts the search for the lightest can see. */
  predicate Countable(freq: seq<nat>) {
    |freq| == SYMBOLS && 1 <= Used(freq, 256) && Searchable(WithPseudo(freq))
  }

  predicate AllCountable(sel: Selection, t: Tally) {
    && (forall i :: 0 <= i < |t.dc| && Selects(sel, true, i) ==> Countable(t.dc[i]))
    && (forall i :: 0 <= i < |t.ac| && Selects(sel, false, i) ==> Countable(t.ac[i]))
  }

  /** No optimal code length of a selected table exceeds 32. */
  predicate AllLimitable(sel: Selection, t: Tally)
    requires IsTally(t)
  {
    && (forall i :: 0 <= i < |t.dc| && Selects(sel, true, i) ==> Limitable(t.dc[i]))
    && (forall i :: 0 <= i < |t.ac| && Selects(sel, false, i) ==> Limitable(t.ac[i]))
  }

  /** The selected tables were generated for the counts t. */
  ghost predicate GeneratedFor(sel: Selection, books: Books, t: Tally)
    requires Matches(t, books)
  {
    && (forall i :: 0 <= i < |books.dc| && Selects(sel, true, i) ==> Serves(books.dc[i], WithPseudo(t.dc[i])))
    && (forall i :: 0 <= i < |books.ac| && Selects(sel, false, i) ==> Serves(books.ac[i], WithPseudo(t.ac[i])))
  }

  // ---------------------------------------------------------------------------------------------
  // Counts that a scan can have
  // ---------------------------------------------------------------------------------------------

  /** Counts that leave out the symbols of category 15, but for DC symbol 15. */
  predicate Plausible(freq: seq<nat>, isDC: bool) {
    && |freq| == SYMBOLS
    && (isDC ==> forall s :: 16 <= s < 256 ==> freq[s] == 0)
    && (!isDC ==> forall s :: 0 <= s < 256 && s % 16 == 15 ==> freq[s] == 0)
  }

  lemma CountsPlausible(sel: Selection, books: Books, toks: seq<Token>, dc: bool, tbl: nat)
    requires UsesOnly(sel, toks) && Keeps(CountsOf(books, toks), dc, tbl)
    ensures Plausible(if dc then CountsOf(books, toks).dc[tbl] else CountsOf(books, toks).ac[tbl], dc)
  {
    hide AddAll, Selects, Occurrences;
    var t := CountsOf(books, toks);
    var freq := if dc then t.dc[tbl] else t.ac[tbl];
    forall s: int | 0 <= s < 256 && if dc then s >= 16 else s % 16 == 15
      ensures freq[s] == 0
    {
      assert !Uses(sel, Symbol(dc, tbl, s));
      OccursNot(toks, Symbol(dc, tbl, s));
      TallyIs(|books.dc|, |books.ac|, toks, dc, tbl, s);
    }
  }

  /** Two symbols are never used, so there are at most 254. */
  lemma {:induction false} UsedBelow(freq: seq<nat>, n: nat)
    requires n <= |freq| && (31 < |freq| ==> freq[15] == 0 && freq[31] == 0)
    ensures Used(freq, n) <= n
    ensures n > 31 ==> Used(freq, n) <= n - 2
    ensures 31 >= n > 15 && |freq| > 31 ==> Used(freq, n) <= n - 1
  {
    if n > 0 {
      UsedBelow(freq, n - 1);
    }
  }

  lemma {:induction false} UsedDc(freq: seq<nat>, n: nat)
    requires n <= |freq| == SYMBOLS && n <= 256 && forall s :: 16 <= s < 256 ==> freq[s] == 0
    ensures Used(freq, n) <= 16 && Used(freq, n) <= n
  {
    if n > 0 {
      UsedDc(freq, n - 1);
    }
  }

  lemma PlausibleIsAdmissible(freq: seq<nat>, isDC: bool)
    requires Countable(freq) && Plausible(freq, isDC)
    ensures Admissible(freq)
  {
    hide Sum, Used;
    if isDC {
      UsedDc(freq, 256);
    } else {
      assert 15 % 16 == 15 && 31 % 16 == 15;
      UsedBelow(freq, 256);
    }
  }

  // ---------------------------------------------------------------------------------------------
  // Generation
  // ---------------------------------------------------------------------------------------------

  /**
   * Generates one table, unless an optimal code length exceeds 32; the counts are used up by it, so a copy is passed.
   */
  method GenTable(htbl: Table, counts: seq<nat>) returns (ok: bool, t: Table)
    requires IsTable(htbl) && Admissible(counts)
    ensures |counts| == SYMBOLS && (ok <==> Limitable(counts))
    ensures ok ==> Serves(t, WithPseudo(counts))
  {
    hide Admissible, Serves, Optimal, Limitable;
    AdmissibleLength(counts);
    var freq := new nat[SYMBOLS](i requires 0 <= i < SYMBOLS => counts[i]);
    assert freq[..] == counts;
    ok, t := GenOptimalTable(htbl, freq);
  }

  lemma AdmissibleLength(counts: seq<nat>)
    requires Admissible(counts)
    ensures |counts| == SYMBOLS
  {
  }

  /** Generates the selected tables of one kind, each once; fails exactly if one of them has too long a code. */
  method GenTables(htbls: seq<Table>, counts: seq<seq<nat>>, selected: seq<nat>, isDC: bool)
    returns (ok: bool, tables: seq<Table>)
    requires |htbls| == |counts|
    requires forall i :: 0 <= i < |htbls| ==>
      ProperTable(htbls[i], isDC) && |counts[i]| == SYMBOLS && Plausible(counts[i], isDC)
    requires forall k :: 0 <= k < |selected| ==> selected[k] < |htbls| && Countable(counts[selected[k]])
    ensures ok <==> forall k :: 0 <= k < |selected| ==> Limitable(counts[selected[k]])
    ensures ok ==> |tables| == |htbls| && forall i :: 0 <= i < |tables| ==> ProperTable(tables[i], isDC)
    ensures ok ==> forall k :: 0 <= k < |selected| ==> Serves(tables[selected[k]], WithPseudo(counts[selected[k]]))
  {
    hide Countable, Serves, CountTo, Legal, ProperSymbols, Limitable, Plausible;
    tables := htbls;
    var did: seq<bool> := seq(|htbls|, _ => false);
    for k := 0 to |selected|
      invariant |tables| == |htbls| == |did|
      invariant forall i :: 0 <= i < |tables| ==> ProperTable(tables[i], isDC)
      invariant forall i :: 0 <= i < k ==> did[selected[i]]
      invariant forall i :: 0 <= i < |did| && did[i] ==>
        Limitable(counts[i]) && Serves(tables[i], WithPseudo(counts[i]))
    {
      var tbl := selected[k];
      if !did[tbl] {
        PlausibleIsAdmissible(counts[tbl], isDC);
        var t;
        ok, t := GenTable(tables[tbl], counts[tbl]);
        if !ok {
          return;
        }
        ServesProper(t, counts[tbl], isDC);
        tables := tables[tbl := t];
        did := did[tbl := true];
      }
    }
    ok := true;
  }

  lemma ServesProper(t: Table, counts: seq<nat>, isDC: bool)
    requires Plausible(counts, isDC) && Serves(t, WithPseudo(counts))
    ensures ProperTable(t, isDC)
  {
    hide CountTo, Legal, Ranking;
    ServingTableAccepted(t, WithPseudo(counts), isDC);
  }

  /** Generates the tables of a scan from the counts of its statistics pass; fails exactly if a code is too long. */
  method GenerateBooks(htbls: Books, sel: Selection, t: Tally, ghost toks: seq<Token>) returns (ok: bool, books: Books)
    requires Proper(htbls) && InRange(sel, htbls) && UsesOnly(sel, toks) && t == CountsOf(htbls, toks)
      && AllCountable(sel, t)
    ensures ok <==> AllLimitable(sel, t)
    ensures ok ==> Proper(books) && Matches(t, books) && GeneratedFor(sel, books, t)
  {
    hide ProperTable, Serves, Countable, Limitable, Plausible, UsesOnly, AddAll, WithPseudo;
    forall i | 0 <= i < |t.dc|
      ensures Plausible(t.dc[i], true)
    {
      CountsPlausible(sel, htbls, toks, true, i);
    }
    forall i | 0 <= i < |t.ac|
      ensures Plausible(t.ac[i], false)
    {
      CountsPlausible(sel, htbls, toks, false, i);
    }
    assert forall k :: 0 <= k < |sel.dc| ==> Selects(sel, true, sel.dc[k]);
    assert forall k :: 0 <= k < |sel.ac| ==> Selects(sel, false, sel.ac[k]);
    books := htbls;
    var dc, ac;
    ok, dc := GenTables(htbls.dc, t.dc, sel.dc, true);
    if ok {
      ok, ac := GenTables(htbls.ac, t.ac, sel.ac, false);
      if ok {
        books := Books(dc, ac);
      }
    }
  }

  // ---------------------------------------------------------------------------------------------
  // The output pass
  // ---------------------------------------------------------------------------------------------

  lemma CountedSymbolCoded(sel: Selection, books: Books, t: Tally, dc: bool, tbl: nat, s: byte)
    requires Proper(books) && Matches(t, books) && GeneratedFor(sel, books, t) && Has(books, dc, tbl)
    requires Selects(sel, dc, tbl) && CountOf(t, dc, tbl, s) > 0
    ensures Codes(books, Symbol(dc, tbl, s))
  {
    hide Serves, ProperTable, Selects;
    var table := BookOf(books, dc, tbl);
    CountedIsCoded(table, WithPseudo(if dc then t.dc[tbl] else t.ac[tbl]), s);
    CodedIfListed(table, dc, s);
  }

  lemma CodedIfListed(t: Table, dc: bool, s: byte)
    requires ProperTable(t, dc)
    ensures Coded(t, s) <==> exists p :: 0 <= p < Symbols(t) && t.huffval[p] == s
  {
    hide CountTo, Legal, ProperSymbols;
    var p := IndexOf(t, s, Symbols(t));
  }

  /** With tables generated for the counts of a scan, no part of the scan lacks a code. */
  lemma {:induction false} NothingMissing(sel: Selection, htbls: Books, books: Books, all: seq<Token>, toks: seq<Token>)
    requires Proper(books) && InRange(sel, books) && Matches(CountsOf(htbls, all), books)
    requires GeneratedFor(sel, books, CountsOf(htbls, all))
    requires UsesOnly(sel, all) && PartOf(toks, all) && Fault !in toks
    ensures AllCoded(books, toks)
    decreases |toks|
  {
    hide Proper, GeneratedFor, AddAll;
    if toks != [] {
      var tok := toks[0];
      assert tok in all && Uses(sel, tok);
      if tok.Symbol? {
        Occurs(all, tok);
        TallyIs(|htbls.dc|, |htbls.ac|, all, tok.dc, tok.tbl, tok.s);
        CountedSymbolCoded(sel, books, CountsOf(htbls, all), tok.dc, tok.tbl, tok.s);
      }
      NothingMissing(sel, htbls, books, all, toks[1..]);
    }
  }

  /** out is an entropy-coded segment that spells toks, all of which have codes. */
  ghost predicate Spells(books: Books, toks: seq<Token>, out: seq<byte>) {
    Proper(books) && AllCoded(books, toks) && exists data :: out == Stuff(data) && Spell(books, toks) <= Unpacked(data)
  }

  datatype Optimized =
    | CoefficientTooLarge
    | CodeTooLong
    | Written(books: Books, segments: seq<seq<byte>>)  // one segment for each restart interval

  /** What an optimizing encoder is to do with a scan that sends lists, one for each restart interval. */
  ghost predicate IsOptimized(r: Optimized, htbls: Books, sel: Selection, lists: seq<seq<Token>>) {
    var t := CountsOf(htbls, Joined(lists));
    && (r.CoefficientTooLarge? <==> Fault in Joined(lists))
    && (r.CodeTooLong? <==> Fault !in Joined(lists) && !AllLimitable(sel, t))
    && (r.Written? ==>
          && Matches(t, r.books) && GeneratedFor(sel, r.books, t)
          && |r.segments| == |lists| && forall i :: 0 <= i < |lists| ==> Spells(r.books, lists[i], r.segments[i]))
  }
}
