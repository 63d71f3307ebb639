/** What a Huffman-coded scan is made of: symbols of some table, and raw bits. */
module HuffTokens {
  import opened Integers
  import opened Words
  import opened BitStrings
  import opened HuffTables
  import opened HuffDerived
  import opened HuffBitWriter
  import opened HuffBitReader
  import opened HuffDecode

  /** Fault stands for a coefficient that is too large to code. */
  datatype Token = Symbol(dc: bool, tbl: nat, s: byte) | Bits(v: int, n: nat) | Fault

  /** The tables selected for a scan. */
  datatype Books = Books(dc: seq<Table>, ac: seq<Table>)

  predicate ProperTable(t: Table, isDC: bool) {
    IsTable(t) && Legal(t.bits) && Symbols(t) <= 256 && ProperSymbols(t, isDC, Symbols(t))
  }

  predicate Proper(books: Books) {
    && (forall i :: 0 <= i < |books.dc| ==> ProperTable(books.dc[i], true))
    && (forall i :: 0 <= i < |books.ac| ==> ProperTable(books.ac[i], false))
  }

  predicate Has(books: Books, dc: bool, tbl: nat) {
    tbl < (if dc then |books.dc| else |books.ac|)
  }

  function BookOf(books: Books, dc: bool, tbl: nat): (t: Table)
    requires Proper(books) && Has(books, dc, tbl)
    ensures ProperTable(t, dc)
  {
    if dc then books.dc[tbl] else books.ac[tbl]
  }

  /** Position of symbol s among the first n symbols of a table, n if it is not there. */
  function IndexOf(t: Table, s: byte, n: nat): (p: nat)
    requires IsTable(t) && n <= 256
    ensures p <= n && (p < n ==> t.huffval[p] == s)
    ensures p == n ==> forall q :: 0 <= q < n ==> t.huffval[q] != s
  {
    if n == 0 then 0
    else
      var p := IndexOf(t, s, n - 1);
      if p < n - 1 then p else if t.huffval[n - 1] == s then n - 1 else n
  }

  predicate Coded(t: Table, s: byte)
    requires IsTable(t) && Symbols(t) <= 256
  {
    IndexOf(t, s, Symbols(t)) < Symbols(t)
  }

  /** The code word of a symbol, empty if it has none. */
  function WordOf(t: Table, s: byte): (w: seq<bit>)
    requires IsTable(t) && Symbols(t) <= 256
  {
    if Coded(t, s) then CodeWord(t.bits, IndexOf(t, s, Symbols(t))) else []
  }

  predicate Codes(books: Books, tok: Token)
    requires Proper(books)
  {
    match tok
    case Symbol(dc, tbl, s) => Has(books, dc, tbl) && Coded(BookOf(books, dc, tbl), s)
    case Bits(_, n) => 1 <= n <= 16
    case Fault => false
  }

  function TokenBits(books: Books, tok: Token): (s: seq<bit>)
    requires Proper(books)
  {
    match tok
    case Symbol(dc, tbl, s) => if Has(books, dc, tbl) then WordOf(BookOf(books, dc, tbl), s) else []
    case Bits(v, n) => LowBits(v, n)
    case Fault => []
  }

  predicate AllCoded(books: Books, toks: seq<Token>)
    requires Proper(books)
  {
    toks == [] || (Codes(books, toks[0]) && AllCoded(books, toks[1..]))
  }

  function Spell(books: Books, toks: seq<Token>): (s: seq<bit>)
    requires Proper(books)
  {
    if toks == [] then [] else TokenBits(books, toks[0]) + Spell(books, toks[1..])
  }

  /** Every token of a occurs in b. */
  predicate PartOf(a: seq<Token>, b: seq<Token>) {
    forall tok :: tok in a ==> tok in b
  }

  lemma SpellHead(books: Books, tok: Token, rest: seq<Token>)
    requires Proper(books)
    ensures Spell(books, [tok] + rest) == TokenBits(books, tok) + Spell(books, rest)
    ensures AllCoded(books, [tok] + rest) <==> Codes(books, tok) && AllCoded(books, rest)
  {
    assert ([tok] + rest)[1..] == rest;
  }

  lemma NothingSpelled(books: Books)
    requires Proper(books)
    ensures Spell(books, []) == [] && AllCoded(books, [])
  {
  }

  lemma FaultIsUncoded(books: Books, rest: seq<Token>)
    requires Proper(books)
    ensures !AllCoded(books, [Fault] + rest)
  {
    SpellHead(books, Fault, rest);
  }

  lemma BitsAreCoded(books: Books, v: int, n: nat)
    requires Proper(books)
    ensures Codes(books, Bits(v, n)) <==> 1 <= n <= 16
  {
  }

  lemma {:induction false} SpellConcat(books: Books, a: seq<Token>, b: seq<Token>)
    requires Proper(books)
    ensures Spell(books, a + b) == Spell(books, a) + Spell(books, b)
    ensures AllCoded(books, a + b) <==> AllCoded(books, a) && AllCoded(books, b)
  {
    hide TokenBits, Codes, Proper;
    if a == [] {
      assert a + b == b;
    } else {
      SpellConcat(books, a[1..], b);
      assert (a + b)[1..] == a[1..] + b;
    }
  }

  // ---------------------------------------------------------------------------------------------
  // Emitting
  // ---------------------------------------------------------------------------------------------

  /** Derived tables for all the tables of a scan. */
  ghost predicate EncodersFor(dcTbls: seq<EncodeTable>, acTbls: seq<EncodeTable>, books: Books)
    requires Proper(books)
  {
    && |dcTbls| == |books.dc| && |acTbls| == |books.ac|
    && (forall i :: 0 <= i < |dcTbls| ==> Encodes(dcTbls[i], books.dc[i], Symbols(books.dc[i])))
    && (forall i :: 0 <= i < |acTbls| ==> Encodes(acTbls[i], books.ac[i], Symbols(books.ac[i])))
  }

  lemma EncodesMeans(e: EncodeTable, t: Table, s: byte)
    requires IsTable(t) && Legal(t.bits) && Symbols(t) <= 256 && Encodes(e, t, Symbols(t))
    ensures |e.ehufco| == |e.ehufsi| == 256 && e.ehufsi[s] <= 16
    ensures e.ehufsi[s] > 0 <==> Coded(t, s)
    ensures Coded(t, s) ==> LowBits(e.ehufco[s], e.ehufsi[s]) == WordOf(t, s)
  {
    hide LengthFrom, Code, CountTo, IndexOf, Number, Pow2;
    var p := IndexOf(t, s, Symbols(t));
    if p < Symbols(t) {
      CodeBound(t.bits, p);
      SmallMod(Code(t.bits, p), Pow2(Length(t.bits, p)));
    }
  }

  /** Emits a Huffman symbol. */
  method EmitSymbol(bw: BitWriter, e: EncodeTable, ghost t: Table, s: byte) returns (ok: bool)
    requires bw.Valid() && IsTable(t) && Legal(t.bits) && Symbols(t) <= 256 && Encodes(e, t, Symbols(t))
    modifies bw
    ensures ok <==> Coded(t, s)
    ensures ok ==> bw.Valid() && bw.sent == old(bw.sent) + WordOf(t, s)
  {
    hide BitWriter.Valid, Legal, CountTo, Coded, WordOf, Encodes, LowBits;
    EncodesMeans(e, t, s);
    ok := bw.EmitBits(e.ehufco[s], e.ehufsi[s]);
  }

  // ---------------------------------------------------------------------------------------------
  // Reading back
  // ---------------------------------------------------------------------------------------------

  /** The bits from the current position up to bit position end spell toks. */
  ghost predicate Ahead(books: Books, br: BitReader, toks: seq<Token>, end: nat)
    requires Proper(books)
    reads br`at
  {
    Carries(br.data, br.at, Spell(books, toks)) && br.at + |Spell(books, toks)| == end
  }

  lemma AheadSplit(books: Books, data: seq<byte>, at: nat, tok: Token, rest: seq<Token>)
    requires Proper(books)
    ensures Carries(data, at, Spell(books, [tok] + rest))
            <==> Carries(data, at, TokenBits(books, tok))
                 && Carries(data, at + |TokenBits(books, tok)|, Spell(books, rest))
    ensures |Spell(books, [tok] + rest)| == |TokenBits(books, tok)| + |Spell(books, rest)|
  {
    hide Spell, TokenBits, Carries;
    SpellHead(books, tok, rest);
    CarriesConcat(data, at, TokenBits(books, tok), Spell(books, rest));
  }

  /** Reads a Huffman symbol; if the stream goes on with the code word of s, that symbol is read. */
  method ReadSymbol(br: BitReader, d: DecodeTable, books: Books, dc: bool, tbl: nat,
                    ghost s: byte, ghost rest: seq<Token>, ghost end: nat)
    returns (sym: byte, bad: bool)
    requires br.Valid() && Proper(books) && Has(books, dc, tbl) && Usable(d, BookOf(books, dc, tbl))
    modifies br
    ensures br.Reached(old(br.insufficientData), br.at) && br.at >= old(br.at) && sym <= MaxSymbol(dc)
    ensures old(Ahead(books, br, [Symbol(dc, tbl, s)] + rest, end)) && Codes(books, Symbol(dc, tbl, s)) ==>
              sym == s && !bad && Ahead(books, br, rest, end)
  {
    hide BitReader.Valid, Proper, Legal, ProperSymbols, Spell, CountTo, Usable, HuffDecode.Decoded;
    ghost var t := BookOf(books, dc, tbl);
    ghost var at := br.at;
    sym, bad := Decode(br, d, BookOf(books, dc, tbl));
    AheadSplit(books, br.data, at, Symbol(dc, tbl, s), rest);
    WordDecoded(t, br.data, at, s, sym, br.at, bad);
    SymbolInRange(t, dc, br.data, at, sym, br.at, bad);
  }

  /** Whatever is decoded, it is a symbol of the table or the 0 that stands in for a bad code. */
  lemma SymbolInRange(t: Table, dc: bool, data: seq<byte>, at: nat, sym: byte, end: nat, bad: bool)
    requires ProperTable(t, dc) && Decoded(t, data, at, sym, end, bad)
    ensures sym <= MaxSymbol(dc)
  {
    hide Carries, Legal, CountTo, SizeOf;
    if p: nat :| Stands(t, data, at, p) {
      assert sym == SymbolOf(t, p) && t.huffval[p] <= MaxSymbol(dc);
    }
  }

  lemma WordDecoded(t: Table, data: seq<byte>, at: nat, s: byte, sym: byte, end: nat, bad: bool)
    requires IsTable(t) && Symbols(t) <= 256 && Decoded(t, data, at, sym, end, bad)
    ensures Coded(t, s) && Carries(data, at, WordOf(t, s)) ==> sym == s && !bad && end == at + |WordOf(t, s)|
  {
    hide Carries, IndexOf, CountTo, LengthFrom, Code;
    if Coded(t, s) && Carries(data, at, WordOf(t, s)) {
      var p := IndexOf(t, s, Symbols(t));
      assert Stands(t, data, at, p);
    }
  }

  /** Reads n raw bits. */
  method ReadBits(br: BitReader, books: Books, n: nat, ghost v: int, ghost rest: seq<Token>, ghost end: nat)
    returns (r: nat)
    requires br.Valid() && Proper(books) && n <= 16
    modifies br
    ensures br.Reached(old(br.insufficientData), br.at) && br.at >= old(br.at) && r < Pow2(n)
    ensures old(Ahead(books, br, [Bits(v, n)] + rest, end)) ==> r == v % Pow2(n) && Ahead(books, br, rest, end)
  {
    hide BitReader.Valid, Proper, Spell, Number, Pow2, BitsAt;
    ghost var at := br.at;
    r := br.Get(n);
    AheadSplit(books, br.data, at, Bits(v, n), rest);
  }
}
