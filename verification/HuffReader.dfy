/** Reading back the symbols and bits of Huffman-coded scans. */
module HuffReader {
  import opened Words
  import opened Coefficients
  import opened HuffDerived
  import opened HuffBitWriter
  import opened HuffBitReader
  import opened HuffDecode
  import opened HuffTokens
  import opened HuffBlocks

  ghost predicate DecodersFor(dcTbls: seq<DecodeTable>, acTbls: seq<DecodeTable>, books: Books) {
    && |dcTbls| == |books.dc| && |acTbls| == |books.ac|
    && (forall i :: 0 <= i < |dcTbls| ==> Usable(dcTbls[i], books.dc[i]))
    && (forall i :: 0 <= i < |acTbls| ==> Usable(acTbls[i], books.ac[i]))
  }

  class SymbolReader {
    const br: BitReader
    const dcTbls: seq<DecodeTable>
    const acTbls: seq<DecodeTable>
    const books: Books
    var badCodes: nat  // warnings about codes that are in no table

    ghost predicate Set() {
      Proper(books) && DecodersFor(dcTbls, acTbls, books)
    }

    lemma Facts()
      requires Set()
      ensures Proper(books)
    {
    }

    constructor (br: BitReader, dcTbls: seq<DecodeTable>, acTbls: seq<DecodeTable>, books: Books)
      requires br.Valid() && Proper(books) && DecodersFor(dcTbls, acTbls, books)
      ensures Set() && this.br == br && this.books == books && badCodes == 0
    {
      this.br, this.dcTbls, this.acTbls, this.books := br, dcTbls, acTbls, books;
      badCodes := 0;
    }

    /** The reader has moved on from position at, and has reported a shortage exactly if it passed the end. */
    ghost predicate Moved(insufficient: bool, at: nat)
      reads br
    {
      br.Valid() && br.at >= at && br.insufficientData == (insufficient || br.at > 8 * |br.data|)
    }

    lemma StandsStill()
      requires br.Valid()
      ensures Moved(br.insufficientData, br.at)
    {
    }

    /** The stream goes on with toks, which end at bit position end. */
    ghost predicate Expects(toks: seq<Token>, end: nat)
      reads br
    {
      Set() && AllCoded(books, toks) && Ahead(books, br, toks, end)
    }

    method NextSymbol(dc: bool, tbl: nat, ghost s: byte, ghost rest: seq<Token>, ghost end: nat) returns (sym: byte)
      requires Set() && br.Valid() && Has(books, dc, tbl)
      modifies br, this`badCodes
      ensures Moved(old(br.insufficientData), old(br.at)) && sym <= MaxSymbol(dc)
      ensures old(Expects([Symbol(dc, tbl, s)] + rest, end)) ==>
        sym == s && Expects(rest, end) && badCodes == old(badCodes)
    {
      hide BitReader.Valid, Proper, ProperTable, Spell, AllCoded, Codes, Ahead, Usable;
      SpellHead(books, Symbol(dc, tbl, s), rest);
      var bad;
      sym, bad := ReadSymbol(br, if dc then dcTbls[tbl] else acTbls[tbl], books, dc, tbl, s, rest, end);
      if bad {
        badCodes := badCodes + 1;
      }
    }

    /** Reads the n bits that follow category n and extends them to a value. */
    method NextValue(n: nat, ghost v: int, ghost rest: seq<Token>, ghost end: nat) returns (x: int)
      requires Set() && br.Valid() && 1 <= n <= 15
      modifies br
      ensures Moved(old(br.insufficientData), old(br.at))
      ensures v != 0 && n == NumBits(Magnitude(v)) && old(Expects([Bits(Appended(v), n)] + rest, end)) ==>
                x == v && Expects(rest, end)
    {
      hide BitReader.Valid, Set, Spell, AllCoded, Codes, Ahead, Extend, Pow2, NumBits;
      Facts();
      var r := NextBits(n, Appended(v), rest, end);
      if v != 0 {
        ExtendAppended(v);
      }
      x := Extend(r, n);
    }

    /** Reads n raw bits. */
    method NextBits(n: nat, ghost v: int, ghost rest: seq<Token>, ghost end: nat) returns (r: nat)
      requires Set() && br.Valid() && 1 <= n <= 16
      modifies br
      ensures Moved(old(br.insufficientData), old(br.at)) && r < Pow2(n)
      ensures old(Expects([Bits(v, n)] + rest, end)) ==> r == v % Pow2(n) && Expects(rest, end)
    {
      hide BitReader.Valid, Set, Spell, AllCoded, Codes, Ahead, Pow2;
      Facts();
      SpellHead(books, Bits(v, n), rest);
      r := ReadBits(br, books, n, v, rest, end);
    }

    /** Discards the n bits that follow category n. */
    method SkipValue(n: nat, ghost v: int, ghost rest: seq<Token>, ghost end: nat)
      requires Set() && br.Valid() && 1 <= n <= 15
      modifies br
      ensures Moved(old(br.insufficientData), old(br.at))
      ensures old(Expects([Bits(v, n)] + rest, end)) ==> Expects(rest, end)
    {
      hide BitReader.Valid, Set, Spell, AllCoded, Codes, LowBits;
      Facts();
      SpellHead(books, Bits(v, n), rest);
      AheadSplit(books, br.data, br.at, Bits(v, n), rest);
      br.Check(n);
      br.Drop(n);
    }

    lemma FaultNotExpected(rest: seq<Token>, end: nat)
      requires Set()
      ensures !Expects([Fault] + rest, end)
    {
      hide Proper, Spell, AllCoded;
      SpellHead(books, Fault, rest);
    }

    /** Reads the category of a DC difference, and its bits if the coefficient is wanted. */
    method DecodeDc(tbl: nat, maxBits: nat, keep: bool, ghost v: int, ghost rest: seq<Token>, ghost end: nat)
        returns (diff: int)
      requires Set() && br.Valid() && Has(books, true, tbl) && maxBits <= 15
      modifies br, this`badCodes
      ensures Moved(old(br.insufficientData), old(br.at))
      ensures old(Expects(DcTokens(tbl, v, maxBits) + rest, end)) ==>
                Expects(rest, end) && badCodes == old(badCodes) && (keep ==> diff == v)
    {
      hide Set, BitReader.Valid, Ahead, AllCoded, NumBits, Proper, DcTokens;
      Facts();
      ghost var n := NumBits(Magnitude(v));
      DcUnroll(tbl, v, maxBits, rest);
      ghost var sym0: byte, after := 0, rest;
      if 0 < n <= maxBits {
        sym0, after := n, [Bits(Appended(v), n)] + rest;
      } else if n > 0 {
        FaultNotExpected(rest, end);
      }
      var s: int := NextSymbol(true, tbl, sym0, after, end);
      diff := 0;
      if s != 0 {
        if keep {
          diff := NextValue(s, v, rest, end);
        } else {
          SkipValue(s, Appended(v), rest, end);
        }
      }
    }
  }
}
