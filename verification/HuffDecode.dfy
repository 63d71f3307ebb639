/**
 * Decoding one Huffman symbol: the lookahead table for short codes, the length-by-length search for the rest.
 * Both find the one symbol whose code word stands at the current position.
 */
module HuffDecode {
  import opened Words
  import opened BitStrings
  import opened HuffTables
  import opened HuffDerived
  import opened HuffBitReader

  /** The code word of the p-th symbol stands at bit position at. */
  ghost predicate Stands(t: Table, data: seq<byte>, at: nat, p: nat)
    requires IsTable(t)
  {
    p < Symbols(t) && Carries(data, at, CodeWord(t.bits, p))
  }

  /** The p-th symbol of a table, and its code length. */
  function SymbolOf(t: Table, p: nat): (s: byte)
    requires IsTable(t)
  {
    if p < 256 then t.huffval[p] else 0
  }

  function SizeOf(t: Table, p: nat): (l: nat)
    requires IsTable(t)
    ensures p < Symbols(t) ==> 1 <= l <= MAX_LENGTH
  {
    if p < Symbols(t) then Length(t.bits, p) else 0
  }

  /** No code word of at most l bits stands at bit position at. */
  ghost predicate NoneUpTo(t: Table, data: seq<byte>, at: nat, l: nat)
    requires IsTable(t)
  {
    forall p: nat :: SizeOf(t, p) <= l ==> !Stands(t, data, at, p)
  }

  lemma StandsAsNumber(t: Table, data: seq<byte>, at: nat, p: nat)
    requires IsTable(t) && Legal(t.bits) && p < Symbols(t)
    ensures Stands(t, data, at, p) <==> Number(BitsAt(data, at, Length(t.bits, p))) == Code(t.bits, p)
  {
    hide Number, Pow2, Code, Length, Legal, CountTo;
    var l := Length(t.bits, p);
    var s := BitsAt(data, at, l);
    CodeWordNumber(t.bits, p);
    ToBitsNumber(s);
  }

  lemma EitherPrefix(data: seq<byte>, at: nat, w: seq<bit>, u: seq<bit>)
    requires Carries(data, at, w) && Carries(data, at, u)
    ensures w <= u || u <= w
  {
    hide BitAt;
  }

  /** At most one code word stands at a position. */
  lemma StandsOnce(t: Table, data: seq<byte>, at: nat, p: nat, q: nat)
    requires IsTable(t) && Legal(t.bits) && Stands(t, data, at, p) && Stands(t, data, at, q)
    ensures p == q
  {
    hide Code, Length, Legal, CountTo, CodeWord;
    EitherPrefix(data, at, CodeWord(t.bits, p), CodeWord(t.bits, q));
    if p != q {
      PrefixFree(t.bits, p, q);
      PrefixFree(t.bits, q, p);
    }
  }

  /** The symbol of length l whose code is v. */
  lemma SymbolAt(bits: seq<byte>, l: nat, v: nat) returns (p: nat)
    requires |bits| == MAX_LENGTH + 1 && 1 <= l <= MAX_LENGTH && FirstCode(bits, l) <= v < EndCode(bits, l)
    ensures p == CountTo(bits, l - 1) + v - FirstCode(bits, l)
    ensures p < CountTo(bits, MAX_LENGTH) && Length(bits, p) == l && Code(bits, p) == v
  {
    hide CountTo, FirstCode, LengthFrom;
    CountStep(bits, l);
    p := CountTo(bits, l - 1) + (v - FirstCode(bits, l));
    LengthUnique(bits, p, l);
  }

  /** If no code of at most l bits stands here, the next l bits lie past all codes of that length. */
  lemma {:induction false} MissBound(t: Table, data: seq<byte>, at: nat, l: nat)
    requires IsTable(t) && Legal(t.bits) && 1 <= l <= MAX_LENGTH && NoneUpTo(t, data, at, l)
    ensures Number(BitsAt(data, at, l)) >= EndCode(t.bits, l)
    decreases l
  {
    hide Length, Code, Legal, Stands;
    var v := Number(BitsAt(data, at, l));
    if l > 1 {
      NoneUpToLess(t, data, at, l);
      MissBound(t, data, at, l - 1);
    }
    NextBit(data, at, l - 1);
    assert v >= FirstCode(t.bits, l);
    if v < EndCode(t.bits, l) {
      var p := SymbolAt(t.bits, l, v);
      StandsAsNumber(t, data, at, p);
    }
  }

  lemma NoneUpToLess(t: Table, data: seq<byte>, at: nat, l: nat)
    requires IsTable(t) && l > 0 && NoneUpTo(t, data, at, l)
    ensures NoneUpTo(t, data, at, l - 1)
  {
    hide Stands, SizeOf;
  }

  lemma NextBit(data: seq<byte>, at: nat, l: nat)
    ensures Number(BitsAt(data, at, l + 1)) == 2 * Number(BitsAt(data, at, l)) + BitAt(data, at + l)
    ensures Number(BitsAt(data, at, 0)) == 0
    ensures Number(BitsAt(data, at, 1)) == BitAt(data, at)
  {
    hide BitAt;
    NumberAppend(BitsAt(data, at, l), BitAt(data, at + l));
    assert BitsAt(data, at, l + 1) == BitsAt(data, at, l) + [BitAt(data, at + l)];
    assert BitsAt(data, at, 1) == [BitAt(data, at)];
    NumberAppend([], BitAt(data, at));
    assert [] + [BitAt(data, at)] == [BitAt(data, at)];
  }

  /** The test of the length-by-length search at length l, once all shorter codes are excluded. */
  lemma LevelTest(t: Table, maxcode: seq<int>, valoffset: seq<int>, data: seq<byte>, at: nat, l: nat)
    requires IsTable(t) && Legal(t.bits) && |maxcode| == |valoffset| == 18 && 1 <= l <= MAX_LENGTH
    requires DecodesLevel(maxcode, valoffset, t.bits, l) && NoneUpTo(t, data, at, l - 1)
    ensures var v := Number(BitsAt(data, at, l));
            if v <= maxcode[l] then
              0 <= v + valoffset[l] < 256 && Stands(t, data, at, v + valoffset[l]) && SizeOf(t, v + valoffset[l]) == l
            else NoneUpTo(t, data, at, l)
  {
    assert Symbols(t) <= 256;
    hide Length, Legal, Stands, CountTo, FirstCode, NoneUpTo, Code;
    var v := Number(BitsAt(data, at, l));
    PastShorter(t, data, at, l);
    if v <= maxcode[l] {
      var p := SymbolAt(t.bits, l, v);
      StandsAsNumber(t, data, at, p);
    } else {
      MissAtLevel(t, data, at, l);
    }
  }

  lemma PastShorter(t: Table, data: seq<byte>, at: nat, l: nat)
    requires IsTable(t) && Legal(t.bits) && 1 <= l <= MAX_LENGTH && NoneUpTo(t, data, at, l - 1)
    ensures Number(BitsAt(data, at, l)) >= FirstCode(t.bits, l)
  {
    hide Legal, NoneUpTo, Number, CountTo;
    NextBit(data, at, l - 1);
    if l > 1 {
      MissBound(t, data, at, l - 1);
    }
  }

  lemma MissAtLevel(t: Table, data: seq<byte>, at: nat, l: nat)
    requires IsTable(t) && Legal(t.bits) && 1 <= l <= MAX_LENGTH && NoneUpTo(t, data, at, l - 1)
    requires Number(BitsAt(data, at, l)) >= EndCode(t.bits, l)
    ensures NoneUpTo(t, data, at, l)
  {
    hide LengthFrom, Legal, Number, CountTo, FirstCode, Carries;
    CountStep(t.bits, l);
    forall p: nat | SizeOf(t, p) <= l
      ensures !Stands(t, data, at, p)
    {
      if p < Symbols(t) {
        StandsAsNumber(t, data, at, p);
      }
    }
  }

  /** Eight bits start with a short code exactly if their leading bits are that code. */
  lemma StartsAsNumber(bits: seq<byte>, p: nat, s: seq<bit>)
    requires |bits| == MAX_LENGTH + 1 && p < CountTo(bits, MAX_LENGTH) && Length(bits, p) <= |s| == HUFF_LOOKAHEAD
    ensures StartsWith(bits, p, Number(s)) <==> Number(s[..Length(bits, p)]) == Code(bits, p)
  {
    hide Length, Code, Pow2, Number, CountTo;
    var l := Length(bits, p);
    LeadingBits(s, l);
    OneMultiple(Code(bits, p), Number(s[..l]), Pow2(HUFF_LOOKAHEAD - l), Number(s));
  }

  /** A short code word stands at a position exactly if the next eight bits start with it. */
  lemma StartsStands(t: Table, data: seq<byte>, at: nat, p: nat)
    requires IsTable(t) && Legal(t.bits) && p < Symbols(t) && Length(t.bits, p) <= HUFF_LOOKAHEAD
    ensures StartsWith(t.bits, p, Number(BitsAt(data, at, HUFF_LOOKAHEAD))) <==> Stands(t, data, at, p)
  {
    hide Length, Code, Legal, Number, Stands, StartsWith, CountTo, BitAt;
    var l := Length(t.bits, p);
    StandsAsNumber(t, data, at, p);
    StartsAsNumber(t.bits, p, BitsAt(data, at, HUFF_LOOKAHEAD));
    assert BitsAt(data, at, HUFF_LOOKAHEAD)[..l] == BitsAt(data, at, l);
  }

  lemma OneMultiple(c: nat, v: nat, unit: nat, x: nat)
    requires v * unit <= x < (v + 1) * unit
    ensures c * unit <= x < (c + 1) * unit <==> c == v
  {
    if c < v {
      ScaleMonotone(c + 1, v, unit);
    } else if v < c {
      ScaleMonotone(v + 1, c, unit);
    }
  }

  /** What the lookahead entry for the next eight bits says; p is the symbol it names. */
  lemma LookaheadTest(t: Table, nbits: seq<nat>, syms: seq<byte>, data: seq<byte>, at: nat) returns (p: nat)
    requires IsTable(t) && Legal(t.bits) && CountTo(t.bits, HUFF_LOOKAHEAD) <= 256
    requires Looks(t, nbits, syms, CountTo(t.bits, HUFF_LOOKAHEAD))
    ensures var v := Number(BitsAt(data, at, HUFF_LOOKAHEAD));
            && v < 256
            && (nbits[v] == 0 ==> NoneUpTo(t, data, at, HUFF_LOOKAHEAD))
            && (nbits[v] != 0 ==> Stands(t, data, at, p) && nbits[v] == SizeOf(t, p) <= HUFF_LOOKAHEAD
                                  && syms[v] == SymbolOf(t, p))
  {
    hide Code, Legal, Number, Carries, StartsWith, LengthFrom, CountTo;
    Pow2Constants();
    var v := Number(BitsAt(data, at, HUFF_LOOKAHEAD));
    p := 0;
    if nbits[v] == 0 {
      forall q: nat | SizeOf(t, q) <= HUFF_LOOKAHEAD
        ensures !Stands(t, data, at, q)
      {
        if q < Symbols(t) {
          StartsStands(t, data, at, q);
          CountMonotone(t.bits, Length(t.bits, q), HUFF_LOOKAHEAD);
        }
      }
    } else {
      p :| 0 <= p < CountTo(t.bits, HUFF_LOOKAHEAD) && StartsWith(t.bits, p, v);
      StartsBounds(t, p, v);
      StartsStands(t, data, at, p);
    }
  }

  lemma StartsBounds(t: Table, p: nat, v: nat)
    requires IsTable(t) && StartsWith(t.bits, p, v)
    ensures p < Symbols(t) && Length(t.bits, p) <= HUFF_LOOKAHEAD
  {
  }

  /** What decoding a symbol at bit position at must give: the symbol, and the position behind it. */
  ghost predicate Decoded(t: Table, data: seq<byte>, at: nat, s: byte, end: nat, bad: bool)
    requires IsTable(t)
  {
    && (forall p: nat :: Stands(t, data, at, p) ==> s == SymbolOf(t, p) && end == at + SizeOf(t, p) && !bad)
    && ((forall p: nat :: !Stands(t, data, at, p)) ==> s == 0 && end == at + MAX_LENGTH + 1 && bad)
  }

  lemma DecodedBy(t: Table, data: seq<byte>, at: nat, p: nat)
    requires IsTable(t) && Legal(t.bits) && Stands(t, data, at, p)
    ensures Decoded(t, data, at, SymbolOf(t, p), at + SizeOf(t, p), false)
  {
    hide Stands, SizeOf, SymbolOf, Legal;
    forall q: nat | Stands(t, data, at, q)
      ensures q == p
    {
      StandsOnce(t, data, at, p, q);
    }
  }

  lemma NoneDecoded(t: Table, data: seq<byte>, at: nat)
    requires IsTable(t) && NoneUpTo(t, data, at, MAX_LENGTH)
    ensures Decoded(t, data, at, 0, at + MAX_LENGTH + 1, true)
  {
    hide CountTo, Carries, SizeOf;
    forall p: nat
      ensures !Stands(t, data, at, p)
    {
      assert SizeOf(t, p) <= MAX_LENGTH || p >= Symbols(t);
    }
  }

  /** A derived table of an accepted one. */
  ghost predicate Usable(d: DecodeTable, t: Table) {
    IsTable(t) && Legal(t.bits) && Decodes(d, t)
  }

  /** Appends one more bit to the code collected so far. */
  method CollectBit(br: BitReader, code: nat, l: nat, ghost at: nat, ghost insufficient: bool) returns (c: nat)
    requires br.Reached(insufficient, at + l) && code == Number(BitsAt(br.data, at, l))
    modifies br
    ensures br.Reached(insufficient, at + l + 1) && c == Number(BitsAt(br.data, at, l + 1))
  {
    hide Number, BitsAt, BitAt, Low;
    c := 2 * code;
    var b := br.Get(1);
    NextBit(br.data, at + l, 0);
    NextBit(br.data, at, l);
    c := c + b;
  }

  /** The length-by-length search (Figure F.16), given that the code has at least minBits bits. */
  method DecodeSlow(br: BitReader, d: DecodeTable, t: Table, minBits: nat) returns (s: byte, bad: bool)
    requires br.Valid() && Usable(d, t) && 1 <= minBits <= HUFF_LOOKAHEAD + 1
    requires NoneUpTo(t, br.data, br.at, minBits - 1)
    modifies br
    ensures br.Reached(old(br.insufficientData), br.at) && Decoded(t, br.data, old(br.at), s, br.at, bad)
  {
    hide Usable, Stands, NoneUpTo, Decoded, SizeOf, SymbolOf, DecodesLevel, Legal, IsTable, Number, Pow2, BitsAt, BitAt;
    hide BitReader.Valid, BitReader.Reached;
    LevelsUsable(d, t);
    var l := minBits;
    ghost var data, at, insufficient := br.data, br.at, br.insufficientData;
    var code: int := br.Get(l);
    NumberFits(data, at, l);
    while code > d.maxcode[l]
      invariant br.Reached(insufficient, at + l) && NoneUpTo(t, data, at, l - 1)
      invariant 1 <= l <= MAX_LENGTH + 1 && code == Number(BitsAt(data, at, l)) < 0x8_0000
      decreases MAX_LENGTH + 1 - l
    {
      LevelTest(t, d.maxcode, d.valoffset, data, at, l);
      code := CollectBit(br, code, l, at, insufficient);
      l := l + 1;
      NumberFits(data, at, l);
    }
    if l > MAX_LENGTH {
      NoneDecoded(t, data, at);
      s, bad := 0, true;
    } else {
      LevelTest(t, d.maxcode, d.valoffset, data, at, l);
      DecodedBy(t, data, at, code + d.valoffset[l]);
      SymbolIs(t, code + d.valoffset[l]);
      s, bad := t.huffval[code + d.valoffset[l]], false;
    }
    EndReached(br, insufficient, at + l);
  }

  lemma EndReached(br: BitReader, insufficient: bool, end: nat)
    requires br.Reached(insufficient, end)
    ensures br.at == end
  {
  }

  lemma NumberFits(data: seq<byte>, at: nat, l: nat)
    requires l <= 19
    ensures Number(BitsAt(data, at, l)) < 0x8_0000
  {
    Pow2Monotone(l, 19);
    Pow2Constants();
  }

  lemma DecodedForward(t: Table, data: seq<byte>, at: nat, s: byte, end: nat, bad: bool)
    requires IsTable(t) && Decoded(t, data, at, s, end, bad)
    ensures end >= at
  {
    hide Stands, SizeOf;
  }

  /** Decodes the next symbol; bad reports that no code word stands here. */
  method Decode(br: BitReader, d: DecodeTable, t: Table) returns (s: byte, bad: bool)
    requires br.Valid() && Usable(d, t)
    modifies br
    ensures br.Reached(old(br.insufficientData), br.at) && Decoded(t, br.data, old(br.at), s, br.at, bad)
    ensures br.at >= old(br.at)
  {
    hide Usable, Stands, NoneUpTo, Decoded, Legal, Looks, SizeOf, SymbolOf, Number, Pow2, BitsAt, Low, CountTo;
    LookaheadUsable(d, t);
    NoneOfNoBits(t, br.data, br.at);
    ghost var at := br.at;
    if br.bitsLeft < HUFF_LOOKAHEAD {
      br.Fill(0);
      if br.bitsLeft < HUFF_LOOKAHEAD {
        s, bad := DecodeSlow(br, d, t, 1);
        DecodedForward(t, br.data, at, s, br.at, bad);
        return;
      }
    }
    var look := br.Peek(HUFF_LOOKAHEAD);
    ghost var p := LookaheadTest(t, d.lookNbits, d.lookSym, br.data, br.at);
    if d.lookNbits[look] != 0 {
      DecodedBy(t, br.data, br.at, p);
      br.Drop(d.lookNbits[look]);
      s, bad := d.lookSym[look], false;
    } else {
      s, bad := DecodeSlow(br, d, t, HUFF_LOOKAHEAD + 1);
      DecodedForward(t, br.data, at, s, br.at, bad);
    }
  }

  lemma NoneOfNoBits(t: Table, data: seq<byte>, at: nat)
    requires IsTable(t)
    ensures NoneUpTo(t, data, at, 0)
  {
  }

  lemma LevelsUsable(d: DecodeTable, t: Table)
    requires Usable(d, t)
    ensures IsTable(t) && |t.huffval| == 256 && Legal(t.bits)
    ensures |d.maxcode| == |d.valoffset| == 18 && d.maxcode[17] == 0xFFFFF
    ensures forall l :: 1 <= l <= MAX_LENGTH ==> DecodesLevel(d.maxcode, d.valoffset, t.bits, l)
  {
  }

  lemma LookaheadUsable(d: DecodeTable, t: Table)
    requires Usable(d, t)
    ensures IsTable(t) && Legal(t.bits) && CountTo(t.bits, HUFF_LOOKAHEAD) <= 256
    ensures Looks(t, d.lookNbits, d.lookSym, CountTo(t.bits, HUFF_LOOKAHEAD)) && |d.lookNbits| == |d.lookSym| == 256
  {
  }

  lemma SymbolIs(t: Table, p: nat)
    requires IsTable(t) && p < 256
    ensures SymbolOf(t, p) == t.huffval[p]
  {
  }
}
