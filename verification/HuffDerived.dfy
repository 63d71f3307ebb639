/** The derived tables the Huffman encoder and decoder work with, computed from a table as it is transmitted. */
module HuffDerived {
  import opened Words
  import opened HuffTables

  lemma CountStep(bits: seq<byte>, l: nat)
    requires 1 <= l < |bits|
    ensures CountTo(bits, l) == CountTo(bits, l - 1) + bits[l]
    ensures FirstCode(bits, l + 1) == 2 * EndCode(bits, l)
    ensures FirstCode(bits, 1) == 0 && CountTo(bits, 0) == 0
  {
  }

  lemma {:induction false} FirstCodeOfEmpty(bits: seq<byte>, l: nat)
    requires 1 <= l <= |bits| && CountTo(bits, l - 1) == 0
    ensures FirstCode(bits, l) == 0
    decreases l
  {
    if l > 1 {
      CountMonotone(bits, l - 2, l - 1);
      FirstCodeOfEmpty(bits, l - 1);
    }
  }

  /** Figure C.1: the code length of each symbol, in the order of the symbols, then a zero. */
  method MakeSizes(bits: seq<byte>) returns (ok: bool, huffsize: array<nat>, lastp: nat)
    requires |bits| == MAX_LENGTH + 1
    ensures huffsize.Length == 257 && fresh(huffsize)
    ensures ok <==> CountTo(bits, MAX_LENGTH) <= 256
    ensures ok ==> lastp == CountTo(bits, MAX_LENGTH) && huffsize[lastp] == 0
    ensures ok ==> forall p :: 0 <= p < lastp ==> huffsize[p] == Length(bits, p)
  {
    huffsize := new nat[257];
    var p := 0;
    for l := 1 to MAX_LENGTH + 1
      invariant p == CountTo(bits, l - 1) <= 256
      invariant forall k :: 0 <= k < p ==> k < CountTo(bits, MAX_LENGTH) && huffsize[k] == Length(bits, k)
    {
      CountStep(bits, l);
      CountMonotone(bits, l, MAX_LENGTH);
      var i: int := bits[l];
      if p + i > 256 {
        return false, huffsize, 0;
      }
      while i > 0
        invariant 0 <= i <= bits[l] && p == CountTo(bits, l) - i
        invariant forall k :: 0 <= k < p ==> k < CountTo(bits, MAX_LENGTH) && huffsize[k] == Length(bits, k)
      {
        LengthUnique(bits, p, l);
        huffsize[p] := l;
        p := p + 1;
        i := i - 1;
      }
    }
    huffsize[p] := 0;
    ok, lastp := true, p;
  }

  /** Assigns consecutive codes to the symbols of length si. */
  method AssignLevel(bits: seq<byte>, huffsize: array<nat>, lastp: nat, huffcode: array<nat>, si: nat, p0: nat,
      code0: nat)
    returns (p: nat, code: nat)
    requires |bits| == MAX_LENGTH + 1 && huffsize.Length == huffcode.Length == 257 && huffsize != huffcode
    requires lastp == CountTo(bits, MAX_LENGTH) <= 256 && huffsize[lastp] == 0
    requires forall k :: 0 <= k < lastp ==> huffsize[k] == Length(bits, k)
    requires 1 <= si <= MAX_LENGTH && p0 == CountTo(bits, si - 1) && code0 == FirstCode(bits, si)
    requires forall k :: 0 <= k < p0 ==> k < lastp && huffcode[k] == Code(bits, k)
    modifies huffcode
    ensures p == CountTo(bits, si) <= lastp && code == EndCode(bits, si)
    ensures forall k :: 0 <= k < p ==> k < lastp && huffcode[k] == Code(bits, k)
  {
    hide FirstCode, LengthFrom;
    CountStep(bits, si);
    CountMonotone(bits, si, MAX_LENGTH);
    p, code := p0, code0;
    while huffsize[p] == si
      invariant p0 <= p <= CountTo(bits, si)
      invariant code == code0 + (p - p0)
      invariant forall k :: 0 <= k < p ==> k < lastp && huffcode[k] == Code(bits, k)
      decreases lastp - p
    {
      assert Length(bits, p) == si;
      huffcode[p] := code;
      p := p + 1;
      code := code + 1;
    }
    if p < CountTo(bits, si) {
      LengthUnique(bits, p, si);
    }
  }

  /** Figure C.2: the codes themselves; fails exactly when the lengths do not leave a code over. */
  method MakeCodes(bits: seq<byte>, huffsize: array<nat>, lastp: nat) returns (ok: bool, huffcode: array<nat>)
    requires |bits| == MAX_LENGTH + 1 && huffsize.Length == 257
    requires lastp == CountTo(bits, MAX_LENGTH) <= 256 && huffsize[lastp] == 0
    requires forall p :: 0 <= p < lastp ==> huffsize[p] == Length(bits, p)
    ensures huffcode.Length == 257 && fresh(huffcode)
    ensures ok <==> Legal(bits)
    ensures ok ==> forall p :: 0 <= p < lastp ==> huffcode[p] == Code(bits, p)
  {
    hide LengthFrom, Pow2;
    huffcode := new nat[257];
    var code, p := 0, 0;
    var si := huffsize[0];
    if lastp == 0 {
      SpareWhileEmpty(bits, MAX_LENGTH);
      return true, huffcode;
    }
    FirstLevel(bits, si);
    hide FirstCode, CountTo, Code, Spare;
    while huffsize[p] != 0
      invariant p <= lastp && 1 <= si <= MAX_LENGTH + 1
      invariant p == CountTo(bits, si - 1) && code == FirstCode(bits, si)
      invariant forall l :: 1 <= l < si ==> Spare(bits, l)
      invariant forall k :: 0 <= k < p ==> k < lastp && huffcode[k] == Code(bits, k)
      decreases MAX_LENGTH + 1 - si
    {
      CountMonotone(bits, si - 1, MAX_LENGTH);
      p, code := AssignLevel(bits, huffsize, lastp, huffcode, si, p, code);
      SpareMeans(bits, si);
      if code >= Pow2(si) {
        return false, huffcode;
      }
      code := 2 * code;
      si := si + 1;
    }
    SpareAfter(bits, si - 1, MAX_LENGTH);
    ok := true;
  }

  lemma FirstLevel(bits: seq<byte>, si: nat)
    requires |bits| == MAX_LENGTH + 1 && CountTo(bits, MAX_LENGTH) > 0 && si == Length(bits, 0)
    ensures CountTo(bits, si - 1) == 0 && FirstCode(bits, si) == 0
    ensures forall l :: 1 <= l < si ==> Spare(bits, l)
  {
    FirstCodeOfEmpty(bits, si);
    SpareWhileEmpty(bits, si - 1);
  }

  lemma SpareMeans(bits: seq<byte>, l: nat)
    requires 1 <= l < |bits|
    ensures Spare(bits, l) <==> EndCode(bits, l) < Pow2(l)
    ensures FirstCode(bits, l + 1) == 2 * EndCode(bits, l)
  {
  }

  lemma {:induction false} SpareWhileEmpty(bits: seq<byte>, l: nat)
    requires l < |bits| && CountTo(bits, l) == 0
    ensures forall k :: 1 <= k <= l ==> Spare(bits, k)
  {
    if l > 0 {
      CountMonotone(bits, l - 1, l);
      SpareWhileEmpty(bits, l - 1);
      FirstCodeOfEmpty(bits, l);
    }
  }

  lemma {:induction false} SpareAfter(bits: seq<byte>, k: nat, l: nat)
    requires 1 <= k <= l < |bits| && CountTo(bits, k) == CountTo(bits, l)
    requires forall i :: 1 <= i <= k ==> Spare(bits, i)
    ensures forall i :: 1 <= i <= l ==> Spare(bits, i)
    decreases l
  {
    if k < l {
      CountMonotone(bits, k, l - 1);
      CountMonotone(bits, l - 1, l);
      SpareAfter(bits, k, l - 1);
      assert Spare(bits, l - 1);
    }
  }

  // ---------------------------------------------------------------------------------------------
  // Encoder tables
  // ---------------------------------------------------------------------------------------------

  /** Code and code length of each symbol; length 0 for symbols without a code. */
  datatype EncodeTable = EncodeTable(ehufco: seq<nat>, ehufsi: seq<nat>)

  function MaxSymbol(isDC: bool): byte {
    if isDC then 15 else 255
  }

  /** Symbols in range and listed once each. */
  predicate ProperSymbols(t: Table, isDC: bool, n: nat)
    requires IsTable(t) && n <= 256
  {
    && (forall p :: 0 <= p < n ==> t.huffval[p] <= MaxSymbol(isDC))
    && forall p, q :: 0 <= p < q < n ==> t.huffval[p] != t.huffval[q]
  }

  /** The first n symbols have their codes in e and no other symbol has one. */
  predicate Encodes(e: EncodeTable, t: Table, n: nat)
    requires IsTable(t) && n <= CountTo(t.bits, MAX_LENGTH) && n <= 256
  {
    && |e.ehufco| == |e.ehufsi| == 256
    && (forall p :: 0 <= p < n ==> e.ehufco[t.huffval[p]] == Code(t.bits, p)
                                   && e.ehufsi[t.huffval[p]] == Length(t.bits, p))
    && forall s: byte :: e.ehufsi[s] != 0 ==> exists p :: 0 <= p < n && t.huffval[p] == s
  }

  /** Figure C.3, with the checks on the table: accepts exactly legal tables of proper symbols. */
  method MakeEncodeTable(t: Table, isDC: bool) returns (ok: bool, e: EncodeTable)
    requires IsTable(t)
    ensures ok <==> Legal(t.bits) && ProperSymbols(t, isDC, Symbols(t))
    ensures ok ==> Encodes(e, t, Symbols(t))
  {
    hide Length, Code, CountTo, Spare;
    e := EncodeTable([], []);
    var huffsize, lastp, huffcode;
    ok, huffsize, lastp := MakeSizes(t.bits);
    if !ok {
      return;
    }
    ok, huffcode := MakeCodes(t.bits, huffsize, lastp);
    if !ok {
      return;
    }
    hide Legal;
    var ehufco: seq<nat> := seq(256, _ => 0);
    var ehufsi: seq<nat> := seq(256, _ => 0);
    for p := 0 to lastp
      invariant Encodes(EncodeTable(ehufco, ehufsi), t, p) && ProperSymbols(t, isDC, p)
    {
      var i := t.huffval[p];
      if i > MaxSymbol(isDC) || ehufsi[i] != 0 {
        return false, e;
      }
      ehufco := ehufco[i := huffcode[p]];
      ehufsi := ehufsi[i := huffsize[p]];
      assert t.huffval[p] == i;
    }
    ok, e := true, EncodeTable(ehufco, ehufsi);
  }

  // ---------------------------------------------------------------------------------------------
  // Decoder tables
  // ---------------------------------------------------------------------------------------------

  const HUFF_LOOKAHEAD := 8

  /** Largest code of each length, where its symbols start, and what the next eight bits decode to at once. */
  datatype DecodeTable = DecodeTable(maxcode: seq<int>, valoffset: seq<int>, lookNbits: seq<nat>, lookSym: seq<byte>)

  /** The sequential part of the table at length l. */
  predicate DecodesLevel(maxcode: seq<int>, valoffset: seq<int>, bits: seq<byte>, l: nat)
    requires |maxcode| == |valoffset| == 18 && |bits| == MAX_LENGTH + 1 && 1 <= l <= MAX_LENGTH
  {
    if bits[l] == 0 then maxcode[l] == -1
    else maxcode[l] == EndCode(bits, l) - 1 && valoffset[l] == CountTo(bits, l - 1) - FirstCode(bits, l)
  }

  /** Among eight-bit numbers, v starts with the code of symbol p. */
  predicate StartsWith(bits: seq<byte>, p: nat, v: nat)
    requires |bits| == MAX_LENGTH + 1
  {
    && p < CountTo(bits, MAX_LENGTH)
    && Length(bits, p) <= HUFF_LOOKAHEAD
    && var unit := Pow2(HUFF_LOOKAHEAD - Length(bits, p));
       Code(bits, p) * unit <= v < (Code(bits, p) + 1) * unit
  }

  /** The lookahead entries for the first n symbols are filled in and all others are 0. */
  ghost predicate Looks(t: Table, lookNbits: seq<nat>, lookSym: seq<byte>, n: nat)
    requires IsTable(t) && n <= 256
  {
    && |lookNbits| == |lookSym| == 256
    && (forall p, v :: 0 <= p < n && 0 <= v < 256 && StartsWith(t.bits, p, v) ==>
                         lookNbits[v] == Length(t.bits, p) && lookSym[v] == t.huffval[p])
    && (forall v :: 0 <= v < 256 && lookNbits[v] != 0 ==> exists p :: 0 <= p < n && StartsWith(t.bits, p, v))
  }

  ghost predicate Decodes(d: DecodeTable, t: Table)
    requires IsTable(t)
  {
    && |d.maxcode| == |d.valoffset| == 18
    && (forall l :: 1 <= l <= MAX_LENGTH ==> DecodesLevel(d.maxcode, d.valoffset, t.bits, l))
    && d.maxcode[17] == 0xFFFFF
    && CountTo(t.bits, HUFF_LOOKAHEAD) <= 256 && Looks(t, d.lookNbits, d.lookSym, CountTo(t.bits, HUFF_LOOKAHEAD))
  }

  /** Figure F.15. */
  method MakeLevels(bits: seq<byte>, huffcode: array<nat>) returns (maxcode: seq<int>, valoffset: seq<int>)
    requires |bits| == MAX_LENGTH + 1 && huffcode.Length == 257 && CountTo(bits, MAX_LENGTH) <= 256
    requires forall p :: 0 <= p < CountTo(bits, MAX_LENGTH) ==> huffcode[p] == Code(bits, p)
    ensures |maxcode| == |valoffset| == 18 && maxcode[17] == 0xFFFFF
    ensures forall l :: 1 <= l <= MAX_LENGTH ==> DecodesLevel(maxcode, valoffset, bits, l)
  {
    hide LengthFrom, FirstCode;
    maxcode, valoffset := seq(18, _ => 0), seq(18, _ => 0);
    var p := 0;
    for l := 1 to MAX_LENGTH + 1
      invariant p == CountTo(bits, l - 1) && |maxcode| == |valoffset| == 18
      invariant forall k :: 1 <= k < l ==> DecodesLevel(maxcode, valoffset, bits, k)
    {
      CountStep(bits, l);
      CountMonotone(bits, l, MAX_LENGTH);
      ghost var max0, off0 := maxcode, valoffset;
      var count: int := bits[l];
      if count != 0 {
        LengthUnique(bits, p, l);
        LengthUnique(bits, p + count - 1, l);
        valoffset := valoffset[l := p - huffcode[p]];
        p := p + count;
        maxcode := maxcode[l := huffcode[p - 1]];
      } else {
        maxcode := maxcode[l := -1];
      }
      LevelsKept(max0, off0, maxcode, valoffset, bits, l);
    }
    ghost var max0 := maxcode;
    maxcode := maxcode[17 := 0xFFFFF];
    LevelsKept(max0, valoffset, maxcode, valoffset, bits, 17);
  }

  lemma LevelsKept(maxcode: seq<int>, valoffset: seq<int>, max1: seq<int>, off1: seq<int>, bits: seq<byte>, n: nat)
    requires |maxcode| == |valoffset| == |max1| == |off1| == 18 && |bits| == MAX_LENGTH + 1 && n <= 17
    requires forall l :: 1 <= l < n ==> DecodesLevel(maxcode, valoffset, bits, l)
    requires maxcode[..n] == max1[..n] && valoffset[..n] == off1[..n]
    ensures forall l :: 1 <= l < n ==> DecodesLevel(max1, off1, bits, l)
  {
    forall l | 1 <= l < n
      ensures DecodesLevel(max1, off1, bits, l)
    {
      assert DecodesLevel(maxcode, valoffset, bits, l);
      assert maxcode[..n][l] == max1[..n][l] && valoffset[..n][l] == off1[..n][l];
    }
  }

  /** Left-justified in eight bits, the codes come in the order of the symbols. */
  lemma LeftJustified(bits: seq<byte>, p: nat, q: nat)
    requires |bits| == MAX_LENGTH + 1 && p < q < CountTo(bits, MAX_LENGTH)
    requires Length(bits, p) <= Length(bits, q) <= HUFF_LOOKAHEAD
    ensures (Code(bits, p) + 1) * Pow2(HUFF_LOOKAHEAD - Length(bits, p))
            <= Code(bits, q) * Pow2(HUFF_LOOKAHEAD - Length(bits, q))
  {
    hide Pow2, FirstCode, LengthFrom;
    var k, l := Length(bits, p), Length(bits, q);
    if k == l {
      ScaleMonotone(Code(bits, p) + 1, Code(bits, q), Pow2(HUFF_LOOKAHEAD - l));
    } else {
      CodesApart(bits, p, q);
      hide Code, Length;
      var unit, step := Pow2(HUFF_LOOKAHEAD - l), Pow2(l - k);
      Pow2Add(HUFF_LOOKAHEAD - l, l - k);
      ScaleMonotone((Code(bits, p) + 1) * step, Code(bits, q), unit);
      ProductRegroup(Code(bits, p) + 1, step, unit);
    }
  }

  /** No eight bits start with two different codes. */
  lemma StartsWithOne(bits: seq<byte>, p: nat, q: nat, v: nat)
    requires |bits| == MAX_LENGTH + 1 && p < q
    ensures !(StartsWith(bits, p, v) && StartsWith(bits, q, v))
  {
    hide Pow2, Code, Length;
    if StartsWith(bits, p, v) && StartsWith(bits, q, v) {
      LengthMonotone(bits, p, q);
      LeftJustified(bits, p, q);
    }
  }

  lemma ProductRegroup(a: nat, b: nat, c: nat)
    ensures a * b * c == a * (c * b)
  {
  }

  lemma LengthMonotone(bits: seq<byte>, p: nat, q: nat)
    requires |bits| == MAX_LENGTH + 1 && p <= q < CountTo(bits, MAX_LENGTH)
    ensures Length(bits, p) <= Length(bits, q)
  {
    hide LengthFrom;
    if Length(bits, q) < Length(bits, p) {
      CountMonotone(bits, Length(bits, q), Length(bits, p) - 1);
    }
  }

  /** The entries that start with the code of symbol p. */
  lemma EntriesInside(bits: seq<byte>, p: nat)
    requires |bits| == MAX_LENGTH + 1 && Legal(bits) && p < CountTo(bits, MAX_LENGTH)
    requires Length(bits, p) <= HUFF_LOOKAHEAD
    ensures var unit := Pow2(HUFF_LOOKAHEAD - Length(bits, p));
            (Code(bits, p) + 1) * unit == Code(bits, p) * unit + unit <= 256
  {
    CodeBound(bits, p);
    hide Length, Code, CountTo, Pow2, Legal;
    var l := Length(bits, p);
    var unit := Pow2(HUFF_LOOKAHEAD - l);
    ScaleSuccessor(Code(bits, p), unit);
    ScaleMonotone(Code(bits, p) + 1, Pow2(l), unit);
    Pow2Add(l, HUFF_LOOKAHEAD - l);
    Pow2Constants();
  }

  /** Enters one code into all the lookahead entries that start with it. */
  method FillEntries(t: Table, lookNbits: seq<nat>, lookSym: seq<byte>, p: nat, l: nat, code: nat)
    returns (nbits: seq<nat>, syms: seq<byte>)
    requires IsTable(t) && Legal(t.bits) && p < Symbols(t) <= 256 && Looks(t, lookNbits, lookSym, p)
    requires l == Length(t.bits, p) <= HUFF_LOOKAHEAD && code == Code(t.bits, p)
    ensures Looks(t, nbits, syms, p + 1)
  {
    hide Length, Code, CountTo, Legal, Pow2;
    EntriesInside(t.bits, p);
    var lookbits := code * Pow2(HUFF_LOOKAHEAD - l);
    var ctr: nat := Pow2(HUFF_LOOKAHEAD - l);
    ghost var first := lookbits;
    nbits, syms := lookNbits, lookSym;
    while ctr > 0
      invariant |nbits| == |syms| == 256 && first <= lookbits && lookbits + ctr == (code + 1) * Pow2(HUFF_LOOKAHEAD - l)
      invariant forall v :: 0 <= v < 256 && first <= v < lookbits ==> nbits[v] == l && syms[v] == t.huffval[p]
      invariant forall v :: 0 <= v < 256 && !(first <= v < lookbits) ==>
        nbits[v] == lookNbits[v] && syms[v] == lookSym[v]
    {
      nbits := nbits[lookbits := l];
      syms := syms[lookbits := t.huffval[p]];
      lookbits := lookbits + 1;
      ctr := ctr - 1;
    }
    forall v | 0 <= v < 256
      ensures StartsWith(t.bits, p, v) <==> first <= v < lookbits
    {
    }
    LooksExtended(t, lookNbits, lookSym, nbits, syms, p);
  }

  lemma LooksExtended(t: Table, before: seq<nat>, symsBefore: seq<byte>, nbits: seq<nat>, syms: seq<byte>, p: nat)
    requires IsTable(t) && p < Symbols(t) <= 256 && Looks(t, before, symsBefore, p) && |nbits| == |syms| == 256
    requires forall v :: 0 <= v < 256 ==>
                           if StartsWith(t.bits, p, v) then nbits[v] == Length(t.bits, p) && syms[v] == t.huffval[p]
                           else nbits[v] == before[v] && syms[v] == symsBefore[v]
    ensures Looks(t, nbits, syms, p + 1)
  {
    hide StartsWith, Length, CountTo;
    forall q, v | 0 <= q < p + 1 && 0 <= v < 256 && StartsWith(t.bits, q, v)
      ensures nbits[v] == Length(t.bits, q) && syms[v] == t.huffval[q]
    {
      if q < p && StartsWith(t.bits, p, v) {
        StartsWithOne(t.bits, q, p, v);
      }
    }
    forall v | 0 <= v < 256 && nbits[v] != 0
      ensures exists q :: 0 <= q < p + 1 && StartsWith(t.bits, q, v)
    {
      if !StartsWith(t.bits, p, v) {
        var q :| 0 <= q < p && StartsWith(t.bits, q, v);
      }
    }
  }

  method MakeLookahead(t: Table, huffcode: array<nat>) returns (nbits: seq<nat>, syms: seq<byte>)
    requires IsTable(t) && Legal(t.bits) && huffcode.Length == 257
    requires forall p :: 0 <= p < Symbols(t) ==> huffcode[p] == Code(t.bits, p)
    ensures CountTo(t.bits, HUFF_LOOKAHEAD) <= 256 && Looks(t, nbits, syms, CountTo(t.bits, HUFF_LOOKAHEAD))
  {
    assert Symbols(t) <= 256;
    hide Legal, StartsWith, Length, Code;
    nbits, syms := seq(256, _ => 0), seq(256, _ => 0);
    var p := 0;
    for l := 1 to HUFF_LOOKAHEAD + 1
      invariant p == CountTo(t.bits, l - 1) <= 256 && Looks(t, nbits, syms, p)
    {
      CountStep(t.bits, l);
      CountMonotone(t.bits, l, MAX_LENGTH);
      var count: int := t.bits[l];
      for i := 1 to count + 1
        invariant p == CountTo(t.bits, l - 1) + i - 1 && p <= 256 && Looks(t, nbits, syms, p)
      {
        LengthUnique(t.bits, p, l);
        nbits, syms := FillEntries(t, nbits, syms, p, l, huffcode[p]);
        p := p + 1;
      }
    }
  }

  /** Accepts exactly the legal tables whose symbols are in range; repeated symbols pass. */
  method MakeDecodeTable(t: Table, isDC: bool) returns (ok: bool, d: DecodeTable)
    requires IsTable(t)
    ensures ok <==> Legal(t.bits) && (isDC ==> forall i :: 0 <= i < Symbols(t) ==> t.huffval[i] <= 15)
    ensures ok ==> Decodes(d, t)
  {
    hide Length, Code, CountTo, Spare, StartsWith, Looks, DecodesLevel;
    d := DecodeTable([], [], [], []);
    var huffsize, numsymbols, huffcode, maxcode, valoffset, nbits, syms;
    ok, huffsize, numsymbols := MakeSizes(t.bits);
    if !ok {
      return;
    }
    ok, huffcode := MakeCodes(t.bits, huffsize, numsymbols);
    if !ok {
      return;
    }
    hide Legal;
    maxcode, valoffset := MakeLevels(t.bits, huffcode);
    nbits, syms := MakeLookahead(t, huffcode);
    if isDC {
      for i := 0 to numsymbols
        invariant forall k :: 0 <= k < i ==> t.huffval[k] <= 15
      {
        if t.huffval[i] > 15 {
          return false, d;
        }
      }
    }
    ok, d := true, DecodeTable(maxcode, valoffset, nbits, syms);
  }
}
