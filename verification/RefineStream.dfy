/** The stream of an AC refinement scan decodes to the coefficients with one more bit. */
module RefineStream {
  import opened Integers
  import opened Words
  import opened BitStrings
  import opened Coefficients
  import opened HuffTables
  import opened HuffDerived
  import opened HuffBitWriter
  import opened HuffDecode
  import opened HuffTokens
  import opened HuffBlocks
  import opened RefineDecoding
  import opened RefineEncoding

  /**
   * The band's positions below k hold the coefficients down to bit al, the others down to bit al + 1; the rest is base.
   */
  ghost predicate Progress(band: Band, base: seq<Coef>, cur: seq<Coef>, b: Block, k: nat)
    requires IsBand(band)
  {
    && SameElsewhere(band, base, cur)
    && forall j :: band.ss <= j <= band.se ==>
         cur[band.order[j]] as int == Trunc(b[band.order[j]], if j < k then band.al else band.al + 1)
  }

  lemma ProgressStep(band: Band, base: seq<Coef>, cur: seq<Coef>, b: Block, k: nat, v: Coef)
    requires IsBand(band) && band.ss <= k <= band.se && Progress(band, base, cur, b, k)
    requires v as int == Trunc(b[band.order[k]], band.al)
    ensures Progress(band, base, cur[band.order[k] := v], b, k + 1)
    ensures cur[band.order[k]] == v ==> Progress(band, base, cur, b, k + 1)
  {
    hide Trunc;
  }

  /** The coefficient at position k before and after it is decoded. */
  lemma AtPosition(band: Band, base: seq<Coef>, cur: seq<Coef>, b: Block, k: nat)
    requires IsBand(band) && band.ss <= k <= band.se && Progress(band, base, cur, b, k)
    ensures var v, m := cur[band.order[k]], Mag(band, b, k);
            && (m <= 1 <==> v == 0)
            && (m == 0 ==> Trunc(b[band.order[k]], band.al) == 0)
            && (m == 1 ==> Trunc(b[band.order[k]], band.al) == NewCoef(SignOf(b[band.order[k]]), band.al))
            && (m > 1 ==> Trunc(b[band.order[k]], band.al) == Corrected(v, m % 2, band.al))
  {
    hide Trunc, Shifted, Corrected, NewCoef;
    OneMoreBit(b[band.order[k]], band.al);
  }

  /** A correction bit in the stream. */
  lemma CorrectionHead(band: Band, t: Table, b: Block, k: nat, end: nat, data: seq<byte>, at: nat)
    requires IsBand(band) && Proper(OneBook(t)) && k < end <= band.se + 1
    ensures var here, rest := Corrections(band, b, k, end), Corrections(band, b, k + 1, end);
            if Mag(band, b, k) > 1 then
              && |Spell(OneBook(t), here)| == 1 + |Spell(OneBook(t), rest)|
              && (Carries(data, at, Spell(OneBook(t), here)) ==>
                    BitAt(data, at) == Mag(band, b, k) % 2 && Carries(data, at + 1, Spell(OneBook(t), rest)))
            else here == rest
  {
    hide Mag, Spell, BitAt, Proper;
    if Mag(band, b, k) > 1 {
      var tok := Bits(Mag(band, b, k) % 2, 1);
      AheadSplit(OneBook(t), data, at, tok, Corrections(band, b, k + 1, end));
      OneLowBit(Mag(band, b, k) % 2);
      assert TokenBits(OneBook(t), tok) == [Mag(band, b, k) % 2];
      SingleCarried(data, at, Mag(band, b, k) % 2);
    }
  }

  lemma OneLowBit(v: int)
    ensures LowBits(v, 1) == [v % 2]
  {
    var s := LowBits(v, 1);
    assert Pow2(1) == 2 * Pow2(0);
    assert s[..0] == [];
    assert Number(s) == 2 * Number([]) + s[0];
  }

  lemma SingleCarried(data: seq<byte>, at: nat, b: bit)
    ensures Carries(data, at, [b]) <==> BitAt(data, at) == b
  {
    hide BitAt;
    var s := BitsAt(data, at, 1);
    assert s[0] == BitAt(data, at + 0);
  }

  /** Walking to the zero at position j applies the corrections on the way. */
  lemma {:induction false} AdvanceDecodes(band: Band, t: Table, base: seq<Coef>, cur: seq<Coef>, b: Block, k: nat,
      j: nat, data: seq<byte>, at: nat)
    requires IsBand(band) && Proper(OneBook(t)) && band.ss <= k <= j <= band.se && Progress(band, base, cur, b, k)
    requires Mag(band, b, j) <= 1 && forall i :: k <= i < j ==> Mag(band, b, i) != 1
    requires Carries(data, at, Spell(OneBook(t), Corrections(band, b, k, j)))
    ensures var w := Advance(band, cur, k, ZerosIn(band, b, k, j), data, at);
            w.k == j && w.at == at + |Spell(OneBook(t), Corrections(band, b, k, j))| && Progress(band, base, w.b, b, j)
    decreases j - k
  {
    hide Mag, Spell, BitAt, Corrected, Trunc, NewCoef, Progress, Carries, Proper;
    ProgressLength(band, base, cur, b, k);
    AtPosition(band, base, cur, b, k);
    if k < j {
      CorrectionHead(band, t, b, k, j, data, at);
      if Mag(band, b, k) > 1 {
        var v := Corrected(cur[band.order[k]], BitAt(data, at), band.al);
        ProgressStep(band, base, cur, b, k, v);
        AdvanceDecodes(band, t, base, cur[band.order[k] := v], b, k + 1, j, data, at + 1);
      } else {
        ProgressStep(band, base, cur, b, k, 0);
        AdvanceDecodes(band, t, base, cur, b, k + 1, j, data, at);
      }
    } else {
      NothingSpelled1(t);
    }
  }

  lemma NothingSpelled1(t: Table)
    requires Proper(OneBook(t))
    ensures Spell(OneBook(t), []) == []
  {
  }

  lemma ProgressLength(band: Band, base: seq<Coef>, cur: seq<Coef>, b: Block, k: nat)
    requires IsBand(band) && Progress(band, base, cur, b, k)
    ensures |cur| == DCTSIZE2
  {
  }

  /** The rest of a band without new coefficients. */
  lemma {:induction false} FinishDecodes(band: Band, t: Table, base: seq<Coef>, cur: seq<Coef>, b: Block, k: nat,
      data: seq<byte>, at: nat)
    requires IsBand(band) && Proper(OneBook(t)) && band.ss <= k <= band.se + 1 && Progress(band, base, cur, b, k)
    requires NextNew(band, b, k) > band.se
    requires Carries(data, at, Spell(OneBook(t), Corrections(band, b, k, band.se + 1)))
    ensures var w := Finish(band, cur, k, data, at);
            && w.at == at + |Spell(OneBook(t), Corrections(band, b, k, band.se + 1))|
            && Progress(band, base, w.b, b, band.se + 1)
    decreases band.se + 1 - k
  {
    hide Mag, Spell, BitAt, Corrected, Trunc, NewCoef, Progress, Carries, Proper;
    ProgressLength(band, base, cur, b, k);
    if k <= band.se {
      AtPosition(band, base, cur, b, k);
      CorrectionHead(band, t, b, k, band.se + 1, data, at);
      if Mag(band, b, k) > 1 {
        var v := Corrected(cur[band.order[k]], BitAt(data, at), band.al);
        ProgressStep(band, base, cur, b, k, v);
        FinishDecodes(band, t, base, cur[band.order[k] := v], b, k + 1, data, at + 1);
      } else {
        ProgressStep(band, base, cur, b, k, 0);
        FinishDecodes(band, t, base, cur, b, k + 1, data, at);
      }
    } else {
      NothingSpelled1(t);
    }
  }

  /** A coded symbol in the stream is read back. */
  lemma SymbolHead(t: Table, s: byte, rest: seq<Token>, data: seq<byte>, at: nat) returns (at1: nat)
    requires Proper(OneBook(t)) && AllCoded(OneBook(t), [Symbol(false, 0, s)] + rest)
    requires Carries(data, at, Spell(OneBook(t), [Symbol(false, 0, s)] + rest))
    ensures IsTable(t) && SymbolRead(t, data, at) == (s, at1) && AllCoded(OneBook(t), rest)
    ensures Carries(data, at1, Spell(OneBook(t), rest))
    ensures at1 + |Spell(OneBook(t), rest)| == at + |Spell(OneBook(t), [Symbol(false, 0, s)] + rest)|
  {
    hide Spell, AllCoded, Carries, SymbolRead, Legal, CountTo, ProperSymbols;
    SpellHead(OneBook(t), Symbol(false, 0, s), rest);
    AheadSplit(OneBook(t), data, at, Symbol(false, 0, s), rest);
    assert OneBook(t).ac[0] == t;
    at1 := at + |WordOf(t, s)|;
    WordRead(t, s, data, at);
  }

  lemma WordRead(t: Table, s: byte, data: seq<byte>, at: nat)
    requires ProperTable(t, false) && Coded(t, s) && Carries(data, at, WordOf(t, s))
    ensures SymbolRead(t, data, at) == (s, at + |WordOf(t, s)|)
  {
    hide Carries, CountTo, Legal, ProperSymbols, IndexOf, Length, Code;
    var p := IndexOf(t, s, Symbols(t));
    assert Stands(t, data, at, p);
    forall q: nat | Stands(t, data, at, q)
      ensures q == p
    {
      StandsOnce(t, data, at, p, q);
    }
  }

  /** Raw bits in the stream. */
  lemma BitsHead(t: Table, v: int, n: nat, rest: seq<Token>, data: seq<byte>, at: nat)
    requires Proper(OneBook(t)) && AllCoded(OneBook(t), [Bits(v, n)] + rest)
    requires Carries(data, at, Spell(OneBook(t), [Bits(v, n)] + rest))
    ensures Number(BitsAt(data, at, n)) == v % Pow2(n) && AllCoded(OneBook(t), rest)
    ensures n == 1 ==> BitAt(data, at) == v % 2
    ensures Carries(data, at + n, Spell(OneBook(t), rest))
    ensures n + |Spell(OneBook(t), rest)| == |Spell(OneBook(t), [Bits(v, n)] + rest)|
  {
    hide Spell, AllCoded, BitAt, Number, Pow2, Proper;
    SpellHead(OneBook(t), Bits(v, n), rest);
    AheadSplit(OneBook(t), data, at, Bits(v, n), rest);
    assert BitsAt(data, at, n) == LowBits(v, n);
    if n == 1 {
      OneLowBit(v);
      SingleCarried(data, at, v % 2);
    }
  }

  lemma ListHead(t: Table, toks: seq<Token>, rest: seq<Token>, data: seq<byte>, at: nat)
    requires Proper(OneBook(t)) && AllCoded(OneBook(t), toks + rest)
      && Carries(data, at, Spell(OneBook(t), toks + rest))
    ensures AllCoded(OneBook(t), toks) && AllCoded(OneBook(t), rest)
    ensures Carries(data, at, Spell(OneBook(t), toks))
      && Carries(data, at + |Spell(OneBook(t), toks)|, Spell(OneBook(t), rest))
    ensures |Spell(OneBook(t), toks + rest)| == |Spell(OneBook(t), toks)| + |Spell(OneBook(t), rest)|
  {
    hide Spell, AllCoded, Carries, Proper;
    SpellConcat(OneBook(t), toks, rest);
    CarriesConcat(data, at, Spell(OneBook(t), toks), Spell(OneBook(t), rest));
  }

  /** Zeros, or a zero target, make no difference to where the head ends. */
  lemma SameTail(band: Band, b: Block, k: nat, z: nat)
    requires IsBand(band) && k <= z <= band.se && forall i :: k <= i <= z ==> Mag(band, b, i) != 1
    ensures NextNew(band, b, k) <= band.se ==> TailStart(band, b, k) == TailStart(band, b, z + 1)
  {
    hide Mag;
    SameNext(band, b, k, z);
  }

  lemma {:induction false} SameNext(band: Band, b: Block, k: nat, z: nat)
    requires IsBand(band) && k <= z <= band.se && forall i :: k <= i <= z ==> Mag(band, b, i) != 1
    ensures NextNew(band, b, k) == NextNew(band, b, z + 1)
    decreases z - k
  {
    hide Mag;
    if k < z {
      SameNext(band, b, k + 1, z);
    }
  }

  /** A run of sixteen zeros in the head. */
  lemma ZrlDecodes(band: Band, t: Table, base: seq<Coef>, cur: seq<Coef>, b: Block, k: nat, rest: seq<Token>,
      data: seq<byte>, at: nat)
    returns (z: nat, cur1: seq<Coef>, at1: nat)
    requires IsBand(band) && Proper(OneBook(t)) && band.ss <= k <= band.se && Progress(band, base, cur, b, k)
    requires NextNew(band, b, k) <= band.se && ZerosIn(band, b, k, NextNew(band, b, k)) > 15
    requires var toks := [Symbol(false, 0, ZRL)]
                         + (Corrections(band, b, k, NthZero(band, b, k, NextNew(band, b, k), 15)) + rest);
             AllCoded(OneBook(t), toks) && Carries(data, at, Spell(OneBook(t), toks))
    ensures IsTable(t) && |cur| == |cur1| == DCTSIZE2
    ensures z == NthZero(band, b, k, NextNew(band, b, k), 15)
    ensures Progress(band, base, cur1, b, z + 1) && AllCoded(OneBook(t), rest)
      && Carries(data, at1, Spell(OneBook(t), rest))
    ensures at1 + |Spell(OneBook(t), rest)|
            == at + |Spell(OneBook(t), [Symbol(false, 0, ZRL)] + (Corrections(band, b, k, z) + rest))|
    ensures Remaining(band, t, cur, k, data, at) == Remaining(band, t, cur1, z + 1, data, at1)
  {
    hide Mag, Spell, AllCoded, Carries, Progress, Corrections, Advance, Remaining, SymbolRead, NewCoef, Trunc, Proper;
    ProgressLength(band, base, cur, b, k);
    z := NthZero(band, b, k, NextNew(band, b, k), 15);
    var corr := Corrections(band, b, k, z);
    var a1 := SymbolHead(t, ZRL, corr + rest, data, at);
    ListHead(t, corr, rest, data, a1);
    AdvanceDecodes(band, t, base, cur, b, k, z, data, a1);
    var w := Advance(band, cur, k, 15, data, a1);
    cur1, at1 := w.b, w.at;
    RemainingUnroll(band, t, cur, k, data, at, 15, 0, a1);
    AtPosition(band, base, w.b, b, z);
    ProgressStep(band, base, w.b, b, z, 0);
    ProgressLength(band, base, cur1, b, z);
  }

  /** A new coefficient in the head. */
  lemma NewDecodes(band: Band, t: Table, base: seq<Coef>, cur: seq<Coef>, b: Block, k: nat, rest: seq<Token>,
      data: seq<byte>, at: nat)
    returns (cur1: seq<Coef>, at1: nat)
    requires IsBand(band) && Proper(OneBook(t)) && band.ss <= k <= band.se && Progress(band, base, cur, b, k)
    requires NextNew(band, b, k) <= band.se && ZerosIn(band, b, k, NextNew(band, b, k)) <= 15
    requires var j := NextNew(band, b, k);
             var toks := NewTokens(band, b, j, ZerosIn(band, b, k, j)) + (Corrections(band, b, k, j) + rest);
             AllCoded(OneBook(t), toks) && Carries(data, at, Spell(OneBook(t), toks))
    ensures var j := NextNew(band, b, k);
            && IsTable(t) && |cur| == |cur1| == DCTSIZE2 && Progress(band, base, cur1, b, j + 1)
            && AllCoded(OneBook(t), rest) && Carries(data, at1, Spell(OneBook(t), rest))
            && at1 + |Spell(OneBook(t), rest)|
               == at + |Spell(OneBook(t),
                 NewTokens(band, b, j, ZerosIn(band, b, k, j)) + (Corrections(band, b, k, j) + rest))|
            && Remaining(band, t, cur, k, data, at) == Remaining(band, t, cur1, j + 1, data, at1)
  {
    hide Mag, Spell, AllCoded, Carries, Progress, Corrections, Advance, Remaining, SymbolRead, NewCoef, Trunc, Proper;
    hide BitAt, BitsAt, Number;
    ProgressLength(band, base, cur, b, k);
    var j := NextNew(band, b, k);
    var r, sign, corr := ZerosIn(band, b, k, j), SignOf(b[band.order[j]]), Corrections(band, b, k, j);
    assert NewTokens(band, b, j, r) + (corr + rest)
      == [Symbol(false, 0, 16 * r + 1)] + ([Bits(sign, 1)] + (corr + rest));
    var a1 := SymbolHead(t, 16 * r + 1, [Bits(sign, 1)] + (corr + rest), data, at);
    BitsHead(t, sign, 1, corr + rest, data, a1);
    ListHead(t, corr, rest, data, a1 + 1);
    AdvanceDecodes(band, t, base, cur, b, k, j, data, a1 + 1);
    var w := Advance(band, cur, k, r, data, a1 + 1);
    RemainingUnroll(band, t, cur, k, data, at, r, 1, a1);
    var v := NewCoef(sign, band.al);
    NewHasBit(sign, band.al);
    cur1, at1 := Placed(band, w, v), w.at;
    AtPosition(band, base, w.b, b, j);
    ProgressStep(band, base, w.b, b, j, v);
    ProgressLength(band, base, cur1, b, j + 1);
  }

  /** The head of a block. */
  lemma {:induction false} HeadDecodes(band: Band, t: Table, base: seq<Coef>, cur: seq<Coef>, b: Block, k: nat,
      data: seq<byte>, at: nat)
    returns (cur1: seq<Coef>, at1: nat)
    requires IsBand(band) && Proper(OneBook(t)) && band.ss <= k <= band.se + 1 && Progress(band, base, cur, b, k)
    requires AllCoded(OneBook(t), HeadFrom(band, b, k)) && Carries(data, at, Spell(OneBook(t), HeadFrom(band, b, k)))
    ensures IsTable(t) && |cur| == |cur1| == DCTSIZE2
    ensures Progress(band, base, cur1, b, TailStart(band, b, k))
      && at1 == at + |Spell(OneBook(t), HeadFrom(band, b, k))|
    ensures Remaining(band, t, cur, k, data, at) == Remaining(band, t, cur1, TailStart(band, b, k), data, at1)
    decreases band.se + 1 - k
  {
    hide Mag, Spell, AllCoded, Carries, Progress, Corrections, Advance, Remaining, NewTokens, Trunc, Proper;
    hide HeadFrom, TailStart, NextNew, ZerosIn, NthZero;
    ProgressLength(band, base, cur, b, k);
    BookIsTable(t);
    HeadUnroll(band, b, k);
    cur1, at1 := cur, at;
    var j := NextNew(band, b, k);
    if j > band.se {
      NothingSpelled1(t);
    } else if ZerosIn(band, b, k, j) > 15 {
      var z := NthZero(band, b, k, j, 15);
      z, cur1, at1 := ZrlDecodes(band, t, base, cur, b, k, HeadFrom(band, b, z + 1), data, at);
      cur1, at1 := HeadDecodes(band, t, base, cur1, b, z + 1, data, at1);
    } else {
      cur1, at1 := NewDecodes(band, t, base, cur, b, k, HeadFrom(band, b, j + 1), data, at);
      cur1, at1 := HeadDecodes(band, t, base, cur1, b, j + 1, data, at1);
    }
  }

  lemma HeadUnroll(band: Band, b: Block, k: nat)
    requires IsBand(band) && k <= band.se + 1
    ensures var j := NextNew(band, b, k);
            if j > band.se then HeadFrom(band, b, k) == [] && TailStart(band, b, k) == k
            else if ZerosIn(band, b, k, j) > 15 then
              var z := NthZero(band, b, k, j, 15);
              && HeadFrom(band, b, k)
                 == [Symbol(false, 0, ZRL)] + (Corrections(band, b, k, z) + HeadFrom(band, b, z + 1))
              && TailStart(band, b, k) == TailStart(band, b, z + 1)
            else
              && HeadFrom(band, b, k) == NewTokens(band, b, j, ZerosIn(band, b, k, j))
                                         + (Corrections(band, b, k, j) + HeadFrom(band, b, j + 1))
              && TailStart(band, b, k) == TailStart(band, b, j + 1)
  {
    hide Mag, Corrections, NewTokens, TailStart, NextNew, ZerosIn, NthZero;
    TailUnroll(band, b, k);
  }

  lemma TailUnroll(band: Band, b: Block, k: nat)
    requires IsBand(band) && k <= band.se + 1
    ensures var j := NextNew(band, b, k);
            if j > band.se then TailStart(band, b, k) == k
            else if ZerosIn(band, b, k, j) > 15 then
              TailStart(band, b, k) == TailStart(band, b, NthZero(band, b, k, j, 15) + 1)
            else TailStart(band, b, k) == TailStart(band, b, j + 1)
  {
    hide Mag, NextNew, ZerosIn, NthZero;
    var j := NextNew(band, b, k);
    if j <= band.se && ZerosIn(band, b, k, j) > 15 {
      SameTail(band, b, k, NthZero(band, b, k, j, 15));
    }
  }

  lemma BookIsTable(t: Table)
    requires Proper(OneBook(t))
    ensures ProperTable(t, false) && IsTable(t)
  {
    hide Legal, CountTo;
    assert OneBook(t).ac[0] == t;
  }

  /** An end-of-band symbol announces its run. */
  lemma RunDecodes(band: Band, t: Table, cur: seq<Coef>, k: nat, n: nat, rest: seq<Token>, data: seq<byte>, at: nat)
    returns (at1: nat)
    requires IsBand(band) && Proper(OneBook(t)) && k <= band.se && |cur| == DCTSIZE2 && 1 <= n <= 0x7FFF
    requires AllCoded(OneBook(t), RunTokens(n) + rest) && Carries(data, at, Spell(OneBook(t), RunTokens(n) + rest))
    ensures IsTable(t) && AllCoded(OneBook(t), rest) && Carries(data, at1, Spell(OneBook(t), rest))
    ensures at1 + |Spell(OneBook(t), rest)| == at + |Spell(OneBook(t), RunTokens(n) + rest)|
    ensures Remaining(band, t, cur, k, data, at) == EndBand(band, cur, k, n, data, at1)
  {
    hide Spell, AllCoded, Carries, Remaining, SymbolRead, EndBand, Proper, NumBits, Number, Pow2, BitsAt;
    var r: nat := NumBits(n) - 1;
    NumBitsRange(n);
    NumBitsBound(n, 15);
    var a1;
    if r == 0 {
      a1 := SymbolHead(t, 0, rest, data, at);
      at1 := a1;
      NumberEmpty();
      assert BitsAt(data, a1, 0) == [];
      PowerBounds();
    } else {
      assert RunTokens(n) + rest == [Symbol(false, 0, 16 * r)] + ([Bits(n, r)] + rest);
      a1 := SymbolHead(t, 16 * r, [Bits(n, r)] + rest, data, at);
      BitsHead(t, n, r, rest, data, a1);
      at1 := a1 + r;
      TopBitOff(n, r);
    }
    RemainingUnroll(band, t, cur, k, data, at, r, 0, a1);
  }

  lemma PowerBounds()
    ensures Pow2(0) == 1 && Pow2(1) == 2
  {
  }

  lemma TopBitOff(n: nat, r: nat)
    requires Pow2(r) <= n < Pow2(r + 1)
    ensures Pow2(r) + n % Pow2(r) == n
  {
    Pow2Step(r);
    hide Pow2;
    QuotientShift(n - Pow2(r), 1, Pow2(r));
    RemainderShift(n, Pow2(r));
  }

  lemma RemainderShift(n: nat, p: nat)
    requires p <= n < 2 * p
    ensures n % p == n - p
  {
    UniqueQuotient(p, n / p, n % p, 1, n - p);
  }

  // ---------------------------------------------------------------------------------------------
  // Whole scans
  // ---------------------------------------------------------------------------------------------

  predicate AreGroups(band: Band, groups: seq<seq<Block>>)
    requires IsBand(band)
  {
    forall i :: 0 <= i < |groups| ==> IsGroup(band, groups[i])
  }

  function StreamTokens(band: Band, groups: seq<seq<Block>>): (toks: seq<Token>)
    requires IsBand(band) && AreGroups(band, groups)
    decreases |groups|
  {
    if groups == [] then [] else GroupTokens(band, groups[0]) + StreamTokens(band, groups[1..])
  }

  /** The blocks of the groups, one after the other. */
  function Flat(groups: seq<seq<Block>>): (blocks: seq<Block>)
    decreases |groups|
  {
    if groups == [] then [] else groups[0] + Flat(groups[1..])
  }

  predicate AreFollowers(band: Band, blocks: seq<Block>)
    requires IsBand(band)
  {
    forall i :: 0 <= i < |blocks| ==> NextNew(band, blocks[i], band.ss) > band.se
  }

  /** The tokens for the blocks still in an end-of-band run and for the groups after them. */
  function TokensAhead(band: Band, follow: seq<Block>, groups: seq<seq<Block>>): (toks: seq<Token>)
    requires IsBand(band) && AreGroups(band, groups)
  {
    Followers(band, follow) + StreamTokens(band, groups)
  }

  /** The stream goes on with the blocks follow, which are in an end-of-band run, and then with groups, up to end. */
  ghost predicate Awaits(band: Band, t: Table, follow: seq<Block>, groups: seq<seq<Block>>, run: nat,
                         data: seq<byte>, at: nat, end: nat)
    requires IsBand(band) && Proper(OneBook(t))
  {
    && run == |follow| && AreFollowers(band, follow) && AreGroups(band, groups)
    && AllCoded(OneBook(t), TokensAhead(band, follow, groups))
    && Carries(data, at, Spell(OneBook(t), TokensAhead(band, follow, groups)))
    && at + |Spell(OneBook(t), TokensAhead(band, follow, groups))| == end
  }

  /** The next block in an end-of-band run. */
  lemma FollowerDecodes(band: Band, t: Table, base: seq<Coef>, cur: seq<Coef>, follow: seq<Block>,
      groups: seq<seq<Block>>, run: nat, data: seq<byte>, at: nat, end: nat)
    requires IsBand(band) && Proper(OneBook(t)) && Awaits(band, t, follow, groups, run, data, at, end) && follow != []
    requires Progress(band, base, cur, follow[0], band.ss)
    ensures IsTable(t) && |cur| == DCTSIZE2
    ensures var out := Refined(band, t, cur, run, data, at);
            && Progress(band, base, out.b, follow[0], band.se + 1)
            && Awaits(band, t, follow[1..], groups, out.run, data, out.at, end)
  {
    hide Spell, AllCoded, Carries, Progress, Corrections, Finish, Remaining, StreamTokens, NextNew, Proper, IsGroup;
    ProgressLength(band, base, cur, follow[0], band.ss);
    BookIsTable(t);
    var corr := Corrections(band, follow[0], band.ss, band.se + 1);
    var rest := TokensAhead(band, follow[1..], groups);
    assert TokensAhead(band, follow, groups) == corr + rest;
    ListHead(t, corr, rest, data, at);
    FinishDecodes(band, t, base, cur, follow[0], band.ss, data, at);
  }

  /** The first block of a group. */
  lemma LeaderDecodes(band: Band, t: Table, base: seq<Coef>, cur: seq<Coef>, groups: seq<seq<Block>>, data: seq<byte>,
      at: nat, end: nat)
    requires IsBand(band) && Proper(OneBook(t)) && Awaits(band, t, [], groups, 0, data, at, end) && groups != []
    requires IsGroup(band, groups[0]) && Progress(band, base, cur, groups[0][0], band.ss)
    ensures IsTable(t) && |cur| == DCTSIZE2
    ensures var out := Refined(band, t, cur, 0, data, at);
            && Progress(band, base, out.b, groups[0][0], band.se + 1)
            && Awaits(band, t, groups[0][1..], groups[1..], out.run, data, out.at, end)
  {
    hide Spell, AllCoded, Carries, Progress, Corrections, Finish, Remaining, NextNew, Proper, HeadFrom, RunTokens;
    hide TailStart, Followers;
    var g := groups[0];
    ProgressLength(band, base, cur, g[0], band.ss);
    BookIsTable(t);
    var tail, rest := TailStart(band, g[0], band.ss), TokensAhead(band, g[1..], groups[1..]);
    NoFollowers(band);
    GroupAhead(band, groups);
    assert TokensAhead(band, [], groups) == StreamTokens(band, groups);
    var head := HeadFrom(band, g[0], band.ss);
    if tail > band.se {
      ListHead(t, head, rest, data, at);
      var cur1, at1 := HeadDecodes(band, t, base, cur, g[0], band.ss, data, at);
      RemainingDone(band, t, cur1, tail, data, at1);
      ProgressPast(band, base, cur1, g[0], tail);
    } else {
      var corr := Corrections(band, g[0], tail, band.se + 1);
      ListHead(t, head, RunTokens(|g|) + (corr + rest), data, at);
      var cur1, at1 := HeadDecodes(band, t, base, cur, g[0], band.ss, data, at);
      var at2 := RunDecodes(band, t, cur1, tail, |g|, corr + rest, data, at1);
      ListHead(t, corr, rest, data, at2);
      FinishDecodes(band, t, base, cur1, g[0], tail, data, at2);
    }
  }

  lemma ProgressPast(band: Band, base: seq<Coef>, cur: seq<Coef>, b: Block, k: nat)
    requires IsBand(band) && Progress(band, base, cur, b, k) && k > band.se
    ensures Progress(band, base, cur, b, band.se + 1)
  {
    hide Trunc;
  }

  lemma NoFollowers(band: Band)
    requires IsBand(band)
    ensures Followers(band, []) == []
  {
  }

  /** The tokens of a group and what comes after it. */
  lemma GroupAhead(band: Band, groups: seq<seq<Block>>)
    requires IsBand(band) && AreGroups(band, groups) && groups != []
    ensures IsGroup(band, groups[0]) && AreGroups(band, groups[1..])
    ensures var g := groups[0];
            var tail, rest := TailStart(band, g[0], band.ss), TokensAhead(band, g[1..], groups[1..]);
            && AreFollowers(band, g[1..])
            && (tail > band.se ==> |g| == 1 && StreamTokens(band, groups) == HeadFrom(band, g[0], band.ss) + rest)
            && (tail <= band.se ==>
                  StreamTokens(band, groups)
                  == HeadFrom(band, g[0], band.ss)
                     + (RunTokens(|g|) + (Corrections(band, g[0], tail, band.se + 1) + rest)))
  {
    hide HeadFrom, RunTokens, TailStart, NextNew, Corrections, Followers, GroupTokens;
    assert IsGroup(band, groups[0]);
    NoFollowers(band);
    GroupParts(band, groups[0], StreamTokens(band, groups[1..]));
  }

  lemma GroupParts(band: Band, g: seq<Block>, later: seq<Token>)
    requires IsBand(band) && IsGroup(band, g)
    ensures var tail := TailStart(band, g[0], band.ss);
            && (tail > band.se ==> |g| == 1 && g[1..] == []
                                   && GroupTokens(band, g) + later == HeadFrom(band, g[0], band.ss) + ([] + later))
            && (tail <= band.se ==>
                  GroupTokens(band, g) + later
                  == HeadFrom(band, g[0], band.ss)
                     + (RunTokens(|g|) + (Corrections(band, g[0], tail, band.se + 1)
                       + (Followers(band, g[1..]) + later))))
  {
    hide HeadFrom, RunTokens, TailStart, NextNew, Corrections, Followers;
    var tail := TailStart(band, g[0], band.ss);
    if tail <= band.se {
      RegroupTokens(HeadFrom(band, g[0], band.ss), RunTokens(|g|), Corrections(band, g[0], tail, band.se + 1),
                    Followers(band, g[1..]), later);
    }
  }

  lemma RegroupTokens(a: seq<Token>, b: seq<Token>, c: seq<Token>, d: seq<Token>, e: seq<Token>)
    ensures (a + (b + c + d)) + e == a + (b + (c + (d + e)))
  {
  }

  /** Whatever block comes next, it is refined, and the stream is then at the block after it. */
  lemma BlockDecodes(band: Band, t: Table, base: seq<Coef>, cur: seq<Coef>, follow: seq<Block>, groups: seq<seq<Block>>,
      run: nat, data: seq<byte>, at: nat, end: nat)
    returns (follow1: seq<Block>, groups1: seq<seq<Block>>)
    requires IsBand(band) && Proper(OneBook(t)) && Awaits(band, t, follow, groups, run, data, at, end)
    requires follow + Flat(groups) != [] && Progress(band, base, cur, (follow + Flat(groups))[0], band.ss)
    ensures IsTable(t) && |cur| == DCTSIZE2
    ensures var out := Refined(band, t, cur, run, data, at);
            && Progress(band, base, out.b, (follow + Flat(groups))[0], band.se + 1)
            && follow1 + Flat(groups1) == (follow + Flat(groups))[1..]
            && Awaits(band, t, follow1, groups1, out.run, data, out.at, end)
  {
    hide Refined, Progress, Spell, AllCoded, Carries, TokensAhead, AreFollowers, Proper;
    if follow != [] {
      FollowerDecodes(band, t, base, cur, follow, groups, run, data, at, end);
      follow1, groups1 := follow[1..], groups;
    } else {
      assert IsGroup(band, groups[0]);
      assert (follow + Flat(groups))[0] == groups[0][0];
      LeaderDecodes(band, t, base, cur, groups, data, at, end);
      follow1, groups1 := groups[0][1..], groups[1..];
    }
  }
}
