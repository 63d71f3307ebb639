/** The decoder for the first AC scan of a band. */
module AcFirstDecoder {
  import opened Words
  import opened Coefficients
  import opened HuffBitReader
  import opened HuffTokens
  import opened HuffBlocks
  import opened HuffReader
  import opened RefineDecoding
  import opened RefineEncoding
  import opened AcFirst

  /** The band's positions below k hold the coefficients of b cut down to bit al, the others are still zero. */
  ghost predicate Partly(band: Band, cur: seq<Coef>, b: Block, k: nat)
    requires IsBand(band)
  {
    && |cur| == DCTSIZE2
    && forall j :: band.ss <= j <= band.se ==>
       cur[band.order[j]] as int == if j < k then Trunc(b[band.order[j]], band.al) else 0
  }

  /** What a quotient stands for once it is moved back to its place. */
  lemma QuotientBack(v: Coef, al: nat)
    ensures ToCoef(Quotient(v, al) as int * Pow2(al)) as int == Trunc(v, al)
  {
    hide Shifted, Pow2;
    TruncIsCoef(v, al);
    Negated(Shifted(Magnitude(v), al), Pow2(al));
  }

  lemma Negated(m: nat, p: nat)
    ensures (0 - m) * p == 0 - m * p
  {
  }

  lemma PartlyStored(band: Band, cur: seq<Coef>, b: Block, k: nat, k1: nat, v: int)
    requires IsBand(band) && Partly(band, cur, b, k) && band.ss <= k <= k1 <= band.se
    requires forall j :: k <= j < k1 ==> Quotient(b[band.order[j]], band.al) == 0
    requires v == Quotient(b[band.order[k1]], band.al)
    ensures Partly(band, cur[band.order[k1] := ToCoef(v * Pow2(band.al))], b, k1 + 1)
  {
    hide Quotient, Trunc, Pow2, ToCoef;
    PartlyPassed(band, cur, b, k, k1);
    QuotientBack(b[band.order[k1]], band.al);
  }

  lemma ZeroQuotient(v: Coef, al: nat)
    requires Quotient(v, al) == 0
    ensures Trunc(v, al) == 0
  {
    hide Pow2, Shifted;
  }

  lemma PartlyPassed(band: Band, cur: seq<Coef>, b: Block, k: nat, k1: nat)
    requires IsBand(band) && Partly(band, cur, b, k) && band.ss <= k <= k1 <= band.se + 1
    requires forall j :: k <= j < k1 ==> Quotient(b[band.order[j]], band.al) == 0
    ensures Partly(band, cur, b, k1)
  {
    hide Quotient, Trunc;
    forall j | k <= j < k1
      ensures Trunc(b[band.order[j]], band.al) == 0
    {
      ZeroQuotient(b[band.order[j]], band.al);
    }
  }

  class FirstDecoder {
    const rd: SymbolReader
    const band: Band
    ghost const maxBits: nat  // of the encoder: coefficients have fewer bits
    var eobrun: nat           // blocks left in the current end-of-band run

    ghost predicate Set() {
      IsBand(band) && maxBits <= 15 && rd.Set() && Has(rd.books, false, 0)
    }

    ghost predicate Valid()
      reads this, rd.br
    {
      Set() && rd.br.Valid() && eobrun < 0x7FFF
    }

    constructor (rd: SymbolReader, band: Band, ghost maxBits: nat)
      requires IsBand(band) && maxBits <= 15 && rd.Set() && rd.br.Valid() && Has(rd.books, false, 0)
      ensures Valid() && this.rd == rd && this.band == band && this.maxBits == maxBits && eobrun == 0
    {
      this.rd, this.band, this.maxBits := rd, band, maxBits;
      eobrun := 0;
    }

    lemma Facts()
      requires Set()
      ensures IsBand(band) && maxBits <= 15 && rd.Set() && Has(rd.books, false, 0)
    {
    }

    /** The stream codes these blocks, the first run of which belong to the current end-of-band run. */
    ghost predicate Awaits(blocks: seq<Block>, run: nat, end: nat)
      reads rd.br
    {
      && Set() && run <= |blocks| && Silent(band, blocks[..run])
      && rd.Expects(Tokens(band, maxBits, blocks[run..], 0), end)
    }

    /** What is to be decoded of block b from position k on, and then of rest. */
    ghost function Onward(b: Block, k: nat, rest: seq<Block>): seq<Token>
      requires Set() && k <= End(band, b)
    {
      AcTokens(0, maxBits, Body(band, b), k, 0) + Tokens(band, maxBits, rest, if End(band, b) <= band.se then 1 else 0)
    }

    lemma StartOnward(b: Block, rest: seq<Block>, end: nat)
      requires Awaits([b] + rest, 0, end)
      ensures band.ss <= End(band, b) && rd.Expects(Onward(b, band.ss, rest), end)
    {
      hide SymbolReader.Expects, AcTokens, Tokens, Eob, End, Body;
      TokensUnroll(band, maxBits, b, rest, 0);
      assert ([b] + rest)[0..] == [b] + rest;
      NoRun();
      var more := Onward(b, band.ss, rest);
      assert [] + more == more;
      if End(band, b) == band.ss {
        AcUnroll(0, maxBits, Body(band, b), band.ss, 0);
        assert [] + Tokens(band, maxBits, rest, 1) == Tokens(band, maxBits, rest, 1);
      }
    }

    /** Blocks in the run that starts behind block b: b itself and those that join it. */
    ghost function RunFrom(rest: seq<Block>): (n: nat)
      requires Set()
      ensures 1 <= n <= 0x7FFF && n - 1 <= |rest| && Silent(band, rest[..n - 1])
    {
      Joining(band, rest, 1) + 1
    }

    /** Bits behind the symbol of a run, and what follows it. */
    ghost function BehindRun(rest: seq<Block>): seq<Token>
      requires Set()
    {
      var n := RunFrom(rest);
      (if NumBits(n) == 1 then [] else [Bits(n, NumBits(n) - 1)]) + Tokens(band, maxBits, rest[n - 1..], 0)
    }

    /** The symbol read at position k of block b is the right one, and the stream goes on behind it. */
    ghost predicate RunRead(b: Block, k: nat, rest: seq<Block>, r: nat, s: nat, end: nat)
      requires Set() && k <= End(band, b)
      reads rd.br
    {
      var z := Body(band, b);
      var ke := NextNonzero(z, k);
      if k == End(band, b) then s == 0 && 1 <= NumBits(RunFrom(rest)) == r + 1 <= 15 && rd.Expects(BehindRun(rest), end)
      else if ke - k > 15 then r == 15 && s == 0 && k + 16 <= |z| && rd.Expects(Onward(b, k + 16, rest), end)
      else
        && ke < |z| && r == ke - k && 1 <= s == NumBits(Magnitude(z[ke])) <= 15
        && rd.Expects([Bits(Appended(z[ke]), s)] + Onward(b, ke + 1, rest), end)
    }

    /** A block's coded part ends with a coefficient. */
    lemma NonzeroAhead(b: Block, k: nat)
      requires Set() && band.ss <= k < End(band, b)
      ensures NextNonzero(Body(band, b), k) < |Body(band, b)|
    {
      hide Quotient;
      assert Body(band, b)[End(band, b) - 1] == Sent(band, b)[End(band, b) - 1] != 0;
    }

    /** What a run symbol is followed by. */
    lemma RunOnward(b: Block, rest: seq<Block>)
      requires Set() && End(band, b) <= band.se
      ensures NumBits(RunFrom(rest)) <= 15 && NumBits(RunFrom(rest)) >= 1
      ensures Onward(b, End(band, b), rest) == [Symbol(false, 0, 16 * (NumBits(RunFrom(rest)) - 1))] + BehindRun(rest)
    {
      hide Tokens, End, Body, Joining, NumBits;
      AcUnroll(0, maxBits, Body(band, b), End(band, b), 0);
      RunSplit(band, maxBits, rest, 1);
      var n := RunFrom(rest);
      NumBitsBound(n, 15);
      assert [] + Tokens(band, maxBits, rest, 1) == Tokens(band, maxBits, rest, 1);
      assert rest[n - 1..] == rest[Joining(band, rest, 1)..];
      var nbits := NumBits(n) - 1;
      var later := Tokens(band, maxBits, rest[n - 1..], 0);
      if nbits == 0 {
        assert [] + later == later;
      } else {
        assert [Symbol(false, 0, 16 * nbits), Bits(n, nbits)] + later
          == [Symbol(false, 0, 16 * nbits)] + ([Bits(n, nbits)] + later);
      }
    }

    /** Reads a zero run and a category, or an end-of-band symbol. */
    method NextRun(ghost b: Block, ghost k: nat, ghost rest: seq<Block>, ghost end: nat) returns (r: nat, s: nat)
      requires Valid() && band.ss <= k <= band.se
      modifies rd, rd.br
      ensures rd.Moved(old(rd.br.insufficientData), old(rd.br.at)) && r <= 15 && s <= 15
      ensures k <= End(band, b) && old(rd.Expects(Onward(b, k, rest), end)) ==>
                RunRead(b, k, rest, r, s, end) && rd.badCodes == old(rd.badCodes)
    {
      hide Set, BitReader.Valid, SymbolReader.Expects, AcTokens, CoefTokens, NumBits, NextNonzero, Tokens, Body,
        BehindRun, End;
      Facts();
      ghost var sym0: byte, after := 0, [];
      if k < End(band, b) {
        ghost var z := Body(band, b);
        ghost var tail := Tokens(band, maxBits, rest, if End(band, b) <= band.se then 1 else 0);
        NonzeroAhead(b, k);
        NextTokens(0, maxBits, z, k, tail);
        ghost var ke := NextNonzero(z, k);
        if ke - k > 15 {
          sym0, after := ZRL, Onward(b, k + 16, rest);
        } else {
          CoefUnroll(0, maxBits, z[ke], ke - k, Onward(b, ke + 1, rest));
          if NumBits(Magnitude(z[ke])) < maxBits {
            sym0 := 16 * (ke - k) + NumBits(Magnitude(z[ke]));
            after := [Bits(Appended(z[ke]), NumBits(Magnitude(z[ke])))] + Onward(b, ke + 1, rest);
          } else {
            rd.FaultNotExpected(Onward(b, ke + 1, rest), end);
          }
        }
      } else if k == End(band, b) {
        RunOnward(b, rest);
        sym0, after := 16 * (NumBits(RunFrom(rest)) - 1), BehindRun(rest);
      }
      var sym := rd.NextSymbol(false, 0, sym0, after, end);
      r, s := sym / 16, sym % 16;
    }

    /** Reads the length of an end-of-band run, of which the current block is the first. */
    method ReadRun(r: nat, ghost b: Block, ghost rest: seq<Block>, ghost end: nat)
      requires Valid() && r <= 14 && eobrun == 0
      modifies this, rd.br
      ensures Valid() && rd.Moved(old(rd.br.insufficientData), old(rd.br.at))
      ensures old(RunRead(b, End(band, b), rest, r, 0, end)) ==> Awaits(rest, eobrun, end)
    {
      hide Set, BitReader.Valid, SymbolReader.Expects, AcTokens, NumBits, NextNonzero, Tokens, Body, End, Pow2, Silent,
        Joining;
      Facts();
      rd.StandsStill();
      ghost var n := RunFrom(rest);
      ghost var later := Tokens(band, maxBits, rest[n - 1..], 0);
      NumBitsBound(n, 15);
      RunValue(n);
      PowerBound(r);
      OneBit(n);
      assert [] + later == later;
      if r > 0 {
        var bits := rd.NextBits(r, n, later, end);
        eobrun := Pow2(r) + bits - 1;
      }
    }

    lemma PowerBound(r: nat)
      requires r <= 14
      ensures 2 * Pow2(r) <= 0x8000 && Pow2(0) == 1
    {
      Pow2Monotone(r, 14);
      Pow2Constants();
      assert Pow2(15) == 2 * Pow2(14);
    }

    lemma OneBit(n: nat)
      ensures NumBits(n) == 1 ==> n == 1
    {
    }

    /** Stores a coefficient at position k. */
    method Store(blk: array<Coef>, k: nat, x: int, ghost b: Block, ghost k0: nat, ghost before: seq<Coef>,
        ghost synced: bool)
      requires IsBand(band) && blk.Length == DCTSIZE2 && band.ss <= k <= band.se + 15
      requires synced ==> && band.ss <= k0 <= k < End(band, b) && Partly(band, blk[..], b, k0) && x == Body(band, b)[k]
                          && (forall j :: k0 <= j < k ==> Body(band, b)[j] == 0) && SameElsewhere(band, before, blk[..])
      modifies blk
      ensures synced ==> Partly(band, blk[..], b, k + 1) && SameElsewhere(band, before, blk[..])
    {
      hide Partly, SameElsewhere, Quotient, Pow2;
      ghost var cur := blk[..];
      var v := ToCoef(x * Pow2(band.al));
      blk[band.order[k]] := v;
      assert blk[..] == cur[band.order[k] := v];
      if synced {
        forall j | k0 <= j <= k
          ensures Body(band, b)[j] == Quotient(b[band.order[j]], band.al)
        {
        }
        PartlyStored(band, cur, b, k0, k, x);
        ElsewhereStored(band, before, cur, k, v);
      }
    }

    /** Reads the coefficient behind r zeros. */
    method ReadCoefficient(blk: array<Coef>, ghost b: Block, k: nat, r: nat, s: nat, ghost rest: seq<Block>,
        ghost end: nat, ghost before: seq<Coef>, ghost synced: bool)
      requires Valid() && blk.Length == DCTSIZE2 && band.ss <= k <= band.se && r <= 15 && 1 <= s <= 15
      requires synced ==> k <= End(band, b) && RunRead(b, k, rest, r, s, end)
      requires synced ==> Partly(band, blk[..], b, k) && SameElsewhere(band, before, blk[..])
      modifies rd.br, blk
      ensures Valid() && rd.Moved(old(rd.br.insufficientData), old(rd.br.at))
      ensures synced ==> k + r + 1 <= End(band, b) && rd.Expects(Onward(b, k + r + 1, rest), end)
      ensures synced ==> Partly(band, blk[..], b, k + r + 1) && SameElsewhere(band, before, blk[..])
    {
      hide BitReader.Valid, Set, SymbolReader.Expects, Partly, SameElsewhere, Onward, NextNonzero, Body, BehindRun,
        NumBits, End;
      Facts();
      ghost var ke := if k < End(band, b) then NextNonzero(Body(band, b), k) else k;
      var x := rd.NextValue(s, if ke < End(band, b) then Body(band, b)[ke] else 1,
                            if ke < End(band, b) then Onward(b, ke + 1, rest) else [], end);
      Store(blk, k + r, x, b, k, before, synced);
    }

    /** Passing a run of zeros. */
    lemma SkipZeros(cur: seq<Coef>, b: Block, k: nat)
      requires Set() && band.ss <= k && k + 16 <= End(band, b) && Partly(band, cur, b, k)
        && NextNonzero(Body(band, b), k) - k > 15
      ensures Partly(band, cur, b, k + 16)
    {
      hide Partly, Quotient, NextNonzero;
      forall j | k <= j < k + 16
        ensures Quotient(b[band.order[j]], band.al) == 0
      {
        assert Body(band, b)[j] == 0;
      }
      PartlyPassed(band, cur, b, k, k + 16);
    }

    /** Behind a block that goes to the end of its band. */
    lemma BandFull(b: Block, rest: seq<Block>, end: nat)
      requires Set() && End(band, b) == band.se + 1 && rd.Expects(Onward(b, band.se + 1, rest), end)
      ensures Awaits(rest, 0, end)
    {
      hide SymbolReader.Expects, Tokens, End, Body;
      AcUnroll(0, maxBits, Body(band, b), band.se + 1, 0);
      assert rest[0..] == rest;
      assert [] + Tokens(band, maxBits, rest, 0) == Tokens(band, maxBits, rest, 0);
    }

    /** Decodes the band of a block that is not in an end-of-band run. */
    method DecodeBand(blk: array<Coef>, ghost b: Block, ghost rest: seq<Block>, ghost end: nat)
      requires Valid() && eobrun == 0 && blk.Length == DCTSIZE2
      modifies this, rd, rd.br, blk
      ensures Valid() && rd.Moved(old(rd.br.insufficientData), old(rd.br.at))
      ensures old(Awaits([b] + rest, 0, end) && Partly(band, blk[..], b, band.ss)) ==>
                && Awaits(rest, eobrun, end) && Partly(band, blk[..], b, band.se + 1) && rd.badCodes == old(rd.badCodes)
                && SameElsewhere(band, old(blk[..]), blk[..])
    {
      hide BitReader.Valid, Set, SymbolReader.Expects, Partly, SameElsewhere, Awaits, Onward, NextNonzero, Body,
        BehindRun, NumBits;
      Facts();
      rd.StandsStill();
      ghost var before := blk[..];
      ghost var synced := Awaits([b] + rest, 0, end) && Partly(band, before, b, band.ss);
      if synced {
        StartOnward(b, rest, end);
      }
      Unchanged(before);
      var k: nat := band.ss;
      while k <= band.se
        invariant Valid() && eobrun == 0 && rd.Moved(old(rd.br.insufficientData), old(rd.br.at)) && band.ss <= k
        invariant synced ==> k <= End(band, b) && rd.Expects(Onward(b, k, rest), end) && Partly(band, blk[..], b, k)
        invariant synced ==> SameElsewhere(band, before, blk[..]) && rd.badCodes == old(rd.badCodes)
        decreases band.se + 1 - k
      {
        var r, s := NextRun(b, k, rest, end);
        if s != 0 {
          ReadCoefficient(blk, b, k, r, s, rest, end, before, synced);
          k := k + r + 1;
        } else if r != 15 {
          ReadRun(r, b, rest, end);
          if synced {
            RestIsZero(blk[..], b, k);
          }
          return;
        } else {
          if synced {
            SkipZeros(blk[..], b, k);
          }
          k := k + 16;
        }
      }
      if synced {
        BandFull(b, rest, end);
      }
    }

    /** Decodes one block whose band is still zero. */
    method DecodeMcu(blk: array<Coef>, ghost b: Block, ghost rest: seq<Block>, ghost end: nat)
      requires Valid() && blk.Length == DCTSIZE2
      modifies this, rd, rd.br, blk
      ensures Valid() && rd.Moved(old(rd.br.insufficientData), old(rd.br.at))
      ensures old(!rd.br.insufficientData && Awaits([b] + rest, eobrun, end) && Partly(band, blk[..], b, band.ss)) ==>
                && Awaits(rest, eobrun, end) && Partly(band, blk[..], b, band.se + 1) && rd.badCodes == old(rd.badCodes)
                && SameElsewhere(band, old(blk[..]), blk[..])
    {
      hide BitReader.Valid, Set, SymbolReader.Expects, Partly, SameElsewhere, Awaits, IsBand, End;
      Facts();
      rd.StandsStill();
      if rd.br.insufficientData {
        return;
      }
      if eobrun > 0 {
        SilentFirst(b, rest, eobrun, end);
        SilentIsDone(blk[..], b);
        Unchanged(blk[..]);
        eobrun := eobrun - 1;
        return;
      }
      DecodeBand(blk, b, rest, end);
    }

    lemma Unchanged(cur: seq<Coef>)
      requires IsBand(band) && |cur| == DCTSIZE2
      ensures SameElsewhere(band, cur, cur)
    {
    }

    /** The first block of a run has nothing to be decoded. */
    lemma SilentFirst(b: Block, rest: seq<Block>, run: nat, end: nat)
      requires run > 0
      ensures Awaits([b] + rest, run, end) ==> Awaits(rest, run - 1, end) && End(band, b) == band.ss
    {
      hide SymbolReader.Expects, Tokens, End;
      if Awaits([b] + rest, run, end) {
        var all := [b] + rest;
        assert all[..run][0] == b;
        assert all[run..] == rest[run - 1..];
        var front := rest[..run - 1];
        forall i | 0 <= i < |front|
          ensures End(band, front[i]) == band.ss
        {
          assert all[..run][i + 1] == front[i];
        }
      }
    }

    lemma SilentIsDone(cur: seq<Coef>, b: Block)
      requires IsBand(band)
      ensures Partly(band, cur, b, band.ss) && End(band, b) == band.ss ==> Partly(band, cur, b, band.se + 1)
    {
      hide Quotient, Partly;
      if Partly(band, cur, b, band.ss) && End(band, b) == band.ss {
        RestIsZero(cur, b, band.ss);
      }
    }

    /** Behind a block's coded part the band is zero. */
    lemma RestIsZero(cur: seq<Coef>, b: Block, k: nat)
      requires IsBand(band) && Partly(band, cur, b, k) && End(band, b) == k
      ensures Partly(band, cur, b, band.se + 1)
    {
      hide Quotient, Partly;
      forall j | k <= j <= band.se
        ensures Quotient(b[band.order[j]], band.al) == 0
      {
        assert Sent(band, b)[j] == 0;
      }
      PartlyPassed(band, cur, b, k, band.se + 1);
    }
  }
}
