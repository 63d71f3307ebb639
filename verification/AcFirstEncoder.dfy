/** The encoder for the first AC scan of a band: end-of-band runs are held back over any number of blocks. */
module AcFirstEncoder {
  import opened Coefficients
  import opened HuffTokens
  import opened HuffBlocks
  import opened HuffSink
  import opened RefineDecoding
  import opened AcFirst

  class FirstEncoder {
    const sink: TokenSink
    const band: Band
    const maxBits: nat  // coefficients must have fewer bits: precision + 3
    var eobrun: nat     // blocks in the end-of-band run held back

    ghost predicate Set() {
      IsBand(band) && maxBits <= 15 && sink.Set() && Has(sink.books, false, 0)
    }

    constructor (sink: TokenSink, band: Band, maxBits: nat)
      requires IsBand(band) && maxBits <= 15 && sink.Set() && Has(sink.books, false, 0)
      ensures Set() && this.sink == sink && this.band == band && this.maxBits == maxBits && eobrun == 0
    {
      this.sink, this.band, this.maxBits := sink, band, maxBits;
      eobrun := 0;
    }

    lemma Facts()
      requires Set()
      ensures IsBand(band) && maxBits <= 15 && sink.Set() && Has(sink.books, false, 0)
    {
    }

    ghost function After(b: Block): nat
      requires IsBand(band)
    {
      if End(band, b) <= band.se then 1 else 0
    }

    /** What is left to be sent when block b has been passed up to position k, with r zeros not yet accounted for. */
    ghost function Left(b: Block, rest: seq<Block>, k: nat, r: nat, run: nat): seq<Token>
      requires Set() && band.ss <= k <= band.se + 1 && run < 0x7FFF
    {
      var e := End(band, b);
      if e == band.ss then Tokens(band, maxBits, [b] + rest, run)
      else
        Eob(run) + (AcTokens(0, maxBits, Body(band, b), if k < e then k else e, if k < e then r else 0)
                    + Tokens(band, maxBits, rest, After(b)))
    }

    ghost predicate Position(b: Block, k: nat, r: nat, run: nat)
      requires Set()
    {
      && band.ss <= k <= band.se + 1 && run < 0x7FFF
      && (End(band, b) == band.ss ==> r == k - band.ss)
      && (End(band, b) > band.ss && k >= End(band, b) ==> r == k - End(band, b) && run == 0)
    }

    lemma StartLeft(b: Block, rest: seq<Block>, run: nat)
      requires Set() && run < 0x7FFF
      ensures Left(b, rest, band.ss, 0, run) == Tokens(band, maxBits, [b] + rest, run) && Position(b, band.ss, 0, run)
    {
      hide AcTokens, Eob, Tokens, End, Body;
      TokensUnroll(band, maxBits, b, rest, run);
    }

    /** A coefficient that the scan does not send. */
    lemma PassZero(b: Block, rest: seq<Block>, k: nat, r: nat, run: nat)
      requires Set() && Position(b, k, r, run) && k <= band.se && Quotient(b[band.order[k]], band.al) == 0
      ensures Left(b, rest, k + 1, r + 1, run) == Left(b, rest, k, r, run) && Position(b, k + 1, r + 1, run)
    {
      hide Eob, Tokens, AcTokens, CoefTokens, Quotient;
      if k < End(band, b) {
        assert Body(band, b)[k] == Sent(band, b)[k];
        AcUnroll(0, maxBits, Body(band, b), k, r);
        assert k + 1 < End(band, b);
      }
    }

    lemma AtNonzero(b: Block, rest: seq<Block>, k: nat, r: nat, run: nat)
      requires Set() && Position(b, k, r, run) && k <= band.se && Quotient(b[band.order[k]], band.al) != 0
      ensures band.ss < End(band, b) && k < End(band, b) == |Body(band, b)|
      ensures Body(band, b)[k] == Quotient(b[band.order[k]], band.al)
      ensures Left(b, rest, k, r, run) ==
              Eob(run) + (AcTokens(0, maxBits, Body(band, b), k, r) + Tokens(band, maxBits, rest, After(b)))
    {
      hide Eob, Tokens, AcTokens, Quotient;
      assert Sent(band, b)[k] != 0;
    }

    lemma Behind(b: Block, rest: seq<Block>, k: nat)
      requires Set() && band.ss <= k < End(band, b)
      ensures Left(b, rest, k + 1, 0, 0) ==
              AcTokens(0, maxBits, Body(band, b), k + 1, 0) + Tokens(band, maxBits, rest, After(b))
      ensures Position(b, k + 1, 0, 0)
    {
      hide Tokens, AcTokens;
      NoRunHeld(AcTokens(0, maxBits, Body(band, b), k + 1, 0) + Tokens(band, maxBits, rest, After(b)));
    }

    lemma NoRunHeld(toks: seq<Token>)
      ensures Eob(0) + toks == toks
    {
    }

    /** Emits any pending end-of-band run. */
    method EmitEobrun(ghost rest: seq<Token>, ghost goal: seq<Token>) returns (ok: bool)
      requires Set() && eobrun <= 0x7FFF && sink.Owes(Eob(eobrun) + rest, goal)
      modifies this, sink, sink.bw
      ensures if ok then eobrun == 0 && sink.Owes(rest, goal) else !sink.TakesAll(goal)
    {
      hide TokenSink.Set, TokenSink.Owes, IsBand, RunTokens, TokenSink.TakesAll;
      Facts();
      NoRunHeld(rest);
      ok := true;
      if eobrun > 0 {
        ok := sink.OweRun(eobrun, rest, goal);
        if ok {
          eobrun := 0;
        }
      }
    }

    /** Emits a nonzero coefficient after r zeros. */
    method EncodeCoefficient(v: Coef, r: nat, ghost rest: seq<Token>, ghost goal: seq<Token>) returns (ok: bool)
      requires Set() && r <= 15 && v != 0 && sink.Owes(CoefTokens(0, maxBits, v, r) + rest, goal)
      modifies sink, sink.bw
      ensures if ok then sink.Owes(rest, goal) else !sink.TakesAll(goal)
    {
      hide TokenSink.Set, TokenSink.Owes, IsBand, NumBits, CoefTokens, TokenSink.TakesAll;
      Facts();
      CoefUnroll(0, maxBits, v, r, rest);
      var nbits := CountBits(Magnitude(v));
      if nbits >= maxBits {
        sink.FaultRefused(rest, goal);
        return false;
      }
      ok := sink.OweSymbol(false, 0, 16 * r + nbits, [Bits(Appended(v), nbits)] + rest, goal);
      if ok {
        sink.OweBits(Appended(v), nbits, rest, goal);
      }
    }

    /** Emits the coefficient at position k, after the run held back and the zeros before it. */
    method EncodeNonzero(b: Block, v: Coef, k: nat, r: nat, ghost rest: seq<Block>, ghost goal: seq<Token>)
        returns (ok: bool)
      requires Set() && Position(b, k, r, eobrun) && k <= band.se && v == Quotient(b[band.order[k]], band.al) && v != 0
      requires sink.Owes(Left(b, rest, k, r, eobrun), goal)
      modifies this, sink, sink.bw
      ensures band.ss <= k && Position(b, k + 1, 0, 0)
      ensures if ok then eobrun == 0 && sink.Owes(Left(b, rest, k + 1, 0, 0), goal) else !sink.TakesAll(goal)
    {
      hide TokenSink.Set, TokenSink.Owes, IsBand, Tokens, AcTokens, CoefTokens, Eob, Left, Body, Quotient,
        TokenSink.TakesAll;
      Facts();
      AtNonzero(b, rest, k, r, eobrun);
      Behind(b, rest, k);
      ghost var z, tail := Body(band, b), Tokens(band, maxBits, rest, After(b));
      ok := EmitEobrun(AcTokens(0, maxBits, z, k, r) + tail, goal);
      if !ok {
        return;
      }
      var zeros := r;
      while zeros > 15
        invariant eobrun == 0 && sink.Owes(AcTokens(0, maxBits, z, k, zeros) + tail, goal)
      {
        AcUnroll(0, maxBits, z, k, zeros);
        ghost var more := AcTokens(0, maxBits, z, k, zeros - 16) + tail;
        assert AcTokens(0, maxBits, z, k, zeros) + tail == [Symbol(false, 0, ZRL)] + more;
        ok := sink.OweSymbol(false, 0, ZRL, more, goal);
        if !ok {
          return;
        }
        zeros := zeros - 16;
      }
      AcUnroll(0, maxBits, z, k, zeros);
      ghost var more := AcTokens(0, maxBits, z, k + 1, 0) + tail;
      assert AcTokens(0, maxBits, z, k, zeros) + tail == CoefTokens(0, maxBits, z[k], zeros) + more;
      ok := EncodeCoefficient(v, zeros, more, goal);
    }

    /** Encodes one block; fails only if a coefficient of the scan is too large or a symbol has no code. */
    method EncodeMcu(b: Block, ghost rest: seq<Block>, ghost goal: seq<Token>) returns (ok: bool)
      requires Set() && eobrun < 0x7FFF && sink.Owes(Tokens(band, maxBits, [b] + rest, eobrun), goal)
      modifies this, sink, sink.bw
      ensures if ok then eobrun < 0x7FFF && sink.Owes(Tokens(band, maxBits, rest, eobrun), goal)
        else !sink.TakesAll(goal)
    {
      hide TokenSink.Owes, TokenSink.Set, Tokens, AcTokens, Eob, Left, Quotient, End, Body, TokenSink.TakesAll;
      Facts();
      StartLeft(b, rest, eobrun);
      var r: nat, k: nat := 0, band.ss;
      while k <= band.se
        invariant eobrun < 0x7FFF && Position(b, k, r, eobrun) && sink.Owes(Left(b, rest, k, r, eobrun), goal)
      {
        var v := Quotient(b[band.order[k]], band.al);
        if v == 0 {
          PassZero(b, rest, k, r, eobrun);
          r := r + 1;
        } else {
          ok := EncodeNonzero(b, v, k, r, rest, goal);
          if !ok {
            return;
          }
          r := 0;
        }
        k := k + 1;
      }
      AtEnd(b, rest, r, eobrun);
      ok := true;
      if r > 0 {
        eobrun := eobrun + 1;
        if eobrun == 0x7FFF {
          ok := EmitEobrun(Tokens(band, maxBits, rest, 0), goal);
        }
      }
    }

    /** Zeros at the end of a block make it join the run. */
    lemma AtEnd(b: Block, rest: seq<Block>, r: nat, run: nat)
      requires Set() && Position(b, band.se + 1, r, run)
      ensures Left(b, rest, band.se + 1, r, run) ==
              if r == 0 then Tokens(band, maxBits, rest, run)
              else if run + 1 == 0x7FFF then Eob(0x7FFF) + Tokens(band, maxBits, rest, 0)
              else Tokens(band, maxBits, rest, run + 1)
    {
      hide Tokens, End, Eob, Body, TokenSink.Set;
      TokensUnroll(band, maxBits, b, rest, run);
      if End(band, b) > band.ss {
        AcUnroll(0, maxBits, Body(band, b), End(band, b), 0);
        NoRunHeld([] + Tokens(band, maxBits, rest, After(b)));
        assert [] + Tokens(band, maxBits, rest, After(b)) == Tokens(band, maxBits, rest, After(b));
      }
    }

    /** Emits the run held back, at a restart or at the end of the scan, and pads the last byte. */
    method FinishPass(ghost goal: seq<Token>) returns (ok: bool)
      requires Set() && eobrun < 0x7FFF && sink.Owes(Tokens(band, maxBits, [], eobrun), goal)
      modifies this, sink, sink.bw
      ensures if ok then sink.Finished() && sink.log == goal else !sink.TakesAll(goal)
    {
      hide TokenSink.Valid, TokenSink.Set, Eob, TokenSink.TakesAll, TokenSink.Finished;
      Facts();
      assert Eob(eobrun) + [] == Eob(eobrun);
      ok := EmitEobrun([], goal);
      if ok {
        assert sink.log + [] == sink.log;
        sink.Finish();
      }
    }
  }
}
