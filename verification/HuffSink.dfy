/** Where a progressive scan goes: its symbols are counted in a statistics pass, and written in an output pass. */
module HuffSink {
  import opened Words
  import opened ByteStuffing
  import opened HuffTables
  import opened HuffDerived
  import opened HuffBitWriter
  import opened HuffTokens
  import opened HuffBlocks
  import opened HuffCounts

  class TokenSink {
    const gather: bool   // a statistics pass: symbols are counted, nothing is written
    const bw: BitWriter
    const dcTbls: seq<EncodeTable>
    const acTbls: seq<EncodeTable>
    ghost const books: Books
    var counts: Tally
    ghost const counts0: Tally
    ghost var log: seq<Token>  // what has been sent

    ghost predicate Set() {
      Matches(counts0, books) && (!gather ==> Proper(books) && EncodersFor(dcTbls, acTbls, books))
    }

    /** Everything sent has been counted, or written. */
    ghost predicate Valid()
      reads this, bw
    {
      && Set() && Fault !in log
      && (if gather then counts == AddAll(counts0, log)
          else bw.Valid() && bw.sent == Spell(books, log) && AllCoded(books, log))
    }

    /** For an output pass. */
    constructor (bw: BitWriter, dcTbls: seq<EncodeTable>, acTbls: seq<EncodeTable>, ghost books: Books)
      requires bw.Valid() && bw.sent == [] && Proper(books) && EncodersFor(dcTbls, acTbls, books)
      ensures Valid() && this.bw == bw && this.books == books && !gather && log == []
    {
      this.gather, this.bw, this.dcTbls, this.acTbls, this.books := false, bw, dcTbls, acTbls, books;
      counts, counts0 := NoCounts(|dcTbls|, |acTbls|), NoCounts(|dcTbls|, |acTbls|);
      log := [];
    }

    /** For a statistics pass; writer and tables are not used. */
    constructor Gatherer(bw: BitWriter, counts: Tally, ghost books: Books)
      requires Matches(counts, books)
      ensures Valid() && this.bw == bw && this.books == books && gather && counts0 == this.counts == counts && log == []
    {
      this.gather, this.bw, this.dcTbls, this.acTbls, this.books := true, bw, [], [], books;
      this.counts, this.counts0 := counts, counts;
      log := [];
    }

    /** The pass can go on after tok: it stands for a coefficient in range, and has a code if one is needed. */
    ghost predicate Takes(tok: Token)
      requires Set()
    {
      match tok
      case Symbol(_, _, _) => gather || Codes(books, tok)
      case Bits(_, n) => 1 <= n <= 16
      case Fault => false
    }

    ghost predicate TakesAll(toks: seq<Token>)
      requires Set()
    {
      forall tok :: tok in toks ==> Takes(tok)
    }

    lemma Refuses(tok: Token, toks: seq<Token>)
      requires Set() && !Takes(tok) && tok in toks
      ensures !TakesAll(toks)
    {
      hide Takes, Proper;
    }

    /** What has been sent, followed by toks, makes up goal. */
    ghost predicate Owes(toks: seq<Token>, goal: seq<Token>)
      reads this, bw
    {
      Valid() && log + toks == goal
    }

    /** Emits or just counts a symbol. */
    method SendSymbol(dc: bool, tbl: nat, s: byte) returns (ok: bool)
      requires Valid() && Has(books, dc, tbl)
      modifies this, bw
      ensures Set() && (ok <==> Takes(Symbol(dc, tbl, s)))
      ensures ok ==> Valid() && log == old(log) + [Symbol(dc, tbl, s)]
    {
      hide BitWriter.Valid, Legal, CountTo, Coded, WordOf, Encodes, ProperSymbols, Spell, AllCoded, AddAll;
      if gather {
        AddLast(counts0, log, Symbol(dc, tbl, s));
        counts := if dc then counts.(dc := counts.dc[tbl := counts.dc[tbl][s := counts.dc[tbl][s] + 1]])
                  else counts.(ac := counts.ac[tbl := counts.ac[tbl][s := counts.ac[tbl][s] + 1]]);
        log := log + [Symbol(dc, tbl, s)];
        return true;
      }
      SpellLast(books, log, Symbol(dc, tbl, s));
      ok := EmitSymbol(bw, if dc then dcTbls[tbl] else acTbls[tbl], BookOf(books, dc, tbl), s);
      if ok {
        log := log + [Symbol(dc, tbl, s)];
      }
    }

    /** Emits bits; a statistics pass ignores them. */
    method SendBits(v: int, n: nat)
      requires Valid() && 1 <= n <= 16
      modifies this, bw
      ensures Valid() && log == old(log) + [Bits(v, n)]
    {
      hide BitWriter.Valid, Proper, EncodersFor, Spell, AllCoded, LowBits, AddAll;
      if gather {
        AddLast(counts0, log, Bits(v, n));
      } else {
        SpellLast(books, log, Bits(v, n));
        var ok := bw.EmitBits(v, n);
      }
      log := log + [Bits(v, n)];
    }

    /** Emits the end-of-band symbol for a run of blocks. */
    method SendRun(run: nat) returns (ok: bool)
      requires Valid() && Has(books, false, 0) && 1 <= run <= 0x7FFF
      modifies this, bw
      ensures Set() && NumBits(run) <= 15 && (ok <==> Takes(RunTokens(run)[0]))
      ensures ok ==> Valid() && log == old(log) + RunTokens(run)
    {
      hide Valid, Takes, Set, NumBits;
      var nbits := CountBits(run);
      NumBitsBound(run, 15);
      nbits := nbits - 1;
      if nbits > 14 {
        assert false;  // the safety check against JERR_HUFF_MISSING_CODE
      }
      ghost var was := log;
      ok := SendSymbol(false, 0, 16 * nbits);
      if ok && nbits > 0 {
        SendBits(run, nbits);
        assert was + [Symbol(false, 0, 16 * nbits)] + [Bits(run, nbits)] == was + RunTokens(run);
      }
    }

    /** Sends the end-of-band symbol that is owed next. */
    method OweRun(run: nat, ghost rest: seq<Token>, ghost goal: seq<Token>) returns (ok: bool)
      requires Has(books, false, 0) && 1 <= run <= 0x7FFF && Owes(RunTokens(run) + rest, goal)
      modifies this, bw
      ensures Set() && if ok then Owes(rest, goal) else !TakesAll(goal)
    {
      hide Valid, Takes, Set;
      ghost var was := log;
      ok := SendRun(run);
      assert was + (RunTokens(run) + rest) == was + RunTokens(run) + rest;
      if !ok {
        Refuses(RunTokens(run)[0], goal);
      }
    }

    /** Sends the next symbol of what is owed. */
    method OweSymbol(dc: bool, tbl: nat, s: byte, ghost rest: seq<Token>, ghost goal: seq<Token>) returns (ok: bool)
      requires Owes([Symbol(dc, tbl, s)] + rest, goal) && Has(books, dc, tbl)
      modifies this, bw
      ensures Set() && if ok then Owes(rest, goal) else !TakesAll(goal)
    {
      hide Valid, Takes, Set;
      ghost var was := log;
      ok := SendSymbol(dc, tbl, s);
      assert was + ([Symbol(dc, tbl, s)] + rest) == was + [Symbol(dc, tbl, s)] + rest;
      if !ok {
        Refuses(Symbol(dc, tbl, s), goal);
      }
    }

    /** Sends the next bits of what is owed. */
    method OweBits(v: int, n: nat, ghost rest: seq<Token>, ghost goal: seq<Token>)
      requires Owes([Bits(v, n)] + rest, goal) && 1 <= n <= 16
      modifies this, bw
      ensures Owes(rest, goal)
    {
      hide Valid;
      ghost var was := log;
      SendBits(v, n);
      assert was + ([Bits(v, n)] + rest) == was + [Bits(v, n)] + rest;
    }

    /** A coefficient that is too large is never sent. */
    lemma FaultRefused(rest: seq<Token>, goal: seq<Token>)
      requires Owes([Fault] + rest, goal)
      ensures Set() && !TakesAll(goal)
    {
      hide Proper, EncodersFor, Spell, AllCoded, AddAll;
      assert ([Fault] + rest)[0] == Fault;
      assert goal[|log|] == Fault;
      Refuses(Fault, goal);
    }

    /** In an output pass everything sent has codes. */
    lemma OutputTakes(toks: seq<Token>)
      requires Set() && !gather
      ensures TakesAll(toks) <==> AllCoded(books, toks)
    {
      hide Proper, EncodersFor, AllCoded;
      AllCodedMeans(books, toks);
      forall tok | tok in toks
        ensures Takes(tok) <==> Codes(books, tok)
      {
      }
    }

    /** The pass is over: everything sent has been counted, or stands in complete bytes at the destination. */
    ghost predicate Finished()
      reads this, bw
    {
      && Set() && Fault !in log
      && if gather then counts == AddAll(counts0, log)
         else AllCoded(books, log) && bw.out == bw.base + Stuff(bw.data) && Spell(books, log) <= Unpacked(bw.data)
    }

    /** Pads the last byte of an output pass. */
    method Finish()
      requires Valid()
      modifies bw
      ensures Finished()
    {
      hide AllCoded, Spell, Stuff, Unpacked, Proper, EncodersFor, BitWriter.Holds, AddAll;
      if !gather {
        bw.Flush();
      }
    }
  }

  lemma SpellLast(books: Books, toks: seq<Token>, tok: Token)
    requires Proper(books)
    ensures Spell(books, toks + [tok]) == Spell(books, toks) + TokenBits(books, tok)
    ensures AllCoded(books, toks + [tok]) <==> AllCoded(books, toks) && Codes(books, tok)
  {
    hide TokenBits, Codes, Proper;
    SpellConcat(books, toks, [tok]);
    SpellHead(books, tok, []);
    NothingSpelled(books);
    assert [tok] + [] == [tok];
    assert TokenBits(books, tok) + [] == TokenBits(books, tok);
  }

  lemma {:induction false} AllCodedMeans(books: Books, toks: seq<Token>)
    requires Proper(books)
    ensures AllCoded(books, toks) <==> forall tok :: tok in toks ==> Codes(books, tok)
  {
    hide Codes, Proper;
    if toks != [] {
      AllCodedMeans(books, toks[1..]);
      assert toks == [toks[0]] + toks[1..];
    }
  }
}
