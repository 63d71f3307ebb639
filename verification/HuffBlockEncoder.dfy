/** The sequential Huffman encoder: one MCU at a time, down to the bits. */
module HuffBlockEncoder {
  import opened Words
  import opened Coefficients
  import opened HuffTables
  import opened HuffDerived
  import opened HuffBitWriter
  import opened HuffTokens
  import opened HuffBlocks

  class HuffEncoder {
    const bw: BitWriter
    const scan: Scan
    const dcTbls: seq<EncodeTable>
    const acTbls: seq<EncodeTable>
    ghost const books: Books
    var lastDcVal: seq<Coef>

    ghost predicate Set() {
      Proper(books) && ValidScan(scan, books) && EncodersFor(dcTbls, acTbls, books)
    }

    ghost predicate Valid()
      reads this, bw
    {
      Set() && bw.Valid() && |lastDcVal| == |scan.components|
    }

    constructor (bw: BitWriter, scan: Scan, dcTbls: seq<EncodeTable>, acTbls: seq<EncodeTable>, ghost books: Books)
      requires bw.Valid() && Proper(books) && ValidScan(scan, books) && EncodersFor(dcTbls, acTbls, books)
      ensures Valid() && this.bw == bw && this.scan == scan && this.books == books
      ensures lastDcVal == seq(|scan.components|, _ => 0)
    {
      this.bw, this.scan, this.dcTbls, this.acTbls, this.books := bw, scan, dcTbls, acTbls, books;
      lastDcVal := seq(|scan.components|, _ => 0);
    }

    /** What has been emitted, followed by the spelling of toks, makes up goal. */
    ghost predicate Owes(toks: seq<Token>, goal: seq<bit>)
      reads bw
    {
      Set() && bw.Valid() && bw.sent + Spell(books, toks) == goal
    }

    method SendSymbol(dc: bool, tbl: nat, s: byte, ghost rest: seq<Token>, ghost goal: seq<bit>) returns (ok: bool)
      requires Owes([Symbol(dc, tbl, s)] + rest, goal) && Has(books, dc, tbl)
      modifies bw
      ensures Set() && (ok <==> Codes(books, Symbol(dc, tbl, s)))
      ensures ok ==> Owes(rest, goal)
    {
      hide BitWriter.Valid, Legal, CountTo, Coded, WordOf, Encodes, ProperSymbols, Spell;
      ok := EmitSymbol(bw, if dc then dcTbls[tbl] else acTbls[tbl], BookOf(books, dc, tbl), s);
      SpellHead(books, Symbol(dc, tbl, s), rest);
      assert old(bw.sent) + (TokenBits(books, Symbol(dc, tbl, s)) + Spell(books, rest))
          == old(bw.sent) + TokenBits(books, Symbol(dc, tbl, s)) + Spell(books, rest);
    }

    method SendBits(v: int, n: nat, ghost rest: seq<Token>, ghost goal: seq<bit>)
      requires Owes([Bits(v, n)] + rest, goal) && 1 <= n <= 16
      modifies bw
      ensures Owes(rest, goal)
    {
      hide BitWriter.Valid, Proper, ValidScan, EncodersFor, Spell, LowBits;
      var ok := bw.EmitBits(v, n);
      SpellHead(books, Bits(v, n), rest);
      assert old(bw.sent) + (LowBits(v, n) + Spell(books, rest)) == old(bw.sent) + LowBits(v, n) + Spell(books, rest);
    }

    /** Emits the coded DC difference; fails on a missing code or a difference that is too large. */
    method EncodeDc(tbl: nat, diff: int, ghost rest: seq<Token>, ghost goal: seq<bit>) returns (ok: bool)
      requires Set() && Has(books, true, tbl) && Owes(DcTokens(tbl, diff, scan.precision + 3) + rest, goal)
      modifies bw
      ensures Set() && (ok ==> Owes(rest, goal))
      ensures AllCoded(books, DcTokens(tbl, diff, scan.precision + 3) + rest) <==> ok && AllCoded(books, rest)
    {
      hide Proper, EncodersFor, AllCoded, Spell, Codes, NumBits, DcTokens, BitWriter.Valid;
      DcUnroll(tbl, diff, scan.precision + 3, rest);
      if diff == 0 {
        SpellHead(books, Symbol(true, tbl, 0), rest);
        ok := SendSymbol(true, tbl, 0, rest, goal);
        return;
      }
      var nbits := CountBits(Magnitude(diff));
      if nbits > scan.precision + 3 {
        FaultIsUncoded(books, rest);
        return false;
      }
      ghost var more := [Bits(Appended(diff), nbits)] + rest;
      SpellHead(books, Symbol(true, tbl, nbits), more);
      SpellHead(books, Bits(Appended(diff), nbits), rest);
      BitsAreCoded(books, Appended(diff), nbits);
      ok := SendSymbol(true, tbl, nbits, more, goal);
      if ok {
        SendBits(Appended(diff), nbits, rest, goal);
      }
    }

    /** Emits a nonzero coefficient after r zeros. */
    method EncodeCoefficient(tbl: nat, v: Coef, r: nat, ghost rest: seq<Token>, ghost goal: seq<bit>) returns (ok: bool)
      requires Set() && Has(books, false, tbl) && r <= 15 && v != 0
      requires Owes(CoefTokens(tbl, scan.precision + 3, v, r) + rest, goal)
      modifies bw
      ensures Set() && (ok ==> Owes(rest, goal))
      ensures AllCoded(books, CoefTokens(tbl, scan.precision + 3, v, r) + rest) <==> ok && AllCoded(books, rest)
    {
      hide Proper, EncodersFor, AllCoded, Spell, Codes, NumBits, CoefTokens, BitWriter.Valid;
      CoefUnroll(tbl, scan.precision + 3, v, r, rest);
      var nbits := CountBits(Magnitude(v));
      if nbits >= scan.precision + 3 {
        FaultIsUncoded(books, rest);
        return false;
      }
      ghost var more := [Bits(Appended(v), nbits)] + rest;
      SpellHead(books, Symbol(false, tbl, 16 * r + nbits), more);
      SpellHead(books, Bits(Appended(v), nbits), rest);
      BitsAreCoded(books, Appended(v), nbits);
      ok := SendSymbol(false, tbl, 16 * r + nbits, more, goal);
      if ok {
        SendBits(Appended(v), nbits, rest, goal);
      }
    }

    /** Emits the AC coefficients of a block. */
    method EncodeAc(tbl: nat, b: Block, ghost rest: seq<Token>, ghost goal: seq<bit>) returns (ok: bool)
      requires Set() && (scan.limSe > 0 ==> Has(books, false, tbl))
      requires Owes(AcTokens(tbl, scan.precision + 3, Zigzag(scan, b), 1, 0) + rest, goal)
      modifies bw
      ensures Set() && (ok ==> Owes(rest, goal))
      ensures AllCoded(books, AcTokens(tbl, scan.precision + 3, Zigzag(scan, b), 1, 0) + rest) <==>
        ok && AllCoded(books, rest)
    {
      hide Proper, EncodersFor, AllCoded, Spell, Codes, AcTokens, CoefTokens, BitWriter.Valid;
      ghost var z, m := Zigzag(scan, b), scan.precision + 3;
      ghost var all := AllCoded(books, AcTokens(tbl, m, z, 1, 0) + rest);
      var r, k := 0, 1;
      while k <= scan.limSe
        invariant 1 <= k <= scan.limSe + 1 && r < k && Owes(AcTokens(tbl, m, z, k, r) + rest, goal)
        invariant all <==> AllCoded(books, AcTokens(tbl, m, z, k, r) + rest)
      {
        AcUnroll(tbl, m, z, k, r);
        var v := b[scan.order[k]];
        if v == 0 {
          r := r + 1;
          k := k + 1;
          continue;
        }
        while r > 15
          invariant Owes(AcTokens(tbl, m, z, k, r) + rest, goal)
          invariant all <==> AllCoded(books, AcTokens(tbl, m, z, k, r) + rest)
        {
          AcUnroll(tbl, m, z, k, r);
          ghost var more := AcTokens(tbl, m, z, k, r - 16) + rest;
          assert AcTokens(tbl, m, z, k, r) + rest == [Symbol(false, tbl, ZRL)] + more;
          SpellHead(books, Symbol(false, tbl, ZRL), more);
          ok := SendSymbol(false, tbl, ZRL, more, goal);
          if !ok {
            return;
          }
          r := r - 16;
        }
        AcUnroll(tbl, m, z, k, r);
        ghost var more := AcTokens(tbl, m, z, k + 1, 0) + rest;
        assert AcTokens(tbl, m, z, k, r) + rest == CoefTokens(tbl, m, z[k], r) + more;
        ok := EncodeCoefficient(tbl, v, r, more, goal);
        if !ok {
          return;
        }
        r := 0;
        k := k + 1;
      }
      AcUnroll(tbl, m, z, k, r);
      ok := true;
      if r > 0 {
        SpellHead(books, Symbol(false, tbl, EOB), rest);
        ok := SendSymbol(false, tbl, EOB, rest, goal);
      } else {
        assert [] + rest == rest;
      }
    }

    /** Emits one block under DC prediction last. */
    method EncodeOneBlock(b: Block, ci: nat, last: Coef, ghost rest: seq<Token>, ghost goal: seq<bit>)
        returns (ok: bool)
      requires Set() && ci < |scan.components| && Owes(BlockTokens(scan, books, ci, last, b) + rest, goal)
      modifies bw
      ensures Set() && (ok ==> Owes(rest, goal))
      ensures AllCoded(books, BlockTokens(scan, books, ci, last, b) + rest) <==> ok && AllCoded(books, rest)
    {
      hide Proper, EncodersFor, AllCoded, Spell, AcTokens, DcTokens, Owes;
      ghost var ac := AcTokens(scan.components[ci].acTbl, scan.precision + 3, Zigzag(scan, b), 1, 0);
      var diff := Difference(b[0], last);
      ghost var dc := DcTokens(scan.components[ci].dcTbl, diff, scan.precision + 3);
      assert BlockTokens(scan, books, ci, last, b) + rest == dc + (ac + rest);
      ok := EncodeDc(scan.components[ci].dcTbl, diff, ac + rest, goal);
      if ok {
        ok := EncodeAc(scan.components[ci].acTbl, b, rest, goal);
      }
    }

    /** Emits one MCU; succeeds exactly if every coefficient is in range and every symbol needed has a code. */
    method EncodeMcu(mcu: seq<Block>) returns (ok: bool)
      requires Valid() && |mcu| == |scan.membership|
      modifies this, bw
      ensures Set() && |old(lastDcVal)| == |scan.components|
      ensures ok <==> AllCoded(books, McuTokens(scan, books, old(lastDcVal), mcu, 0))
      ensures ok ==> Valid()
                     && bw.sent == old(bw.sent) + Spell(books, McuTokens(scan, books, old(lastDcVal), mcu, 0))
                     && lastDcVal == McuLast(scan, books, old(lastDcVal), mcu, 0)
    {
      hide Proper, EncodersFor, AllCoded, Spell, BlockTokens, McuTokens, McuLast, BitWriter.Valid, IsOrder;
      ghost var last0 := lastDcVal;
      ghost var all := AllCoded(books, McuTokens(scan, books, last0, mcu, 0));
      ghost var goal := bw.sent + Spell(books, McuTokens(scan, books, last0, mcu, 0));
      for n := 0 to |mcu|
        invariant |lastDcVal| == |scan.components|
        invariant Owes(McuTokens(scan, books, lastDcVal, mcu, n), goal)
        invariant all <==> AllCoded(books, McuTokens(scan, books, lastDcVal, mcu, n))
        invariant McuLast(scan, books, last0, mcu, 0) == McuLast(scan, books, lastDcVal, mcu, n)
      {
        McuUnroll(scan, books, lastDcVal, mcu, n);
        var ci := scan.membership[n];
        ok := EncodeOneBlock(mcu[n], ci, lastDcVal[ci], McuTokens(scan, books, lastDcVal[ci := mcu[n][0]], mcu, n + 1),
          goal);
        if !ok {
          return;
        }
        lastDcVal := lastDcVal[ci := mcu[n][0]];
      }
      McuUnroll(scan, books, lastDcVal, mcu, |mcu|);
      NothingSpelled(books);
      ok := true;
    }
  }
}
