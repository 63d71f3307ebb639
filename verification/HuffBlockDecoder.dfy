/** The sequential Huffman decoder, with the coefficients beyond a block's limit read but not kept. */
module HuffBlockDecoder {
  import opened Words
  import opened Coefficients
  import opened HuffBitReader
  import opened HuffTokens
  import opened HuffBlocks
  import opened HuffReader

  /** Position of a coefficient in its block; positions past the end, met in corrupt data, fall on the last one. */
  function Place(order: seq<nat>, k: nat): (p: nat)
    requires IsOrder(order)
    ensures p < DCTSIZE2
  {
    if k < DCTSIZE2 then order[k] else DCTSIZE2 - 1
  }

  class HuffDecoder {
    const rd: SymbolReader
    const scan: Scan
    const needed: seq<bool>     // components whose coefficients are wanted
    const coefLimit: seq<nat>   // how many coefficients of each block of an MCU are wanted
    var lastDcVal: seq<int>

    ghost predicate Set() {
      && rd.Set() && ValidScan(scan, rd.books)
      && |needed| == |scan.components| && |coefLimit| == |scan.membership|
      && forall n :: 0 <= n < |coefLimit| ==>
           coefLimit[n] <= scan.limSe + 1 && (coefLimit[n] > 0 <==> needed[scan.membership[n]])
    }

    lemma Facts()
      requires Set()
      ensures rd.Set() && Proper(rd.books) && scan.precision <= 12 && scan.limSe < DCTSIZE2 && IsOrder(scan.order)
    {
    }

    ghost predicate Valid()
      reads this, rd.br
    {
      Set() && rd.br.Valid() && |lastDcVal| == |scan.components|
    }

    constructor (rd: SymbolReader, scan: Scan, needed: seq<bool>, coefLimit: seq<nat>)
      requires rd.Set() && rd.br.Valid() && ValidScan(scan, rd.books)
      requires |needed| == |scan.components| && |coefLimit| == |scan.membership|
      requires forall n :: 0 <= n < |coefLimit| ==>
                             coefLimit[n] <= scan.limSe + 1 && (coefLimit[n] > 0 <==> needed[scan.membership[n]])
      ensures Valid() && this.rd == rd && this.scan == scan
      ensures this.needed == needed && this.coefLimit == coefLimit
      ensures lastDcVal == seq(|scan.components|, _ => 0)
    {
      this.rd, this.scan, this.needed, this.coefLimit := rd, scan, needed, coefLimit;
      lastDcVal := seq(|scan.components|, _ => 0);
    }

    /** The coefficients from position k on, then rest. */
    ghost function AcRest(tbl: nat, z: seq<Coef>, k: nat, rest: seq<Token>): seq<Token>
      requires scan.precision <= 12 && k <= |z|
    {
      AcTokens(tbl, scan.precision + 3, z, k, 0) + rest
    }

    /** Run and category r, s are the right ones for position k of z, and the stream goes on behind them. */
    ghost predicate RunRead(tbl: nat, z: seq<Coef>, k: nat, r: nat, s: nat, rest: seq<Token>, end: nat)
      requires scan.precision <= 12 && k < |z|
      reads rd.br
    {
      var ke := NextNonzero(z, k);
      if ke == |z| then r == s == 0 && rd.Expects(rest, end)
      else if ke - k > 15 then r == 15 && s == 0 && rd.Expects(AcRest(tbl, z, k + 16, rest), end)
      else
        && r == ke - k && 1 <= s == NumBits(Magnitude(z[ke])) <= 15
        && rd.Expects([Bits(Appended(z[ke]), s)] + AcRest(tbl, z, ke + 1, rest), end)
    }

    /** Reads a zero run and the category of the coefficient after it. */
    method NextRun(tbl: nat, ghost z: seq<Coef>, ghost k: nat, ghost rest: seq<Token>, ghost end: nat)
      returns (r: nat, s: nat)
      requires Set() && rd.br.Valid() && Has(rd.books, false, tbl) && k < |z|
      modifies rd.br, rd
      ensures rd.Moved(old(rd.br.insufficientData), old(rd.br.at)) && r <= 15 && s <= 15
      ensures old(rd.Expects(AcRest(tbl, z, k, rest), end)) ==>
                RunRead(tbl, z, k, r, s, rest, end) && rd.badCodes == old(rd.badCodes)
    {
      hide Set, BitReader.Valid, AllCoded, Ahead, Spell, AcTokens, CoefTokens, NumBits, NextNonzero, Codes;
      Facts();
      NextTokens(tbl, scan.precision + 3, z, k, rest);
      ghost var ke := NextNonzero(z, k);
      ghost var sym0: byte, after := 0, rest;
      if ke < |z| && ke - k > 15 {
        sym0, after := ZRL, AcRest(tbl, z, k + 16, rest);
      } else if ke < |z| && NumBits(Magnitude(z[ke])) < scan.precision + 3 {
        CoefUnroll(tbl, scan.precision + 3, z[ke], ke - k, AcRest(tbl, z, ke + 1, rest));
        sym0 := 16 * (ke - k) + NumBits(Magnitude(z[ke]));
        after := [Bits(Appended(z[ke]), NumBits(Magnitude(z[ke])))] + AcRest(tbl, z, ke + 1, rest);
      } else if ke < |z| {
        CoefUnroll(tbl, scan.precision + 3, z[ke], ke - k, AcRest(tbl, z, ke + 1, rest));
        rd.FaultNotExpected(AcRest(tbl, z, ke + 1, rest), end);
      }
      var sym := rd.NextSymbol(false, tbl, sym0, after, end);
      r, s := sym / 16, sym % 16;
    }

    /** Of the AC positions, those below k and limit hold the coefficients z; the others may still be zero. */
    ghost predicate Filled(blk: array<Coef>, z: seq<Coef>, k: nat, limit: nat)
      requires IsOrder(scan.order) && blk.Length == DCTSIZE2 && |z| <= DCTSIZE2
      reads blk
    {
      && (forall j :: 1 <= j < |z| && j < k && j < limit ==> blk[scan.order[j]] == z[j])
      && (forall j :: 1 <= j < |z| ==> blk[scan.order[j]] == z[j] || blk[scan.order[j]] == 0)
      && (forall j :: 1 <= j < DCTSIZE2 && (j >= k || j >= |z|) ==> blk[scan.order[j]] == 0)
    }

    /** Stores a decoded coefficient. */
    method Store(blk: array<Coef>, k: nat, v: int, ghost z: seq<Coef>, ghost k0: nat, ghost limit: nat,
        ghost synced: bool)
      requires Set() && blk.Length == DCTSIZE2 && |z| <= DCTSIZE2 && k > 0
      requires synced ==> 1 <= k0 <= k < |z| && Filled(blk, z, k0, limit) && v == z[k] && forall j :: k0 <= j < k ==>
        z[j] == 0
      modifies blk
      ensures synced ==> Filled(blk, z, k + 1, limit)
      ensures synced ==> blk[0] == old(blk[0])
    {
      hide Proper, DecodersFor;
      blk[Place(scan.order, k)] := ToCoef(v);
    }

    /** Decodes the AC coefficients below limit into the block; done reports an end-of-block code. */
    method DecodeKept(tbl: nat, blk: array<Coef>, limit: nat, ghost z: seq<Coef>, ghost rest: seq<Token>,
        ghost end: nat)
      returns (done: bool, k: nat)
      requires Set() && rd.br.Valid() && (scan.limSe > 0 ==> Has(rd.books, false, tbl)) && limit <= scan.limSe + 1
      requires blk.Length == DCTSIZE2 && |z| == scan.limSe + 1 && Filled(blk, z, 1, limit)
      modifies rd.br, rd, blk
      ensures rd.Moved(old(rd.br.insufficientData), old(rd.br.at)) && k >= 1
      ensures old(rd.Expects(AcRest(tbl, z, 1, rest), end)) ==>
                && rd.badCodes == old(rd.badCodes) && blk[0] == old(blk[0])
                && if done then Filled(blk, z, |z|, limit) && rd.Expects(rest, end)
                   else limit <= k <= |z| && Filled(blk, z, k, limit) && rd.Expects(AcRest(tbl, z, k, rest), end)
    {
      hide Set, BitReader.Valid, AcRest, NumBits, NextNonzero, Filled, SymbolReader.Expects, Proper, IsOrder;
      Facts();
      ghost var synced := rd.Expects(AcRest(tbl, z, 1, rest), end);
      rd.StandsStill();
      k := 1;
      while k < limit
        invariant rd.Moved(old(rd.br.insufficientData), old(rd.br.at)) && k >= 1
        invariant synced ==> k <= |z| && rd.badCodes == old(rd.badCodes) && blk[0] == old(blk[0])
                             && Filled(blk, z, k, limit)
        invariant synced ==> rd.Expects(AcRest(tbl, z, k, rest), end)
        decreases limit - k
      {
        var r, s := NextRun(tbl, z, k, rest, end);
        ghost var ke := NextNonzero(z, k);
        ghost var v := if ke < |z| then z[ke] else 0;
        if s != 0 {
          k := k + r;
          var x := rd.NextValue(s, v, if ke < |z| then AcRest(tbl, z, ke + 1, rest) else rest, end);
          Store(blk, k, x, z, k - r, limit, synced);
          k := k + 1;
        } else if r != 15 {
          SkipZeros(blk, z, k, ke, limit);
          done := true;
          return;
        } else {
          SkipZeros(blk, z, k, k + 16, limit);
          k := k + 16;
        }
      }
      done := false;
    }

    /** Passing zeros leaves the block as it is. */
    lemma SkipZeros(blk: array<Coef>, z: seq<Coef>, k: nat, k1: nat, limit: nat)
      requires IsOrder(scan.order) && blk.Length == DCTSIZE2 && |z| <= DCTSIZE2
      ensures Filled(blk, z, k, limit) && 1 <= k <= k1 <= |z| && (forall j :: k <= j < k1 ==> z[j] == 0) ==>
                Filled(blk, z, k1, limit)
    {
    }

    /** Decodes the AC coefficients from position k0 on without keeping them. */
    method DecodeSkipped(tbl: nat, k0: nat, ghost z: seq<Coef>, ghost rest: seq<Token>, ghost end: nat)
      requires Set() && rd.br.Valid() && (scan.limSe > 0 ==> Has(rd.books, false, tbl)) && k0 >= 1
        && |z| == scan.limSe + 1
      modifies rd.br, rd
      ensures rd.Moved(old(rd.br.insufficientData), old(rd.br.at))
      ensures old(k0 <= |z| && rd.Expects(AcRest(tbl, z, k0, rest), end)) ==>
        rd.Expects(rest, end) && rd.badCodes == old(rd.badCodes)
    {
      hide Set, BitReader.Valid, AcRest, NumBits, NextNonzero, SymbolReader.Expects, Proper, IsOrder;
      Facts();
      ghost var synced := k0 <= |z| && rd.Expects(AcRest(tbl, z, k0, rest), end);
      rd.StandsStill();
      var k := k0;
      while k <= scan.limSe
        invariant rd.Moved(old(rd.br.insufficientData), old(rd.br.at))
        invariant synced ==> k <= |z| && rd.badCodes == old(rd.badCodes) && rd.Expects(AcRest(tbl, z, k, rest), end)
        decreases scan.limSe + 1 - k
      {
        var r, s := NextRun(tbl, z, k, rest, end);
        ghost var ke := NextNonzero(z, k);
        ghost var v: int := if ke < |z| then z[ke] else 0;
        if s != 0 {
          k := k + r;
          rd.SkipValue(s, Appended(v), if ke < |z| then AcRest(tbl, z, ke + 1, rest) else rest, end);
          k := k + 1;
        } else if r != 15 {
          return;
        } else {
          k := k + 16;
        }
      }
      if synced {
        AcEnd(tbl, z, rest);
      }
    }

    lemma AcEnd(tbl: nat, z: seq<Coef>, rest: seq<Token>)
      requires scan.precision <= 12
      ensures AcRest(tbl, z, |z|, rest) == rest
    {
    }

    /** The DC predictions in use are those of last. */
    ghost predicate At(last: seq<Coef>)
      reads this`lastDcVal
    {
      |lastDcVal| == |last| == |needed| && forall ci :: 0 <= ci < |last| && needed[ci] ==> lastDcVal[ci] == last[ci]
    }

    ghost predicate IsZeroed(blk: array<Coef>)
      reads blk
    {
      blk.Length == DCTSIZE2 && forall k :: 0 <= k < DCTSIZE2 ==> blk[k] == 0
    }

    /** The wanted coefficients have come out; any others are right or zero. */
    ghost predicate Holds(blk: array<Coef>, want: Block, limit: nat)
      requires IsOrder(scan.order) && scan.limSe < DCTSIZE2 && blk.Length == DCTSIZE2
      reads blk
    {
      && (limit > 0 ==> blk[0] == want[0])
      && (limit == 0 ==> forall k :: 0 <= k < DCTSIZE2 ==> blk[k] == 0)
      && (limit > 0 ==> Filled(blk, Zigzag(scan, want), scan.limSe + 1, limit))
    }

    /** Decodes one block of component ci into a zeroed array. */
    method DecodeBlock(ci: nat, limit: nat, blk: array<Coef>, ghost last: seq<Coef>, ghost want: Block,
                       ghost rest: seq<Token>, ghost end: nat)
      requires Valid() && ci < |scan.components| == |last| && limit <= scan.limSe + 1 && (limit > 0 <==> needed[ci])
      requires IsZeroed(blk)
      modifies this, rd, rd.br, blk
      ensures Valid() && rd.Moved(old(rd.br.insufficientData), old(rd.br.at))
      ensures old(At(last) && rd.Expects(BlockTokens(scan, rd.books, ci, last[ci], want) + rest, end)) ==>
                && At(last[ci := want[0]]) && rd.Expects(rest, end) && rd.badCodes == old(rd.badCodes)
                && Holds(blk, want, limit)
    {
      hide BitReader.Valid, SymbolReader.Expects, AcTokens, DcTokens, Filled, Proper, ProperTable, DecodersFor, IsOrder;
      ghost var dcTbl, acTbl := scan.components[ci].dcTbl, scan.components[ci].acTbl;
      ghost var z := Zigzag(scan, want);
      ghost var diff := Difference(want[0], last[ci]);
      ghost var ac := AcRest(acTbl, z, 1, rest);
      assert BlockTokens(scan, rd.books, ci, last[ci], want) + rest == DcTokens(dcTbl, diff, scan.precision + 3) + ac;
      var s := rd.DecodeDc(scan.components[ci].dcTbl, scan.precision + 3, limit > 0, diff, ac, end);
      var k: nat := 1;
      if limit > 0 {
        s := s + lastDcVal[ci];
        lastDcVal := lastDcVal[ci := s];
        SetDc(blk, s, z, limit);
        var done;
        done, k := DecodeKept(scan.components[ci].acTbl, blk, limit, z, rest, end);
        if done {
          return;
        }
        FilledOnwards(blk, z, k, limit);
      }
      DecodeSkipped(scan.components[ci].acTbl, k, z, rest, end);
    }

    method SetDc(blk: array<Coef>, v: int, ghost z: seq<Coef>, ghost limit: nat)
      requires IsOrder(scan.order) && IsZeroed(blk) && |z| <= DCTSIZE2
      modifies blk
      ensures blk[0] == ToCoef(v) && Filled(blk, z, 1, limit)
    {
      blk[0] := ToCoef(v);
    }

    /** Once position limit has been passed, nothing that is wanted is missing. */
    lemma FilledOnwards(blk: array<Coef>, z: seq<Coef>, k: nat, limit: nat)
      requires IsOrder(scan.order) && blk.Length == DCTSIZE2 && |z| <= DCTSIZE2
      ensures limit <= k <= |z| && Filled(blk, z, k, limit) ==> Filled(blk, z, |z|, limit)
    {
    }

    ghost predicate Blocks(mcu: seq<array<Coef>>) {
      && |mcu| == |scan.membership|
      && (forall n :: 0 <= n < |mcu| ==> mcu[n].Length == DCTSIZE2)
      && forall m, n :: 0 <= m < n < |mcu| ==> mcu[m] != mcu[n]
    }

    /** The first n blocks have come out as in want. */
    ghost predicate Out(mcu: seq<array<Coef>>, want: seq<Block>, n: nat)
      requires Set() && Blocks(mcu) && n <= |mcu| == |want|
      reads mcu
    {
      forall m :: 0 <= m < n ==> Holds(mcu[m], want[m], coefLimit[m])
    }

    /** Decodes one MCU into zeroed blocks; if the data has run out they are left as they are. */
    method DecodeMcu(mcu: seq<array<Coef>>, ghost last: seq<Coef>, ghost want: seq<Block>, ghost rest: seq<Token>,
        ghost end: nat)
      requires Valid() && Blocks(mcu) && |want| == |mcu| && |last| == |scan.components|
      requires forall n :: 0 <= n < |mcu| ==> IsZeroed(mcu[n])
      modifies this, rd, rd.br, mcu
      ensures Valid() && rd.Moved(old(rd.br.insufficientData), old(rd.br.at))
      ensures old(rd.br.insufficientData) ==> rd.br.at == old(rd.br.at) && forall n :: 0 <= n < |mcu| ==>
        IsZeroed(mcu[n])
      ensures old(!rd.br.insufficientData && At(last)
        && rd.Expects(McuTokens(scan, rd.books, last, want, 0) + rest, end)) ==>
                && At(McuLast(scan, rd.books, last, want, 0)) && rd.Expects(rest, end)
                   && rd.badCodes == old(rd.badCodes)
                && Out(mcu, want, |mcu|)
    {
      hide BitReader.Valid, SymbolReader.Expects, Proper, ProperTable, DecodersFor, IsOrder, Holds, At, McuTokens,
        McuLast, BlockTokens;
      rd.StandsStill();
      if rd.br.insufficientData {
        return;
      }
      ghost var now, synced := last, At(last) && rd.Expects(McuTokens(scan, rd.books, last, want, 0) + rest, end);
      for n := 0 to |mcu|
        invariant Valid() && rd.Moved(old(rd.br.insufficientData), old(rd.br.at)) && |now| == |last|
        invariant forall m :: n <= m < |mcu| ==> IsZeroed(mcu[m])
        invariant synced ==> At(now) && rd.Expects(McuTokens(scan, rd.books, now, want, n) + rest, end)
        invariant synced ==> McuLast(scan, rd.books, last, want, 0) == McuLast(scan, rd.books, now, want, n)
        invariant synced ==> rd.badCodes == old(rd.badCodes) && Out(mcu, want, n)
      {
        McuUnroll(scan, rd.books, now, want, n);
        var ci := scan.membership[n];
        ghost var next := now[ci := want[n][0]];
        ghost var after := McuTokens(scan, rd.books, next, want, n + 1) + rest;
        assert BlockTokens(scan, rd.books, ci, now[ci], want[n]) + McuTokens(scan, rd.books, next, want, n + 1) + rest
            == BlockTokens(scan, rd.books, ci, now[ci], want[n]) + after;
        DecodeBlock(ci, coefLimit[n], mcu[n], now, want[n], after, end);
        now := next;
      }
      McuUnroll(scan, rd.books, now, want, |mcu|);
      assert [] + rest == rest;
    }
  }
}
