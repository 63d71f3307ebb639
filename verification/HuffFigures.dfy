/** What Figures F.1 to F.3 and G.5 of T.81 say of the symbols of a block. */
module HuffFigures {
  import opened Words
  import opened Coefficients
  import opened HuffTokens
  import opened HuffBlocks

  /** The category of a magnitude is its number of bits. */
  lemma CategoryIs(m: nat, n: nat)
    requires if n == 0 then m == 0 else Pow2(n - 1) <= m < Pow2(n)
    ensures NumBits(m) == n
  {
    hide NumBits;
    if m == 0 {
      assert NumBits(m) == 0;
    } else {
      NumBitsRange(m);
      if NumBits(m) < n {
        Pow2Monotone(NumBits(m), n - 1);
      } else if n < NumBits(m) {
        Pow2Monotone(n, NumBits(m) - 1);
      }
    }
  }

  /**
   * A DC difference of n bits: its category, and the low n bits of the difference, less one if it is negative; more
   * bits than the coder can take are a fault.
   */
  lemma DcFigure(tbl: nat, diff: int, maxBits: nat, n: nat)
    requires maxBits <= 15
    requires var m := if diff < 0 then -diff else diff; if n == 0 then m == 0 else Pow2(n - 1) <= m < Pow2(n)
    ensures DcTokens(tbl, diff, maxBits) == if n == 0 then [Symbol(true, tbl, 0)]
                                            else if n > maxBits then [Fault]
                                            else [Symbol(true, tbl, n), Bits(if diff < 0 then diff - 1 else diff, n)]
  {
    hide NumBits, Pow2;
    CategoryIs(Magnitude(diff), n);
  }

  /** Symbols for sixteen zeros each. */
  function ZeroRuns(tbl: nat, count: nat): (toks: seq<Token>)
    ensures |toks| == count && forall i :: 0 <= i < count ==> toks[i] == Symbol(false, tbl, 0xF0)
  {
    seq(count, _ => Symbol(false, tbl, 0xF0))
  }

  /**
   * The next nonzero coefficient, of n bits, after run zeros: a symbol for every sixteen of them, then one for the
   * others and the category, and the low n bits of the coefficient, less one if it is negative.
   */
  lemma AcFigure(tbl: nat, maxBits: nat, z: seq<Coef>, k: nat, run: nat, n: nat)
    requires maxBits <= 15 && k + run < |z| && z[k + run] != 0 && forall i :: k <= i < k + run ==> z[i] == 0
    requires var v: int := z[k + run]; n > 0 && Pow2(n - 1) <= (if v < 0 then -v else v) < Pow2(n)
    ensures n < maxBits ==> 16 * (run % 16) + n < 256
    ensures var v: int := z[k + run];
            AcTokens(tbl, maxBits, z, k, 0)
            == ZeroRuns(tbl, run / 16)
               + (if n >= maxBits then [Fault]
                  else [Symbol(false, tbl, 16 * (run % 16) + n), Bits(if v < 0 then v - 1 else v, n)])
               + AcTokens(tbl, maxBits, z, k + run + 1, 0)
  {
    hide NumBits, Pow2, AcTokens, CoefTokens;
    var v: int := z[k + run];
    ZerosCount(tbl, maxBits, z, k, k + run, 0);
    RunsOfSixteen(tbl, maxBits, z, k + run, run);
    CategoryIs(Magnitude(v), n);
    CoefIs(tbl, maxBits, z[k + run], run % 16);
  }

  lemma CoefIs(tbl: nat, maxBits: nat, v: Coef, r: nat)
    requires maxBits <= 15 && r <= 15
    ensures var n := NumBits(Magnitude(v));
            CoefTokens(tbl, maxBits, v, r) == if n >= maxBits then [Fault]
                                              else [Symbol(false, tbl, 16 * r + n),
                                                    Bits(if v < 0 then v - 1 else v, n)]
  {
    hide NumBits;
  }

  lemma {:induction false} RunsOfSixteen(tbl: nat, maxBits: nat, z: seq<Coef>, k: nat, r: nat)
    requires maxBits <= 15 && k < |z| && z[k] != 0
    ensures AcTokens(tbl, maxBits, z, k, r)
         == ZeroRuns(tbl, r / 16) + CoefTokens(tbl, maxBits, z[k], r % 16) + AcTokens(tbl, maxBits, z, k + 1, 0)
    decreases r
  {
    hide AcTokens, CoefTokens;
    AcUnroll(tbl, maxBits, z, k, r);
    if r > 15 {
      RunsOfSixteen(tbl, maxBits, z, k, r - 16);
      Sixteenth(r);
      assert ZeroRuns(tbl, r / 16) == [Symbol(false, tbl, 0xF0)] + ZeroRuns(tbl, (r - 16) / 16);
    } else {
      assert ZeroRuns(tbl, 0) == [];
    }
  }

  lemma Sixteenth(r: nat)
    requires r > 15
    ensures (r - 16) / 16 == r / 16 - 1 && (r - 16) % 16 == r % 16
  {
  }

  /** Zeros up to the end of the block are one end-of-block symbol; a block that ends otherwise has none. */
  lemma EndFigure(tbl: nat, maxBits: nat, z: seq<Coef>, k: nat)
    requires maxBits <= 15 && k <= |z| && forall i :: k <= i < |z| ==> z[i] == 0
    ensures AcTokens(tbl, maxBits, z, k, 0) == if k < |z| then [Symbol(false, tbl, 0)] else []
  {
    ZerosCount(tbl, maxBits, z, k, |z|, 0);
  }

  /** A run of blocks: the category of its length, less one, and the bits below the top bit of the length. */
  lemma RunFigure(n: nat, e: nat)
    requires 1 <= n <= 0x7FFF && Pow2(e) <= n < Pow2(e + 1)
    ensures e <= 14
    ensures RunTokens(n) == if e == 0 then [Symbol(false, 0, 0)] else [Symbol(false, 0, 16 * e), Bits(n, e)]
  {
    hide NumBits, Pow2;
    CategoryIs(n, e + 1);
    NumBitsBound(n, 15);
  }

  /** Each component predicts from its own block before, and at first from what it has at the start of the MCU. */
  lemma {:induction false} PredictionIs(scan: Scan, books: Books, last: seq<Coef>, mcu: seq<Block>, n: nat, ci: nat)
    requires ValidScan(scan, books) && |last| == |scan.components| && |mcu| == |scan.membership| && n <= |mcu|
    requires ci < |last|
    ensures forall b :: n <= b < |mcu| && scan.membership[b] == ci
                        && (forall later :: b < later < |mcu| ==> scan.membership[later] != ci) ==>
                          McuLast(scan, books, last, mcu, n)[ci] == mcu[b][0]
    ensures (forall b :: n <= b < |mcu| ==> scan.membership[b] != ci) ==>
              McuLast(scan, books, last, mcu, n)[ci] == last[ci]
    decreases |mcu| - n
  {
    if n < |mcu| {
      PredictionIs(scan, books, last[scan.membership[n] := mcu[n][0]], mcu, n + 1, ci);
    }
  }

  /** A block sends the difference of its DC coefficient from the prediction, then the rest in zigzag order. */
  lemma BlockFigure(scan: Scan, books: Books, ci: nat, last: Coef, b: Block)
    requires ValidScan(scan, books) && ci < |scan.components|
    ensures var z := seq(scan.limSe + 1, k requires 0 <= k <= scan.limSe => b[scan.order[k]]);
            BlockTokens(scan, books, ci, last, b)
            == DcTokens(scan.components[ci].dcTbl, b[0] as int - last, scan.precision + 3)
               + AcTokens(scan.components[ci].acTbl, scan.precision + 3, z, 1, 0)
  {
    hide AcTokens, DcTokens;
    assert Zigzag(scan, b) == seq(scan.limSe + 1, k requires 0 <= k <= scan.limSe => b[scan.order[k]]);
  }
}
