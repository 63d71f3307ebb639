/** The symbols and bits a sequential Huffman-coded scan consists of (T.81, sections F.1.2.1 and F.1.2.2). */
module HuffBlocks {
  import opened Integers
  import opened Words
  import opened Coefficients
  import opened HuffTokens

  const ZRL: byte := 0xF0
  const EOB: byte := 0

  datatype Component = Component(dcTbl: nat, acTbl: nat)

  /** order maps zigzag positions to positions in a block; limSe is the last position coded. */
  datatype Scan = Scan(components: seq<Component>, membership: seq<nat>, limSe: nat, order: seq<nat>, precision: nat)

  predicate ValidScan(scan: Scan, books: Books) {
    && (forall i :: 0 <= i < |scan.components| ==>
          Has(books, true, scan.components[i].dcTbl)
            && (scan.limSe > 0 ==> Has(books, false, scan.components[i].acTbl)))
    && (forall b :: 0 <= b < |scan.membership| ==> scan.membership[b] < |scan.components|)
    && scan.limSe < DCTSIZE2 && IsOrder(scan.order) && scan.precision <= 12
  }

  /** Number of bits of a magnitude: its category. */
  function NumBits(m: nat): (n: nat)
    ensures n > 0 <==> m > 0
  {
    if m == 0 then 0 else 1 + NumBits(m / 2)
  }

  /** Number of bits of a nonzero magnitude. */
  method CountBits(m: nat) returns (nbits: nat)
    requires m > 0
    ensures nbits == NumBits(m)
  {
    var temp: nat := m / 2;
    nbits := 1;
    while temp != 0
      invariant NumBits(m) == nbits + NumBits(temp)
    {
      nbits := nbits + 1;
      temp := temp / 2;
    }
  }

  /** The integer whose low bits follow the category: negative values are complemented. */
  function Appended(v: int): int {
    if v < 0 then v - 1 else v
  }

  /** The value that n appended bits stand for (Figure F.12). */
  function Extend(x: nat, n: nat): (v: int)
    requires n > 0
  {
    if x < Pow2(n - 1) then x - (Pow2(n) - 1) else x
  }

  lemma {:induction false} NumBitsRange(m: nat)
    requires m > 0
    ensures NumBits(m) > 0 && Pow2(NumBits(m) - 1) <= m < Pow2(NumBits(m))
  {
    if m > 1 {
      NumBitsRange(m / 2);
    } else {
      assert NumBits(1) == 1 + NumBits(0);
    }
  }

  /** The end-of-band symbol for a run of n blocks. */
  function RunTokens(n: nat): (toks: seq<Token>)
    requires 1 <= n <= 0x7FFF
  {
    var nbits: nat := NumBits(n) - 1;
    NumBitsBound(n, 15);
    if nbits == 0 then [Symbol(false, 0, 0)] else [Symbol(false, 0, 16 * nbits), Bits(n, nbits)]
  }

  lemma {:induction false} NumBitsBound(m: nat, n: nat)
    requires n == 15 && m <= 0x7FFF
    ensures NumBits(m) <= 15
  {
    if m > 0 {
      NumBitsRange(m);
      if NumBits(m) > 15 {
        Pow2Monotone(15, NumBits(m) - 1);
        Pow2Constants();
        assert false;
      }
    }
  }

  lemma ModOfNegative(v: int, m: nat)
    requires v < 0 <= v + m
    ensures v % m == v + m
  {
  }

  /** Category and appended bits determine a coefficient. */
  lemma ExtendAppended(v: int)
    requires v != 0
    ensures var n := NumBits(Magnitude(v)); n > 0 && Extend(Appended(v) % Pow2(n), n) == v
  {
    var n := NumBits(Magnitude(v));
    NumBitsRange(Magnitude(v));
    hide NumBits;
    assert Pow2(n) == 2 * Pow2(n - 1);
    hide Pow2;
    if v < 0 {
      ModOfNegative(v - 1, Pow2(n));
    } else {
      SmallMod(v, Pow2(n));
    }
  }

  function DcTokens(tbl: nat, diff: int, maxBits: nat): (toks: seq<Token>)
    requires maxBits <= 15
  {
    var n := NumBits(Magnitude(diff));
    if n == 0 then [Symbol(true, tbl, 0)]
    else if n > maxBits then [Fault]
    else [Symbol(true, tbl, n), Bits(Appended(diff), n)]
  }

  /** The coefficients from zigzag position k on, with r zeros before them still to be accounted for. */
  function AcTokens(tbl: nat, maxBits: nat, z: seq<Coef>, k: nat, r: nat): (toks: seq<Token>)
    requires maxBits <= 15 && k <= |z|
    decreases |z| - k, r
  {
    if k == |z| then
      if r > 0 then [Symbol(false, tbl, EOB)] else []
    else if z[k] == 0 then
      AcTokens(tbl, maxBits, z, k + 1, r + 1)
    else if r > 15 then
      [Symbol(false, tbl, ZRL)] + AcTokens(tbl, maxBits, z, k, r - 16)
    else
      CoefTokens(tbl, maxBits, z[k], r) + AcTokens(tbl, maxBits, z, k + 1, 0)
  }

  /** A nonzero coefficient after r zeros. */
  function CoefTokens(tbl: nat, maxBits: nat, v: Coef, r: nat): (toks: seq<Token>)
    requires maxBits <= 15 && r <= 15
  {
    var n := NumBits(Magnitude(v));
    if n >= maxBits then [Fault] else [Symbol(false, tbl, 16 * r + n), Bits(Appended(v), n)]
  }

  /** The coded coefficients of a block in zigzag order. */
  function Zigzag(scan: Scan, b: Block): (z: seq<Coef>)
    requires scan.limSe < DCTSIZE2 && IsOrder(scan.order)
    ensures |z| == scan.limSe + 1 && z[0] == b[0]
    ensures forall k :: 0 <= k <= scan.limSe ==> z[k] == b[scan.order[k]]
  {
    ZigzagOf(scan.order, scan.limSe, b)
  }

  function BlockTokens(scan: Scan, books: Books, ci: nat, last: Coef, b: Block): (toks: seq<Token>)
    requires ValidScan(scan, books) && ci < |scan.components|
  {
    var diff := Difference(b[0], last);
    DcTokens(scan.components[ci].dcTbl, diff, scan.precision + 3)
    + AcTokens(scan.components[ci].acTbl, scan.precision + 3, Zigzag(scan, b), 1, 0)
  }

  /** Blocks n and later of an MCU; last holds each component's DC prediction. */
  function McuTokens(scan: Scan, books: Books, last: seq<Coef>, mcu: seq<Block>, n: nat): (toks: seq<Token>)
    requires ValidScan(scan, books) && |last| == |scan.components| && |mcu| == |scan.membership| && n <= |mcu|
    decreases |mcu| - n
  {
    if n == |mcu| then []
    else
      var ci := scan.membership[n];
      BlockTokens(scan, books, ci, last[ci], mcu[n]) + McuTokens(scan, books, last[ci := mcu[n][0]], mcu, n + 1)
  }

  /** The DC predictions after blocks n and later of an MCU. */
  function McuLast(scan: Scan, books: Books, last: seq<Coef>, mcu: seq<Block>, n: nat): (after: seq<Coef>)
    requires ValidScan(scan, books) && |last| == |scan.components| && |mcu| == |scan.membership| && n <= |mcu|
    ensures |after| == |last|
    decreases |mcu| - n
  {
    if n == |mcu| then last
    else McuLast(scan, books, last[scan.membership[n] := mcu[n][0]], mcu, n + 1)
  }

  function ScanTokens(scan: Scan, books: Books, last: seq<Coef>, mcus: seq<seq<Block>>): (toks: seq<Token>)
    requires ValidScan(scan, books) && |last| == |scan.components|
    requires forall i :: 0 <= i < |mcus| ==> |mcus[i]| == |scan.membership|
    decreases |mcus|
  {
    if mcus == [] then []
    else
      McuTokens(scan, books, last, mcus[0], 0)
      + ScanTokens(scan, books, McuLast(scan, books, last, mcus[0], 0), mcus[1..])
  }

  lemma AcUnroll(tbl: nat, maxBits: nat, z: seq<Coef>, k: nat, r: nat)
    requires maxBits <= 15 && k <= |z|
    ensures k == |z| ==> AcTokens(tbl, maxBits, z, k, r) == if r > 0 then [Symbol(false, tbl, EOB)] else []
    ensures k < |z| && z[k] == 0 ==> AcTokens(tbl, maxBits, z, k, r) == AcTokens(tbl, maxBits, z, k + 1, r + 1)
    ensures k < |z| && z[k] != 0 && r > 15 ==>
              AcTokens(tbl, maxBits, z, k, r) == [Symbol(false, tbl, ZRL)] + AcTokens(tbl, maxBits, z, k, r - 16)
    ensures k < |z| && z[k] != 0 && r <= 15 ==>
              AcTokens(tbl, maxBits, z, k, r) == CoefTokens(tbl, maxBits, z[k], r) + AcTokens(tbl, maxBits, z, k + 1, 0)
  {
  }

  lemma CoefUnroll(tbl: nat, maxBits: nat, v: Coef, r: nat, rest: seq<Token>)
    requires maxBits <= 15 && r <= 15 && v != 0
    ensures var n := NumBits(Magnitude(v));
            && n > 0
            && (n >= maxBits ==> CoefTokens(tbl, maxBits, v, r) + rest == [Fault] + rest)
            && (n < maxBits ==> CoefTokens(tbl, maxBits, v, r) + rest
                                == [Symbol(false, tbl, 16 * r + n)] + ([Bits(Appended(v), n)] + rest))
  {
  }

  lemma DcUnroll(tbl: nat, diff: int, maxBits: nat, rest: seq<Token>)
    requires maxBits <= 15
    ensures var n := NumBits(Magnitude(diff));
            && (n == 0 <==> diff == 0)
            && (n == 0 ==> DcTokens(tbl, diff, maxBits) + rest == [Symbol(true, tbl, 0)] + rest)
            && (n > maxBits ==> DcTokens(tbl, diff, maxBits) + rest == [Fault] + rest)
            && (0 < n <= maxBits ==> DcTokens(tbl, diff, maxBits) + rest
                                     == [Symbol(true, tbl, n)] + ([Bits(Appended(diff), n)] + rest))
  {
  }

  /** The first nonzero coefficient from zigzag position k on, |z| if there is none. */
  function NextNonzero(z: seq<Coef>, k: nat): (ke: nat)
    requires k <= |z|
    ensures k <= ke <= |z| && (ke < |z| ==> z[ke] != 0)
    ensures forall j :: k <= j < ke ==> z[j] == 0
    decreases |z| - k
  {
    if k == |z| || z[k] != 0 then k else NextNonzero(z, k + 1)
  }

  /** A run of zeros only counts. */
  lemma {:induction false} ZerosCount(tbl: nat, maxBits: nat, z: seq<Coef>, k: nat, ke: nat, r: nat)
    requires maxBits <= 15 && k <= ke <= |z| && forall j :: k <= j < ke ==> z[j] == 0
    ensures AcTokens(tbl, maxBits, z, k, r) == AcTokens(tbl, maxBits, z, ke, r + ke - k)
    decreases ke - k
  {
    hide CoefTokens;
    if k < ke {
      ZerosCount(tbl, maxBits, z, k + 1, ke, r + 1);
    }
  }

  /** What the decoder meets next when it is to fill position k. */
  lemma NextTokens(tbl: nat, maxBits: nat, z: seq<Coef>, k: nat, rest: seq<Token>)
    requires maxBits <= 15 && k < |z|
    ensures var ke := NextNonzero(z, k);
            AcTokens(tbl, maxBits, z, k, 0) + rest
            == if ke == |z| then [Symbol(false, tbl, EOB)] + rest
               else if ke - k > 15 then [Symbol(false, tbl, ZRL)] + (AcTokens(tbl, maxBits, z, k + 16, 0) + rest)
               else CoefTokens(tbl, maxBits, z[ke], ke - k) + (AcTokens(tbl, maxBits, z, ke + 1, 0) + rest)
  {
    hide AcTokens, CoefTokens, NextNonzero;
    var ke := NextNonzero(z, k);
    ZerosCount(tbl, maxBits, z, k, ke, 0);
    AcUnroll(tbl, maxBits, z, ke, ke - k);
    if ke < |z| && ke - k > 15 {
      ZerosCount(tbl, maxBits, z, k + 16, ke, 0);
    }
  }

  lemma McuUnroll(scan: Scan, books: Books, last: seq<Coef>, mcu: seq<Block>, n: nat)
    requires ValidScan(scan, books) && |last| == |scan.components| && |mcu| == |scan.membership| && n <= |mcu|
    ensures n == |mcu| ==> McuTokens(scan, books, last, mcu, n) == [] && McuLast(scan, books, last, mcu, n) == last
    ensures n < |mcu| ==>
              var ci := scan.membership[n];
              McuTokens(scan, books, last, mcu, n)
              == BlockTokens(scan, books, ci, last[ci], mcu[n])
                + McuTokens(scan, books, last[ci := mcu[n][0]], mcu, n + 1)
              && McuLast(scan, books, last, mcu, n) == McuLast(scan, books, last[ci := mcu[n][0]], mcu, n + 1)
  {
  }
}
