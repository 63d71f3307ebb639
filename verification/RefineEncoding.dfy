/**
 * The symbols and bits of an AC refinement scan (T.81, section G.1.2.3), arranged as the decoder meets them, and
 * that they decode to the coefficients with one more bit.
 */
module RefineEncoding {
  import opened Integers
  import opened Words
  import opened Coefficients
  import opened HuffTables
  import opened HuffTokens
  import opened HuffBlocks
  import opened RefineDecoding

  /** m shifted right by n bits. */
  function Shifted(m: nat, n: nat): (q: nat)
  {
    if n == 0 then m else Shifted(m / 2, n - 1)
  }

  lemma {:induction false} ShiftedOnce(m: nat, n: nat)
    ensures Shifted(m, n + 1) == Shifted(m, n) / 2
  {
    if n > 0 {
      ShiftedOnce(m / 2, n - 1);
    }
  }

  lemma {:induction false} ShiftedBack(m: nat, n: nat)
    ensures Shifted(m, n) * Pow2(n) <= m
  {
    if n > 0 {
      ShiftedBack(m / 2, n - 1);
      DoubledProduct(Shifted(m, n), Pow2(n - 1));
    }
  }

  /** The magnitude of the coefficient at zigzag position k, without its al low bits. */
  function Mag(band: Band, b: Block, k: nat): (m: nat)
    requires IsBand(band) && k <= band.se
  {
    Shifted(Magnitude(b[band.order[k]]), band.al)
  }

  function SignOf(v: int): bit {
    if v < 0 then 0 else 1
  }

  /** The single table of the scan. */
  function OneBook(t: Table): Books {
    Books([], [t])
  }

  /** Correction bits of the positions from k up to, not including, end. */
  function Corrections(band: Band, b: Block, k: nat, end: nat): (toks: seq<Token>)
    requires IsBand(band) && k <= end <= band.se + 1
    decreases end - k
  {
    if k == end then []
    else (if Mag(band, b, k) > 1 then [Bits(Mag(band, b, k) % 2, 1)] else []) + Corrections(band, b, k + 1, end)
  }

  /** The first coefficient from k on that becomes nonzero with this scan, se + 1 if there is none. */
  function NextNew(band: Band, b: Block, k: nat): (j: nat)
    requires IsBand(band) && k <= band.se + 1
    ensures k <= j <= band.se + 1 && (j <= band.se ==> Mag(band, b, j) == 1)
    ensures forall i :: k <= i < j ==> Mag(band, b, i) != 1
    decreases band.se + 1 - k
  {
    if k > band.se || Mag(band, b, k) == 1 then k else NextNew(band, b, k + 1)
  }

  /** How many coefficients from k up to end stay zero. */
  function ZerosIn(band: Band, b: Block, k: nat, end: nat): (n: nat)
    requires IsBand(band) && k <= end <= band.se + 1
    ensures n <= end - k
    decreases end - k
  {
    if k == end then 0 else (if Mag(band, b, k) == 0 then 1 else 0) + ZerosIn(band, b, k + 1, end)
  }

  /** Position of the zero that has n zeros before it, counting from k; there are more than n before end. */
  function NthZero(band: Band, b: Block, k: nat, end: nat, n: nat): (z: nat)
    requires IsBand(band) && k <= end <= band.se + 1 && ZerosIn(band, b, k, end) > n
    ensures k <= z < end && Mag(band, b, z) == 0 && ZerosIn(band, b, k, z) == n
    decreases end - k
  {
    if Mag(band, b, k) != 0 then NthZero(band, b, k + 1, end, n)
    else if n == 0 then k
    else NthZero(band, b, k + 1, end, n - 1)
  }

  /**
   * Everything from position k up to the last new coefficient: zero runs, new coefficients, corrections passed over.
   */
  function HeadFrom(band: Band, b: Block, k: nat): (toks: seq<Token>)
    requires IsBand(band) && k <= band.se + 1
    decreases band.se + 1 - k
  {
    var j := NextNew(band, b, k);
    if j > band.se then []
    else if ZerosIn(band, b, k, j) > 15 then
      var z := NthZero(band, b, k, j, 15);
      [Symbol(false, 0, ZRL)] + (Corrections(band, b, k, z) + HeadFrom(band, b, z + 1))
    else
      NewTokens(band, b, j, ZerosIn(band, b, k, j)) + (Corrections(band, b, k, j) + HeadFrom(band, b, j + 1))
  }

  /** A new coefficient at position j after r zeros. */
  function NewTokens(band: Band, b: Block, j: nat, r: nat): (toks: seq<Token>)
    requires IsBand(band) && j <= band.se && r <= 15
  {
    [Symbol(false, 0, 16 * r + 1), Bits(SignOf(b[band.order[j]]), 1)]
  }

  /** Where the head ends: behind the last new coefficient. */
  function TailStart(band: Band, b: Block, k: nat): (j: nat)
    requires IsBand(band) && k <= band.se + 1
    ensures k <= j <= band.se + 1 && NextNew(band, b, j) > band.se
    decreases band.se + 1 - k
  {
    var j := NextNew(band, b, k);
    if j > band.se then k else TailStart(band, b, j + 1)
  }

  /** Correction bits of blocks without new coefficients. */
  function Followers(band: Band, blocks: seq<Block>): (toks: seq<Token>)
    requires IsBand(band)
    decreases |blocks|
  {
    if blocks == [] then [] else Corrections(band, blocks[0], band.ss, band.se + 1) + Followers(band, blocks[1..])
  }

  /** Blocks that share an end-of-band symbol, or one block that needs none. */
  predicate IsGroup(band: Band, g: seq<Block>)
    requires IsBand(band)
  {
    && 1 <= |g| <= 0x7FFF
    && (|g| > 1 ==> TailStart(band, g[0], band.ss) <= band.se)
    && forall i :: 1 <= i < |g| ==> NextNew(band, g[i], band.ss) > band.se
  }

  function GroupTokens(band: Band, g: seq<Block>): (toks: seq<Token>)
    requires IsBand(band) && IsGroup(band, g)
  {
    var tail := TailStart(band, g[0], band.ss);
    HeadFrom(band, g[0], band.ss)
    + if tail > band.se then []
      else RunTokens(|g|) + Corrections(band, g[0], tail, band.se + 1) + Followers(band, g[1..])
  }

  // ---------------------------------------------------------------------------------------------
  // One more bit
  // ---------------------------------------------------------------------------------------------

  /** A coefficient cut down to bit al. */
  function Trunc(v: Coef, al: nat): (w: int)
  {
    var m := Shifted(Magnitude(v), al) * Pow2(al);
    if v < 0 then -m else m
  }

  lemma TruncIsCoef(v: Coef, al: nat)
    ensures -0x8000 <= Trunc(v, al) < 0x8000
  {
    ShiftedBack(Magnitude(v), al);
  }

  /** What the bit of this scan does to a coefficient known to bit al + 1. */
  lemma OneMoreBit(v: Coef, al: nat)
    requires al <= 13
    ensures -0x8000 <= Trunc(v, al + 1) < 0x8000
    ensures var m := Shifted(Magnitude(v), al);
            && (m <= 1 <==> Trunc(v, al + 1) == 0)
            && (m == 0 ==> Trunc(v, al) == 0)
            && (m == 1 ==> Trunc(v, al) == NewCoef(SignOf(v), al))
            && (m > 1 ==> Trunc(v, al) == Corrected(Trunc(v, al + 1), m % 2, al))
  {
    hide Pow2, Shifted, BitOf, Grown, Corrected;
    TruncIsCoef(v, al + 1);
    TruncHalves(v, al);
    var p, m := Pow2(al), Shifted(Magnitude(v), al);
    if m > 1 {
      PositiveProduct(m / 2, p);
      OldBit(v, al);
    }
  }

  /** The truncated magnitudes before and after a bit. */
  lemma TruncHalves(v: Coef, al: nat)
    ensures var p, m := Pow2(al), Shifted(Magnitude(v), al);
            && Magnitude(Trunc(v, al + 1)) == 2 * (m / 2 * p) && (Trunc(v, al + 1) < 0 ==> v < 0)
            && Trunc(v, al + 1) == (if v < 0 then 0 - 2 * (m / 2 * p) else 2 * (m / 2 * p))
            && m * p == 2 * (m / 2 * p) + m % 2 * p
            && Trunc(v, al) == if v < 0 then 0 - m * p else m * p
  {
    hide Pow2, Shifted;
    var p, m := Pow2(al), Shifted(Magnitude(v), al);
    ShiftedOnce(Magnitude(v), al);
    Pow2Step(al);
    DoubledProduct(m / 2, p);
    SplitFactor(p, m / 2, m % 2);
  }

  /** A correction bit enters a coefficient that is nonzero already. */
  lemma OldBit(v: Coef, al: nat)
    requires al <= 13 && Shifted(Magnitude(v), al) > 1
    ensures -0x8000 <= Trunc(v, al + 1) < 0x8000
    ensures Trunc(v, al) == Corrected(Trunc(v, al + 1), Shifted(Magnitude(v), al) % 2, al)
  {
    hide Pow2, Shifted, BitOf, Grown, Trunc;
    var p, m := Pow2(al), Shifted(Magnitude(v), al);
    TruncIsCoef(v, al);
    TruncIsCoef(v, al + 1);
    TruncHalves(v, al);
    PositiveProduct(m / 2, p);
    OldBitClear(m / 2, v < 0, al);
    if m % 2 == 1 {
      GrownExact(Trunc(v, al + 1), Trunc(v, al), al);
    }
  }

  /** A correction does not overflow if the result is a coefficient. */
  lemma GrownExact(v: Coef, w: Coef, al: nat)
    ensures (v >= 0 && w == v + Pow2(al)) || (v < 0 && w == v - Pow2(al)) ==> Grown(v, al) == w
  {
  }

  lemma SplitFactor(p: nat, h: nat, c: nat)
    ensures (2 * h + c) * p == 2 * (h * p) + c * p
  {
  }

  lemma PositiveProduct(h: nat, p: nat)
    requires h > 0 && p > 0
    ensures h * p >= p
  {
  }

  lemma OldBitClear(h: nat, negative: bool, al: nat)
    ensures var w: int := 2 * (h * Pow2(al)); BitOf(if negative then -w else w, al) == 0
  {
    hide Pow2;
    var p := Pow2(al);
    QuotientShift(0, 2 * h, p);
    QuotientShift(0, -2 * h, p);
    QuotientOfZero(p);
    MovedFactor(h, p);
  }

  lemma MovedFactor(h: nat, p: nat)
    ensures 2 * (h * p) == (2 * h) * p && -(2 * (h * p)) == (-2 * h) * p
  {
  }
}
