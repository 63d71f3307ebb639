/**
 * The symbols and bits of the first AC scan of a band (T.81, section G.1.2.2): coefficients cut down to bit al, and
 * end-of-band runs that reach over blocks.
 */
module AcFirst {
  import opened Integers
  import opened Words
  import opened Coefficients
  import opened HuffTokens
  import opened HuffBlocks
  import opened RefineDecoding
  import opened RefineEncoding

  /** A coefficient divided by 2^al, rounding towards zero. */
  function Quotient(v: Coef, al: nat): (q: Coef)
    ensures q as int == if v < 0 then 0 - Shifted(Magnitude(v), al) else Shifted(Magnitude(v), al)
  {
    ShiftedSmaller(Magnitude(v), al);
    if v < 0 then 0 - Shifted(Magnitude(v), al) else Shifted(Magnitude(v), al)
  }

  lemma {:induction false} ShiftedSmaller(m: nat, n: nat)
    ensures Shifted(m, n) <= m
  {
    if n > 0 { ShiftedSmaller(m / 2, n - 1); }
  }

  /** What the scan sends of a block, by zigzag position. */
  function Sent(band: Band, b: Block): (z: seq<Coef>)
    requires IsBand(band)
    ensures |z| == band.se + 1
    ensures forall k :: 0 <= k <= band.se ==> z[k] == Quotient(b[band.order[k]], band.al)
  {
    seq(band.se + 1, k requires 0 <= k <= band.se => Quotient(b[band.order[k]], band.al))
  }

  /** One past the last nonzero entry below n, ss if there is none from ss on. */
  function EndOf(z: seq<Coef>, ss: nat, n: nat): (e: nat)
    requires ss <= n <= |z|
    ensures ss <= e <= n && (e > ss ==> z[e - 1] != 0) && forall k :: e <= k < n ==> z[k] == 0
  {
    if n == ss || z[n - 1] != 0 then n else EndOf(z, ss, n - 1)
  }

  /** Where the coded part of a block ends. */
  function End(band: Band, b: Block): (e: nat)
    requires IsBand(band)
    ensures band.ss <= e <= band.se + 1
  {
    EndOf(Sent(band, b), band.ss, band.se + 1)
  }

  /** The coded part of a block. */
  function Body(band: Band, b: Block): (z: seq<Coef>)
    requires IsBand(band)
    ensures |z| == End(band, b)
  {
    Sent(band, b)[..End(band, b)]
  }

  function Head(band: Band, m: nat, b: Block): (toks: seq<Token>)
    requires IsBand(band) && m <= 15
  {
    AcTokens(0, m, Body(band, b), band.ss, 0)
  }

  /** The symbol for a run of run blocks, nothing for none. */
  function Eob(run: nat): (toks: seq<Token>)
    requires run <= 0x7FFF
  {
    if run == 0 then [] else RunTokens(run)
  }

  /** What remains to be sent for blocks when run blocks before them end in a run that is still open. */
  function Tokens(band: Band, m: nat, blocks: seq<Block>, run: nat): (toks: seq<Token>)
    requires IsBand(band) && m <= 15 && run < 0x7FFF
    decreases |blocks|
  {
    if blocks == [] then Eob(run)
    else if End(band, blocks[0]) > band.ss then
      Eob(run) + (Head(band, m, blocks[0])
        + Tokens(band, m, blocks[1..], if End(band, blocks[0]) <= band.se then 1 else 0))
    else if run + 1 == 0x7FFF then Eob(0x7FFF) + Tokens(band, m, blocks[1..], 0)
    else Tokens(band, m, blocks[1..], run + 1)
  }

  lemma TokensUnroll(band: Band, m: nat, b: Block, rest: seq<Block>, run: nat)
    requires IsBand(band) && m <= 15 && run < 0x7FFF
    ensures Tokens(band, m, [], run) == Eob(run)
    ensures Tokens(band, m, [b] + rest, run) ==
            if End(band, b) > band.ss then
              Eob(run) + (Head(band, m, b) + Tokens(band, m, rest, if End(band, b) <= band.se then 1 else 0))
            else if run + 1 == 0x7FFF then Eob(0x7FFF) + Tokens(band, m, rest, 0)
            else Tokens(band, m, rest, run + 1)
  {
    hide Head, End, Eob;
    assert ([b] + rest)[1..] == rest;
  }

  /** Blocks without anything to send. */
  predicate Silent(band: Band, blocks: seq<Block>)
    requires IsBand(band)
  {
    forall i :: 0 <= i < |blocks| ==> End(band, blocks[i]) == band.ss
  }

  /** How many blocks join a run of run blocks. */
  function Joining(band: Band, blocks: seq<Block>, run: nat): (n: nat)
    requires IsBand(band) && 0 < run < 0x7FFF
    ensures n <= |blocks| && run + n <= 0x7FFF && Silent(band, blocks[..n])
    decreases |blocks|
  {
    hide End;
    if blocks == [] || End(band, blocks[0]) > band.ss then 0
    else if run + 1 == 0x7FFF then 1
    else
      var n := Joining(band, blocks[1..], run + 1);
      OneMoreSilent(band, blocks, n);
      n + 1
  }

  lemma OneMoreSilent(band: Band, blocks: seq<Block>, n: nat)
    requires IsBand(band) && n < |blocks| && End(band, blocks[0]) == band.ss && Silent(band, blocks[1..][..n])
    ensures Silent(band, blocks[..n + 1])
  {
    hide End;
    var front := blocks[..n + 1];
    forall i | 0 <= i < |front| ensures End(band, front[i]) == band.ss {
      if i > 0 { assert blocks[i] == blocks[1..][..n][i - 1]; }
    }
  }

  lemma NoRun()
    ensures Eob(0) == []
  {
  }

  /** An open run is closed by one symbol that counts it and the silent blocks that join it. */
  lemma {:induction false} RunSplit(band: Band, m: nat, blocks: seq<Block>, run: nat)
    requires IsBand(band) && m <= 15 && 0 < run < 0x7FFF
    ensures var n := Joining(band, blocks, run);
            Tokens(band, m, blocks, run) == Eob(run + n) + Tokens(band, m, blocks[n..], 0)
    decreases |blocks|
  {
    hide Head, RunTokens, End, Eob, Silent;
    NoRun();
    if blocks == [] {
      assert blocks[0..] == [];
      assert Eob(run) + [] == Eob(run);
    } else if End(band, blocks[0]) > band.ss {
      assert blocks[0..] == blocks;
      var more := Head(band, m, blocks[0])
        + Tokens(band, m, blocks[1..], if End(band, blocks[0]) <= band.se then 1 else 0);
      assert [] + more == more;
    } else if run + 1 < 0x7FFF {
      RunSplit(band, m, blocks[1..], run + 1);
      var n := Joining(band, blocks[1..], run + 1);
      assert blocks[1..][n..] == blocks[n + 1..];
    }
  }

  /** Only a block with something to send, or a full count, keeps the next block from joining. */
  lemma {:induction false} JoiningEnds(band: Band, blocks: seq<Block>, run: nat)
    requires IsBand(band) && 0 < run < 0x7FFF
    ensures var n := Joining(band, blocks, run);
            n < |blocks| && run + n < 0x7FFF ==> End(band, blocks[n]) > band.ss
    decreases |blocks|
  {
    hide End, Silent;
    if blocks != [] && run + 1 < 0x7FFF {
      JoiningEnds(band, blocks[1..], run + 1);
    }
  }

  lemma SilentAt(band: Band, blocks: seq<Block>, n: nat, i: nat)
    requires IsBand(band) && i < n <= |blocks| && Silent(band, blocks[..n])
    ensures End(band, blocks[i]) == band.ss
  {
    hide End;
    assert blocks[..n][i] == blocks[i];
  }

  /** So n silent blocks, then one that is not or none, are sent as one run. */
  lemma SilentRun(band: Band, m: nat, blocks: seq<Block>, n: nat)
    requires IsBand(band) && m <= 15 && 0 < n <= |blocks| && n < 0x7FFF && Silent(band, blocks[..n])
    requires n < |blocks| ==> End(band, blocks[n]) > band.ss
    ensures Tokens(band, m, blocks, 0) == RunTokens(n) + Tokens(band, m, blocks[n..], 0)
  {
    hide Head, RunTokens, End, Tokens, Silent, Joining;
    assert blocks == [blocks[0]] + blocks[1..];
    SilentAt(band, blocks, n, 0);
    TokensUnroll(band, m, blocks[0], blocks[1..], 0);
    RunSplit(band, m, blocks[1..], 1);
    JoiningEnds(band, blocks[1..], 1);
    var j := Joining(band, blocks[1..], 1);
    forall i | 0 <= i < n
      ensures End(band, blocks[i]) == band.ss
    {
      SilentAt(band, blocks, n, i);
    }
    forall i | 0 < i <= j
      ensures End(band, blocks[i]) == band.ss
    {
      SilentAt(band, blocks[1..], j, i - 1);
    }
    assert j < |blocks| - 1 ==> blocks[1..][j] == blocks[j + 1];
    assert j == n - 1;
    assert blocks[1..][j..] == blocks[n..];
  }

  /** A run length and the bits that follow its category. */
  lemma RunValue(n: nat)
    requires 1 <= n <= 0x7FFF
    ensures var nbits: nat := NumBits(n) - 1; nbits <= 14 && Pow2(nbits) + n % Pow2(nbits) == n
  {
    NumBitsBound(n, 15);
    NumBitsRange(n);
    var nbits: nat := NumBits(n) - 1;
    assert Pow2(nbits + 1) == 2 * Pow2(nbits);
    Remainder(n, Pow2(nbits));
  }

  lemma Remainder(n: nat, p: nat)
    requires p <= n < 2 * p
    ensures n % p == n - p
  {
    assert n == p * 1 + (n - p);
    SmallMod(n - p, p);
    ModOfSum(n - p, p);
  }

  lemma ModOfSum(a: nat, p: nat)
    requires a < p
    ensures (a + p) % p == a
  {
    var q := (a + p) / p;
    assert a + p == p * q + (a + p) % p;
    if q >= 2 { Twice(p, q); }
  }

  lemma Twice(p: nat, q: nat)
    requires q >= 2
    ensures p * q >= 2 * p
  {
  }
}
