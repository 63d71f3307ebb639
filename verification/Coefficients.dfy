/** Quantised coefficients, blocks of them, and the order in which a scan visits a block. */
module Coefficients {
  const DCTSIZE2 := 64
  const MAX_COMPS_IN_SCAN := 4

  type Coef = v: int | -0x8000 <= v < 0x8000

  /** A value stored in a 16-bit coefficient. */
  function ToCoef(v: int): Coef {
    (v + 0x8000) % 0x1_0000 - 0x8000
  }

  function Magnitude(v: int): nat {
    if v < 0 then -v else v
  }

  function Difference(a: int, b: int): int {
    a - b
  }

  type Block = b: seq<Coef> | |b| == DCTSIZE2 witness seq(DCTSIZE2, _ => 0)

  /** A natural order maps zigzag positions to positions in a block; the DC coefficient comes first. */
  predicate IsOrder(order: seq<nat>) {
    && |order| == DCTSIZE2 && order[0] == 0
    && (forall k :: 0 <= k < DCTSIZE2 ==> order[k] < DCTSIZE2)
    && (forall j, k :: 0 <= j < k < DCTSIZE2 ==> order[j] != order[k])
  }

  /** The first limSe + 1 coefficients of a block in zigzag order. */
  function ZigzagOf(order: seq<nat>, limSe: nat, b: Block): (z: seq<Coef>)
    requires limSe < DCTSIZE2 && IsOrder(order)
    ensures |z| == limSe + 1 && z[0] == b[0]
    ensures forall k :: 0 <= k <= limSe ==> z[k] == b[order[k]]
  {
    seq(limSe + 1, k requires 0 <= k <= limSe => b[order[k]])
  }

  /** Distinct arrays, each a block. */
  predicate AreBlocks(blks: seq<array<Coef>>) {
    && (forall i :: 0 <= i < |blks| ==> blks[i].Length == DCTSIZE2)
    && forall i, j :: 0 <= i < j < |blks| ==> blks[i] != blks[j]
  }

  /** Zeroed coefficient blocks. */
  method NewBlocks(count: nat) returns (blocks: seq<array<Coef>>)
    ensures |blocks| == count
    ensures forall n :: 0 <= n < count ==>
                          fresh(blocks[n]) && blocks[n].Length == DCTSIZE2 && forall k :: 0 <= k < DCTSIZE2 ==>
                            blocks[n][k] == 0
    ensures forall m, n :: 0 <= m < n < count ==> blocks[m] != blocks[n]
  {
    blocks := [];
    for n := 0 to count
      invariant |blocks| == n
      invariant forall i :: 0 <= i < n ==> fresh(blocks[i]) && blocks[i].Length == DCTSIZE2
      invariant forall i, k :: 0 <= i < n && 0 <= k < DCTSIZE2 ==> blocks[i][k] == 0
      invariant forall i, j :: 0 <= i < j < n ==> blocks[i] != blocks[j]
    {
      var blk := new Coef[DCTSIZE2](_ => 0);
      blocks := blocks + [blk];
    }
  }

  function Contents(blocks: seq<array<Coef>>): (values: seq<seq<Coef>>)
    reads blocks
    ensures |values| == |blocks| && forall n :: 0 <= n < |blocks| ==> values[n] == blocks[n][..]
  {
    seq(|blocks|, n requires 0 <= n < |blocks| reads blocks => blocks[n][..])
  }

  /** Arrays that hold the given blocks. */
  method BlocksOf(values: seq<seq<Coef>>) returns (blocks: seq<array<Coef>>)
    requires forall n :: 0 <= n < |values| ==> |values[n]| == DCTSIZE2
    ensures AreBlocks(blocks) && Contents(blocks) == values && forall n :: 0 <= n < |blocks| ==> fresh(blocks[n])
  {
    blocks := [];
    for n := 0 to |values|
      invariant |blocks| == n && AreBlocks(blocks)
      invariant forall i :: 0 <= i < n ==> fresh(blocks[i]) && blocks[i][..] == values[i]
    {
      var blk := new Coef[DCTSIZE2](k requires 0 <= k < DCTSIZE2 => values[n][k]);
      assert blk[..] == values[n];
      blocks := blocks + [blk];
    }
  }
}
