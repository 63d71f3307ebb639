/**
 * What an AC refinement scan decodes to (T.81, section G.1.2.3): the effect of any bit string on one block, as
 * a function of the block, the pending end-of-band run and the bit position.
 */
module RefineDecoding {
  import opened Integers
  import opened Words
  import opened BitStrings
  import opened Coefficients
  import opened HuffTables
  import opened HuffDecode

  /** The band of coefficients ss..se is refined down to bit al. */
  datatype Band = Band(order: seq<nat>, ss: nat, se: nat, al: nat)

  /** How far a zero run in corrupt data can lead past the end of a band. */
  const SPARE := 16

  /**
   * The order leads on past the band, so that runs in corrupt data stay in it; it does not come back to a coefficient
   * of the band other than the last one.
   */
  predicate IsBand(band: Band) {
    && 1 <= band.ss <= band.se <= 63 && band.al <= 13 && |band.order| > band.se + SPARE
    && (forall k :: 0 <= k < |band.order| ==> band.order[k] < DCTSIZE2)
    && (forall j, k :: band.ss <= j < band.se && j < k < |band.order| ==> band.order[j] != band.order[k])
  }

  /** A natural order for blocks with limSe + 1 coefficients, as it is stored: sixteen entries of 63 follow it. */
  predicate IsStoredOrder(order: seq<nat>, limSe: nat) {
    && limSe <= 63 && |order| == limSe + 1 + SPARE
    && (forall k :: 0 <= k < |order| ==> order[k] < DCTSIZE2)
    && (forall j, k :: 0 <= j < k <= limSe ==> order[j] != order[k])
    && (forall k :: 0 <= k < limSe ==> order[k] != 63)
    && forall k :: limSe < k < |order| ==> order[k] == 63
  }

  /** Every band of every natural order, full-size or reduced. */
  lemma StoredOrdersServe(order: seq<nat>, limSe: nat, ss: nat, se: nat, al: nat)
    requires IsStoredOrder(order, limSe) && 1 <= ss <= se <= limSe && al <= 13
    ensures IsBand(Band(order, ss, se, al))
  {
  }

  /** Coefficients that are not in the band are the same. */
  ghost predicate SameElsewhere(band: Band, before: seq<Coef>, after: seq<Coef>)
    requires IsBand(band)
  {
    |before| == |after| == DCTSIZE2 && forall p :: 0 <= p < DCTSIZE2 && p !in band.order[band.ss..band.se + 1] ==>
      after[p] == before[p]
  }

  lemma ElsewhereStored(band: Band, before: seq<Coef>, cur: seq<Coef>, k: nat, v: Coef)
    requires IsBand(band) && SameElsewhere(band, before, cur) && band.ss <= k <= band.se
    ensures SameElsewhere(band, before, cur[band.order[k] := v])
  {
    assert band.order[k] in band.order[band.ss..band.se + 1];
  }

  lemma SameTwice(band: Band, a: seq<Coef>, b: seq<Coef>, c: seq<Coef>)
    requires IsBand(band) && SameElsewhere(band, a, b) && SameElsewhere(band, b, c)
    ensures SameElsewhere(band, a, c)
  {
  }

  /** Bit al of a two's complement number. */
  function BitOf(v: int, al: nat): bit {
    v / Pow2(al) % 2
  }

  /** One more bit of magnitude. */
  function Grown(v: Coef, al: nat): (w: Coef)
  {
    ToCoef(if v >= 0 then v + Pow2(al) else v - Pow2(al))
  }

  /** A correction bit applied to a nonzero coefficient; a coefficient that has bit al already is left alone. */
  function Corrected(v: Coef, b: bit, al: nat): (w: Coef)
  {
    if b == 1 && BitOf(v, al) == 0 then Grown(v, al) else v
  }

  /** The symbol that stands at a bit position, and the position behind it. */
  ghost function SymbolRead(t: Table, data: seq<byte>, at: nat): (r: (byte, nat))
    requires IsTable(t)
    ensures r.1 >= at
  {
    if exists p: nat :: Stands(t, data, at, p) then
      var p: nat :| Stands(t, data, at, p);
      (SymbolOf(t, p), at + SizeOf(t, p))
    else
      (0, at + MAX_LENGTH + 1)
  }

  lemma DecodedIsRead(t: Table, data: seq<byte>, at: nat, s: byte, end: nat, bad: bool)
    requires IsTable(t) && Decoded(t, data, at, s, end, bad)
    ensures (s, end) == SymbolRead(t, data, at)
  {
    hide Stands, SizeOf, SymbolOf;
  }

  datatype Walk = Walk(b: seq<Coef>, k: nat, at: nat)

  /** Passes corrected coefficients and r zeros; ends at the next zero, or past the band. */
  function Advance(band: Band, b: seq<Coef>, k: nat, r: nat, data: seq<byte>, at: nat): (w: Walk)
    requires IsBand(band) && |b| == DCTSIZE2
    ensures |w.b| == DCTSIZE2 && w.at >= at && (k <= band.se + 1 ==> k <= w.k <= band.se + 1)
    decreases band.se + 1 - k
  {
    if k > band.se then Walk(b, k, at)
    else if b[band.order[k]] != 0 then
      Advance(band, b[band.order[k] := Corrected(b[band.order[k]], BitAt(data, at), band.al)], k + 1, r, data, at + 1)
    else if r == 0 then Walk(b, k, at)
    else Advance(band, b, k + 1, r - 1, data, at)
  }

  /** Passes the rest of the band. */
  function Finish(band: Band, b: seq<Coef>, k: nat, data: seq<byte>, at: nat): (w: Walk)
    requires IsBand(band) && |b| == DCTSIZE2
    ensures |w.b| == DCTSIZE2 && w.at >= at
    decreases band.se + 1 - k
  {
    if k > band.se then Walk(b, k, at)
    else if b[band.order[k]] != 0 then
      Finish(band, b[band.order[k] := Corrected(b[band.order[k]], BitAt(data, at), band.al)], k + 1, data, at + 1)
    else Finish(band, b, k + 1, data, at)
  }

  /** A block after decoding, the blocks left in the end-of-band run, and the bit position. */
  datatype Outcome = Outcome(b: seq<Coef>, run: nat, at: nat)

  function NewCoef(sign: bit, al: nat): (v: Coef)
    requires al <= 13
  {
    Pow2Monotone(al, 13);
    Pow2Thirteen();
    if sign == 1 then Pow2(al) else -(Pow2(al) as int)
  }

  /** The rest of a block in an end-of-band run of run blocks. */
  function EndBand(band: Band, b: seq<Coef>, k: nat, run: nat, data: seq<byte>, at: nat): (o: Outcome)
    requires IsBand(band) && |b| == DCTSIZE2 && run > 0
    ensures |o.b| == DCTSIZE2
  {
    var w := Finish(band, b, k, data, at);
    Outcome(w.b, run - 1, w.at)
  }

  /** The block after a walk, with the new coefficient s, if it is not 0, at the walk's target. */
  function Placed(band: Band, w: Walk, s: Coef): (b: seq<Coef>)
    requires IsBand(band) && |w.b| == DCTSIZE2 && w.k <= band.se + 1
    ensures |b| == DCTSIZE2
  {
    if s != 0 then w.b[band.order[w.k] := s] else w.b
  }

  function RunLength(r: nat, data: seq<byte>, at: nat): (run: nat)
    ensures run > 0
  {
    Pow2(r) + Number(BitsAt(data, at, r))
  }

  /** Symbols from position k on. */
  ghost function Remaining(band: Band, t: Table, b: seq<Coef>, k: nat, data: seq<byte>, at: nat): (o: Outcome)
    requires IsBand(band) && IsTable(t) && |b| == DCTSIZE2
    ensures |o.b| == DCTSIZE2
    decreases band.se + 1 - k
  {
    if k > band.se then Outcome(b, 0, at)
    else
      var (sym, at1) := SymbolRead(t, data, at);
      var r, s := (sym / 16) as nat, (sym % 16) as nat;
      if s == 0 && r != 15 then
        EndBand(band, b, k, RunLength(r, data, at1), data, at1 + r)
      else
        var v := if s == 0 then 0 else NewCoef(BitAt(data, at1), band.al);
        var w := Advance(band, b, k, r, data, if s == 0 then at1 else at1 + 1);
        Remaining(band, t, Placed(band, w, v), w.k + 1, data, w.at)
  }

  /** One block, refined under an end-of-band run of run blocks. */
  ghost function Refined(band: Band, t: Table, b: seq<Coef>, run: nat, data: seq<byte>, at: nat): (o: Outcome)
    requires IsBand(band) && IsTable(t) && |b| == DCTSIZE2
    ensures |o.b| == DCTSIZE2
  {
    if run > 0 then EndBand(band, b, band.ss, run, data, at) else Remaining(band, t, b, band.ss, data, at)
  }

  lemma RemainingUnroll(band: Band, t: Table, b: seq<Coef>, k: nat, data: seq<byte>, at: nat, r: nat, s: nat, at1: nat)
    requires IsBand(band) && IsTable(t) && |b| == DCTSIZE2 && k <= band.se
    requires r <= 15 && s <= 15 && SymbolRead(t, data, at) == (16 * r + s, at1)
    ensures Remaining(band, t, b, k, data, at)
            == if s == 0 && r != 15 then EndBand(band, b, k, RunLength(r, data, at1), data, at1 + r)
               else
                 var w := Advance(band, b, k, r, data, if s == 0 then at1 else at1 + 1);
                 var v := if s == 0 then 0 else NewCoef(BitAt(data, at1), band.al);
                 Remaining(band, t, Placed(band, w, v), w.k + 1, data, w.at)
  {
    hide SymbolRead, EndBand, RunLength, Advance, NewCoef, Placed;
  }

  lemma RemainingDone(band: Band, t: Table, b: seq<Coef>, k: nat, data: seq<byte>, at: nat)
    requires IsBand(band) && IsTable(t) && |b| == DCTSIZE2 && k > band.se
    ensures Remaining(band, t, b, k, data, at) == Outcome(b, 0, at)
  {
  }

  // ---------------------------------------------------------------------------------------------
  // Positions that have been passed do not change any more
  // ---------------------------------------------------------------------------------------------

  lemma {:induction false} AdvanceKeeps(band: Band, b: seq<Coef>, k: nat, r: nat, data: seq<byte>, at: nat, j: nat)
    requires IsBand(band) && |b| == DCTSIZE2 && band.ss <= j < k && j <= band.se
    ensures Advance(band, b, k, r, data, at).b[band.order[j]] == b[band.order[j]]
    decreases band.se + 1 - k
  {
    hide Corrected, BitAt;
    if k <= band.se {
      if b[band.order[k]] != 0 {
        AdvanceKeeps(band, b[band.order[k] := Corrected(b[band.order[k]], BitAt(data, at), band.al)], k + 1, r, data,
          at + 1, j);
      } else if r > 0 {
        AdvanceKeeps(band, b, k + 1, r - 1, data, at, j);
      }
    }
  }

  lemma {:induction false} FinishKeeps(band: Band, b: seq<Coef>, k: nat, data: seq<byte>, at: nat, j: nat)
    requires IsBand(band) && |b| == DCTSIZE2 && band.ss <= j < k && j <= band.se
    ensures Finish(band, b, k, data, at).b[band.order[j]] == b[band.order[j]]
    decreases band.se + 1 - k
  {
    hide Corrected, BitAt;
    if k <= band.se {
      if b[band.order[k]] != 0 {
        FinishKeeps(band, b[band.order[k] := Corrected(b[band.order[k]], BitAt(data, at), band.al)], k + 1, data,
          at + 1, j);
      } else {
        FinishKeeps(band, b, k + 1, data, at, j);
      }
    }
  }

  /** What follows a walk leaves the positions before its target alone. */
  lemma {:induction false} ContinuationKeeps(band: Band, t: Table, w: Walk, v: Coef, data: seq<byte>, j: nat)
    requires IsBand(band) && IsTable(t) && |w.b| == DCTSIZE2 && band.ss <= j < w.k <= band.se + 1 && j < band.se
    ensures Remaining(band, t, Placed(band, w, v), w.k + 1, data, w.at).b[band.order[j]] == w.b[band.order[j]]
    decreases band.se + 1 - w.k, 1
  {
    hide Corrected, BitAt, Advance, Finish, SymbolRead, RunLength, NewCoef;
    if w.k < band.se {
      RemainingKeeps(band, t, Placed(band, w, v), w.k + 1, data, w.at, j);
    }
  }

  lemma {:induction false} RemainingKeeps(band: Band, t: Table, b: seq<Coef>, k: nat, data: seq<byte>, at: nat, j: nat)
    requires IsBand(band) && IsTable(t) && |b| == DCTSIZE2 && band.ss <= j < k <= band.se
    ensures Remaining(band, t, b, k, data, at).b[band.order[j]] == b[band.order[j]]
    decreases band.se + 1 - k, 2
  {
    hide Corrected, BitAt, Advance, Finish, SymbolRead, RunLength, NewCoef, Placed;
    var (sym, at1) := SymbolRead(t, data, at);
    var r, s := (sym / 16) as nat, (sym % 16) as nat;
    if s == 0 && r != 15 {
      FinishKeeps(band, b, k, data, at1 + r, j);
    } else {
      var v := if s == 0 then 0 else NewCoef(BitAt(data, at1), band.al);
      var w := Advance(band, b, k, r, data, if s == 0 then at1 else at1 + 1);
      AdvanceKeeps(band, b, k, r, data, if s == 0 then at1 else at1 + 1, j);
      ContinuationKeeps(band, t, w, v, data, j);
    }
  }

  // ---------------------------------------------------------------------------------------------
  // Whatever changes has bit al afterwards
  // ---------------------------------------------------------------------------------------------

  /** Each coefficient is as before or has bit al. */
  predicate Marked(b: seq<Coef>, after: seq<Coef>, al: nat) {
    |b| == |after| && forall j :: 0 <= j < |b| ==> after[j] == b[j] || BitOf(after[j], al) == 1
  }

  lemma QuotientShift(v: int, q: int, p: nat)
    requires p > 0
    ensures (v + q * p) / p == v / p + q
  {
    var w := v + q * p;
    var a, b := v / p, w / p;
    assert w == p * (a + q) + v % p;
    assert w == p * b + w % p;
    UniqueQuotient(p, a + q, v % p, b, w % p);
  }

  lemma OddShiftToggles(v: int, sign: int, m: int, al: nat)
    requires BitOf(v, al) == 0 && (sign == 1 || sign == -1)
    ensures BitOf(v + (sign + 2 * m) * Pow2(al), al) == 1
  {
    hide Pow2;
    QuotientShift(v, sign + 2 * m, Pow2(al));
  }

  /** Adding or taking off one unit of bit al toggles it, also when the sum is cut down to 16 bits. */
  lemma GrownHasBit(v: Coef, al: nat)
    requires al <= 13 && BitOf(v, al) == 0
    ensures BitOf(Grown(v, al), al) == 1
  {
    hide Pow2, BitOf;
    var p := Pow2(al);
    Pow2Monotone(al, 13);
    assert Pow2(13) == 8192 by { Pow2Thirteen(); }
    var sign: int := if v >= 0 then 1 else -1;
    var sum: int := v + sign * p;
    var turns: int := if sum > 0x7FFF then -1 else if sum < -0x8000 then 1 else 0;
    CoefWraps(sum, turns);
    UnitsInWord(al);
    var m: int := turns * Pow2(15 - al);
    WordMultiple2(turns, Pow2(15 - al), p);
    Distribute(1, sign, 2 * m, p);
    OddShiftToggles(v, sign, m, al);
  }

  lemma Pow2Thirteen()
    ensures Pow2(13) == 8192
  {
    assert Pow2(13) == 2 * Pow2(12);
    Pow2Constants();
  }

  lemma UnitsInWord(al: nat)
    requires al <= 13
    ensures Pow2(15 - al) * Pow2(al) == 0x8000
  {
    Pow2Add(15 - al, al);
    Pow2Constants();
  }

  lemma CoefWraps(v: int, turns: int)
    requires -0x8000 <= v + 0x1_0000 * turns < 0x8000
    ensures ToCoef(v) == v + 0x1_0000 * turns
  {
  }

  lemma WordMultiple2(turns: int, u: int, p: int)
    requires u * p == 0x8000
    ensures 2 * (turns * u) * p == 0x1_0000 * turns
  {
    assert turns * u * p == turns * (u * p);
  }

  lemma NewHasBit(sign: bit, al: nat)
    requires al <= 13
    ensures BitOf(NewCoef(sign, al), al) == 1 && NewCoef(sign, al) != 0
  {
    hide Pow2;
    QuotientShift(0, if sign == 1 then 1 else -1, Pow2(al));
    assert 0 / Pow2(al) == 0 by { QuotientOfZero(Pow2(al)); }
  }

  lemma QuotientOfZero(p: nat)
    requires p > 0
    ensures 0 / p == 0
  {
  }

  lemma MarkedStep(b: seq<Coef>, i: nat, v: Coef, after: seq<Coef>, al: nat)
    requires i < |b| && Marked(b[i := v], after, al) && (v == b[i] || BitOf(v, al) == 1)
    ensures Marked(b, after, al)
  {
    hide BitOf;
  }

  lemma CorrectedMarks(v: Coef, b: bit, al: nat)
    requires al <= 13
    ensures Corrected(v, b, al) == v || BitOf(Corrected(v, b, al), al) == 1
  {
    if b == 1 && BitOf(v, al) == 0 {
      GrownHasBit(v, al);
    }
  }

  lemma {:induction false} AdvanceMarks(band: Band, b: seq<Coef>, k: nat, r: nat, data: seq<byte>, at: nat)
    requires IsBand(band) && |b| == DCTSIZE2
    ensures Marked(b, Advance(band, b, k, r, data, at).b, band.al)
    decreases band.se + 1 - k
  {
    hide Corrected, BitAt, BitOf, Marked;
    if k > band.se || (b[band.order[k]] == 0 && r == 0) {
      MarkedSame(b, band.al);
    } else if b[band.order[k]] != 0 {
      var i := band.order[k];
      var v := Corrected(b[i], BitAt(data, at), band.al);
      CorrectedMarks(b[i], BitAt(data, at), band.al);
      AdvanceMarks(band, b[i := v], k + 1, r, data, at + 1);
      MarkedStep(b, i, v, Advance(band, b, k, r, data, at).b, band.al);
    } else {
      AdvanceMarks(band, b, k + 1, r - 1, data, at);
    }
  }

  lemma MarkedSame(b: seq<Coef>, al: nat)
    ensures Marked(b, b, al)
  {
  }

  lemma MarkedTwice(a: seq<Coef>, b: seq<Coef>, c: seq<Coef>, al: nat)
    requires Marked(a, b, al) && Marked(b, c, al)
    ensures Marked(a, c, al)
  {
    hide BitOf;
  }

  lemma {:induction false} FinishMarks(band: Band, b: seq<Coef>, k: nat, data: seq<byte>, at: nat)
    requires IsBand(band) && |b| == DCTSIZE2
    ensures Marked(b, Finish(band, b, k, data, at).b, band.al)
    decreases band.se + 1 - k
  {
    hide Corrected, BitAt, BitOf, Marked;
    if k > band.se {
      MarkedSame(b, band.al);
    } else if b[band.order[k]] != 0 {
      var i := band.order[k];
      var v := Corrected(b[i], BitAt(data, at), band.al);
      CorrectedMarks(b[i], BitAt(data, at), band.al);
      FinishMarks(band, b[i := v], k + 1, data, at + 1);
      MarkedStep(b, i, v, Finish(band, b, k, data, at).b, band.al);
    } else {
      FinishMarks(band, b, k + 1, data, at);
    }
  }

  lemma PlacedMarks(band: Band, w: Walk, s: Coef)
    requires IsBand(band) && |w.b| == DCTSIZE2 && w.k <= band.se + 1 && (s != 0 ==> BitOf(s, band.al) == 1)
    ensures Marked(w.b, Placed(band, w, s), band.al)
  {
  }

  lemma {:induction false} RemainingMarks(band: Band, t: Table, b: seq<Coef>, k: nat, data: seq<byte>, at: nat)
    requires IsBand(band) && IsTable(t) && |b| == DCTSIZE2
    ensures Marked(b, Remaining(band, t, b, k, data, at).b, band.al)
    decreases band.se + 1 - k
  {
    hide BitAt, BitOf, Marked, Advance, Finish, SymbolRead, RunLength, NewCoef, Placed;
    if k > band.se {
      MarkedSame(b, band.al);
    } else {
      var (sym, at1) := SymbolRead(t, data, at);
      var r, s := (sym / 16) as nat, (sym % 16) as nat;
      if s == 0 && r != 15 {
        FinishMarks(band, b, k, data, at1 + r);
      } else {
        var v := if s == 0 then 0 else NewCoef(BitAt(data, at1), band.al);
        NewHasBit(BitAt(data, at1), band.al);
        var at2 := if s == 0 then at1 else at1 + 1;
        var w := Advance(band, b, k, r, data, at2);
        AdvanceMarks(band, b, k, r, data, at2);
        PlacedMarks(band, w, v);
        RemainingMarks(band, t, Placed(band, w, v), w.k + 1, data, w.at);
        var after := Remaining(band, t, b, k, data, at).b;
        MarkedTwice(b, w.b, Placed(band, w, v), band.al);
        MarkedTwice(b, Placed(band, w, v), after, band.al);
      }
    }
  }

  /** However a block is refined, each coefficient stays or has bit al afterwards. */
  lemma RefinedMarks(band: Band, t: Table, b: seq<Coef>, run: nat, data: seq<byte>, at: nat)
    requires IsBand(band) && IsTable(t) && |b| == DCTSIZE2
    ensures Marked(b, Refined(band, t, b, run, data, at).b, band.al)
  {
    hide Marked, Finish;
    if run > 0 {
      FinishMarks(band, b, band.ss, data, at);
    } else {
      RemainingMarks(band, t, b, band.ss, data, at);
    }
  }
}
