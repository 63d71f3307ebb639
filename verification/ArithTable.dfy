/** The probability estimation state machine shared by the arithmetic encoder and decoder (T.81, Table D.3). */
module ArithTable {
  const STATES := 114
  const MAX_QE := 0x5B12
  /** Index of the fixed estimate of 0.5. */
  const FIXED_STATE := 113

  predicate IsPacked(x: int) {
    1 <= x / 0x100 / 0x100 <= MAX_QE && x / 0x100 % 0x100 < STATES && x % 0x100 % 0x80 < STATES
  }

  /** A table entry: Qe, the next index after an MPS, the switch flag and the next index after an LPS. */
  type packed = x: int | IsPacked(x) witness 0x1_0000

  function V(qe: nat, nextLps: nat, nextMps: nat, switchMps: nat): (x: packed)
    requires 1 <= qe <= MAX_QE && nextLps < STATES && nextMps < STATES && switchMps <= 1
    ensures x % 0x100 == switchMps * 0x80 + nextLps && x / 0x100 % 0x100 == nextMps && x / 0x100 / 0x100 == qe
  {
    var low := switchMps * 0x80 + nextLps;
    var x := qe * 0x1_0000 + nextMps * 0x100 + low;
    assert low < 0x100 && low % 0x80 == nextLps;
    assert x == (qe * 0x100 + nextMps) * 0x100 + low;
    assert x / 0x100 == qe * 0x100 + nextMps && x % 0x100 == low;
    x
  }

  const ROWS_0: seq<packed> := [
    V(0x5A1D, 1, 1, 1), V(0x2586, 14, 2, 0), V(0x1114, 16, 3, 0), V(0x080B, 18, 4, 0),
    V(0x03D8, 20, 5, 0), V(0x01DA, 23, 6, 0), V(0x00E5, 25, 7, 0), V(0x006F, 28, 8, 0),
    V(0x0036, 30, 9, 0), V(0x001A, 33, 10, 0), V(0x000D, 35, 11, 0), V(0x0006, 9, 12, 0),
    V(0x0003, 10, 13, 0), V(0x0001, 12, 13, 0), V(0x5A7F, 15, 15, 1), V(0x3F25, 36, 16, 0),
    V(0x2CF2, 38, 17, 0), V(0x207C, 39, 18, 0), V(0x17B9, 40, 19, 0), V(0x1182, 42, 20, 0),
    V(0x0CEF, 43, 21, 0), V(0x09A1, 45, 22, 0), V(0x072F, 46, 23, 0), V(0x055C, 48, 24, 0),
    V(0x0406, 49, 25, 0), V(0x0303, 51, 26, 0), V(0x0240, 52, 27, 0), V(0x01B1, 54, 28, 0),
    V(0x0144, 56, 29, 0), V(0x00F5, 57, 30, 0), V(0x00B7, 59, 31, 0), V(0x008A, 60, 32, 0),
    V(0x0068, 62, 33, 0), V(0x004E, 63, 34, 0), V(0x003B, 32, 35, 0), V(0x002C, 33, 9, 0),
    V(0x5AE1, 37, 37, 1), V(0x484C, 64, 38, 0)
  ]

  const ROWS_38: seq<packed> := [
    V(0x3A0D, 65, 39, 0), V(0x2EF1, 67, 40, 0), V(0x261F, 68, 41, 0), V(0x1F33, 69, 42, 0),
    V(0x19A8, 70, 43, 0), V(0x1518, 72, 44, 0), V(0x1177, 73, 45, 0), V(0x0E74, 74, 46, 0),
    V(0x0BFB, 75, 47, 0), V(0x09F8, 77, 48, 0), V(0x0861, 78, 49, 0), V(0x0706, 79, 50, 0),
    V(0x05CD, 48, 51, 0), V(0x04DE, 50, 52, 0), V(0x040F, 50, 53, 0), V(0x0363, 51, 54, 0),
    V(0x02D4, 52, 55, 0), V(0x025C, 53, 56, 0), V(0x01F8, 54, 57, 0), V(0x01A4, 55, 58, 0),
    V(0x0160, 56, 59, 0), V(0x0125, 57, 60, 0), V(0x00F6, 58, 61, 0), V(0x00CB, 59, 62, 0),
    V(0x00AB, 61, 63, 0), V(0x008F, 61, 32, 0), V(0x5B12, 65, 65, 1), V(0x4D04, 80, 66, 0),
    V(0x412C, 81, 67, 0), V(0x37D8, 82, 68, 0), V(0x2FE8, 83, 69, 0), V(0x293C, 84, 70, 0),
    V(0x2379, 86, 71, 0), V(0x1EDF, 87, 72, 0), V(0x1AA9, 87, 73, 0), V(0x174E, 72, 74, 0),
    V(0x1424, 72, 75, 0), V(0x119C, 74, 76, 0)
  ]

  const ROWS_76: seq<packed> := [
    V(0x0F6B, 74, 77, 0), V(0x0D51, 75, 78, 0), V(0x0BB6, 77, 79, 0), V(0x0A40, 77, 48, 0),
    V(0x5832, 80, 81, 1), V(0x4D1C, 88, 82, 0), V(0x438E, 89, 83, 0), V(0x3BDD, 90, 84, 0),
    V(0x34EE, 91, 85, 0), V(0x2EAE, 92, 86, 0), V(0x299A, 93, 87, 0), V(0x2516, 86, 71, 0),
    V(0x5570, 88, 89, 1), V(0x4CA9, 95, 90, 0), V(0x44D9, 96, 91, 0), V(0x3E22, 97, 92, 0),
    V(0x3824, 99, 93, 0), V(0x32B4, 99, 94, 0), V(0x2E17, 93, 86, 0), V(0x56A8, 95, 96, 1),
    V(0x4F46, 101, 97, 0), V(0x47E5, 102, 98, 0), V(0x41CF, 103, 99, 0), V(0x3C3D, 104, 100, 0),
    V(0x375E, 99, 93, 0), V(0x5231, 105, 102, 0), V(0x4C0F, 106, 103, 0), V(0x4639, 107, 104, 0),
    V(0x415E, 103, 99, 0), V(0x5627, 105, 106, 1), V(0x50E7, 108, 107, 0), V(0x4B85, 109, 103, 0),
    V(0x5597, 110, 109, 0), V(0x504F, 111, 107, 0), V(0x5A10, 110, 111, 1), V(0x5522, 112, 109, 0),
    V(0x59EB, 112, 111, 1), V(0x5A1D, 113, 113, 0)
  ]

  function Aritab(): (t: seq<packed>)
    ensures |t| == STATES
  {
    ROWS_0 + ROWS_38 + ROWS_76
  }

  /** A statistics bin: the MPS in bit 7, the index of its estimate in the lower bits. */
  type bin = s: int | 0 <= s < 256 && s % 0x80 < STATES

  function Entry(sv: bin): (x: packed)
    ensures IsPacked(x)
  {
    hide Aritab;
    Aritab()[sv % 0x80]
  }

  function Qe(sv: bin): (qe: nat)
    ensures 1 <= qe <= MAX_QE
  {
    hide Entry;
    Entry(sv) / 0x100 / 0x100
  }

  /** The next index after an LPS, with the switch flag in bit 7. */
  function NextLps(sv: bin): (next: nat)
    ensures next < 256 && next % 0x80 < STATES
  {
    hide Entry;
    Entry(sv) % 0x100
  }

  function NextMps(sv: bin): (next: nat)
    ensures next < STATES
  {
    hide Entry;
    Entry(sv) / 0x100 % 0x100
  }

  function Mps(sv: bin): (bit: nat)
    ensures bit <= 1
  {
    sv / 0x80
  }

  /** The MPS bit of sv combined by exclusive or with a next-state byte. */
  function Transition(sv: bin, next: int): (sv': bin)
    requires 0 <= next < 256 && next % 0x80 < STATES
    ensures sv' % 0x80 == next % 0x80
    ensures Mps(sv') == if next < 0x80 then Mps(sv) else 1 - Mps(sv)
  {
    var msb, index := (sv / 0x80 + next / 0x80) % 2, next % 0x80;
    assert (msb * 0x80 + index) % 0x80 == index && (msb * 0x80 + index) / 0x80 == msb;
    msb * 0x80 + index
  }

  function AfterLps(sv: bin): (sv': bin) {
    hide NextLps;
    Transition(sv, NextLps(sv))
  }

  function AfterMps(sv: bin): (sv': bin) {
    hide NextMps;
    Transition(sv, NextMps(sv))
  }

  /**
   * What a row of Table D.3 means for a bin in that state: the size of the less probable part, the next state after
   * either symbol, and when the sense of the more probable symbol changes.
   */
  lemma RowMeans(sv: bin, qe: nat, nextLps: nat, nextMps: nat, switchMps: nat)
    requires 1 <= qe <= MAX_QE && nextLps < STATES && nextMps < STATES && switchMps <= 1
    requires Aritab()[sv % 0x80] == V(qe, nextLps, nextMps, switchMps)
    ensures Qe(sv) == qe
    ensures AfterLps(sv) == nextLps + 0x80 * (if (sv >= 0x80) == (switchMps == 0) then 1 else 0)
    ensures AfterMps(sv) == nextMps + 0x80 * (if sv >= 0x80 then 1 else 0)
  {
    hide Aritab, V;
  }

  /** The fixed estimate of 0.5 never adapts and never changes sides. */
  lemma FixedStateStays(sv: bin)
    requires sv % 0x80 == FIXED_STATE
    ensures AfterLps(sv) == sv && AfterMps(sv) == sv
  {
    assert Aritab()[FIXED_STATE] == ROWS_76[FIXED_STATE - 76] == V(0x5A1D, 113, 113, 0);
  }
}
