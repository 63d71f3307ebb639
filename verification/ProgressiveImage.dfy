/**
 * Whole progressive images: whatever valid script divides the coefficients of whatever components into scans, encoding
 * and decoding the scans one after the other gives every coefficient with all the bits that the script sends of it.
 */
module ProgressiveImage {
  import opened Coefficients
  import opened HuffTables
  import opened HuffTokens
  import opened HuffBlocks
  import opened RefineDecoding
  import opened RefineEncoding
  import opened RefineStream
  import opened DcScans
  import opened McuStream
  import opened ImagePlaces
  import opened ProgressiveBlocks
  import Scripts = ScanScripts
  import ScriptGeneration
  import CoefBlocks
  import HuffRoundTrip
  import DcRoundTrip
  import opened AcFirstDecoder
  import AcFirst
  import AcFirstRoundTrip
  import RefineEncoder
  import RefineRoundTrip

  /** A picture, the tables each of its components uses, and the parameters of the coding process. */
  datatype Image = Image(p: Picture, slots: seq<Component>, order: seq<nat>, precision: nat)

  ghost predicate ValidImage(im: Image) {
    && ValidPicture(im.p) && im.p.total > 0 && im.p.across > 0
    && |im.slots| == |im.p.comps| && IsNaturalOrder(im.order) && im.precision <= 12
  }

  /** The tables are proper, and those that the components use are there. */
  predicate Suits(im: Image, books: Books) {
    && Proper(books)
    && forall ci :: 0 <= ci < |im.slots| ==> im.slots[ci].dcTbl < |books.dc| && im.slots[ci].acTbl < |books.ac|
  }

  // ---------------------------------------------------------------------------------------------
  // The components of a scan
  // ---------------------------------------------------------------------------------------------

  function CompsOf(s: Scripts.Scan, n: nat): (comps: seq<nat>)
    requires Scripts.ComponentsOk(s, n)
    ensures 0 < |comps| <= MAX_COMPS_IN_SCAN && forall i :: 0 <= i < |comps| ==> comps[i] < n
  {
    seq(s.comps, i requires 0 <= i < s.comps => s.index[i])
  }

  lemma CompsAreSent(s: Scripts.Scan, n: nat, ci: nat)
    requires Scripts.ComponentsOk(s, n)
    ensures ci in CompsOf(s, n) <==> Scripts.Sends(s, ci)
  {
    var comps := CompsOf(s, n);
    if ci in comps {
      var i :| 0 <= i < |comps| && comps[i] == ci;
      Scripts.SendsOne(s, i);
    }
    if Scripts.Sends(s, ci) {
      var i :| 0 <= i < s.comps && i < MAX_COMPS_IN_SCAN && s.index[i] == ci;
      assert comps[i] == ci;
    }
  }

  /** A scan of the picture's components. */
  ghost predicate IsScan(im: Image, comps: seq<nat>) {
    ValidImage(im) && McuStream.ValidScan(im.p, comps) && ForStream(im.p, comps)
  }

  lemma ScanFits(im: Image, before: seq<Scripts.Scan>, s: Scripts.Scan)
    requires ValidImage(im) && IsNext(|im.p.comps|, before, s)
    ensures Scripts.ComponentsOk(s, |im.p.comps|) && IsScan(im, CompsOf(s, |im.p.comps|))
    ensures s.ss > 0 ==> |CompsOf(s, |im.p.comps|)| == 1
  {
    hide IsNaturalOrder, McuRows, PerRow;
    NextParameters(|im.p.comps|, before, s);
    var comps := CompsOf(s, |im.p.comps|);
    forall i | 0 <= i < |comps|
      ensures Sized(im.p.comps[comps[i]], im.p.total, im.p.across)
    {
      assert comps[i] < |im.p.comps|;
    }
    assert McuStream.ValidScan(im.p, comps);
    CoefBlocks.RowsThere(im.p, comps, 0);
  }

  /** Which component each block of an MCU belongs to, by its number in the scan. */
  function Membership(p: Picture, comps: seq<nat>, n: nat): (m: seq<nat>)
    requires n <= |comps| && Known(p, comps)
    ensures forall b :: 0 <= b < |m| ==> m[b] < n
  {
    if n == 0 then []
    else Membership(p, comps, n - 1) + seq(Area(CompAt(p, comps, n - 1), |comps| == 1), _ => n - 1)
  }

  lemma {:induction false} MembershipLength(p: Picture, comps: seq<nat>, n: nat)
    requires n <= |comps| && Known(p, comps)
    ensures |Membership(p, comps, n)| == Blocks(p, comps, n)
  {
    if n > 0 {
      MembershipLength(p, comps, n - 1);
    }
  }

  predicate AllOfSize(mcus: seq<seq<Block>>, size: nat) {
    forall i :: 0 <= i < |mcus| ==> |mcus[i]| == size
  }

  lemma {:induction false} LineSizes(p: Picture, comps: seq<nat>, r: nat, y: nat, n: nat)
    requires ForStream(p, comps)
    ensures AllOfSize(LineUpTo(p, comps, r, y, n), |Membership(p, comps, |comps|)|)
  {
    hide Mcu, Membership;
    if n > 0 {
      LineSizes(p, comps, r, y, n - 1);
      McuLength(p, comps, r, y, n - 1, |comps|);
      MembershipLength(p, comps, |comps|);
    }
  }

  lemma {:induction false} RowSizes(p: Picture, comps: seq<nat>, r: nat, y: nat)
    requires ForStream(p, comps)
    ensures AllOfSize(RowUpTo(p, comps, r, y), |Membership(p, comps, |comps|)|)
  {
    hide LineUpTo, Membership, PerRow;
    if y > 0 {
      RowSizes(p, comps, r, y - 1);
      LineSizes(p, comps, r, y - 1, PerRow(p, comps));
    }
  }

  lemma {:induction false} StreamSizes(p: Picture, comps: seq<nat>, r: nat)
    requires ForStream(p, comps)
    ensures AllOfSize(StreamUpTo(p, comps, r), |Membership(p, comps, |comps|)|)
  {
    hide RowUpTo, Membership, McuRows;
    if r > 0 {
      StreamSizes(p, comps, r - 1);
      RowSizes(p, comps, r - 1, McuRows(p, comps, r - 1));
    }
  }

  /** The scan as the DC coders take it. */
  function DcScan(im: Image, comps: seq<nat>): (scan: HuffBlocks.Scan)
    requires Known(im.p, comps) && |im.slots| == |im.p.comps| && |im.order| >= DCTSIZE2
  {
    HuffBlocks.Scan(seq(|comps|, i requires 0 <= i < |comps| => im.slots[comps[i]]), Membership(im.p, comps, |comps|),
      0, im.order[..DCTSIZE2], im.precision)
  }

  lemma DcScanFits(im: Image, comps: seq<nat>, books: Books)
    requires IsScan(im, comps) && Suits(im, books)
    ensures Known(im.p, comps) && |im.order| >= DCTSIZE2 && IsDcScan(DcScan(im, comps), books)
    ensures HuffRoundTrip.AreMcus(DcScan(im, comps), Stream(im.p, comps))
  {
    hide Membership, StreamUpTo, McuRows, PerRow;
    StreamSizes(im.p, comps, im.p.total);
  }

  /** The blocks of a component that is alone in its scan. */
  function AloneBlocks(p: Picture, comps: seq<nat>): (blocks: seq<Block>)
    requires ForStream(p, comps)
    ensures |blocks| == |Stream(p, comps)|
  {
    seq(|Stream(p, comps)|, q requires 0 <= q < |Stream(p, comps)| => FirstOf(Stream(p, comps)[q]))
  }

  function FirstOf(mcu: seq<Block>): Block {
    if mcu == [] then Zero() else mcu[0]
  }

  // ---------------------------------------------------------------------------------------------
  // The decoder's coefficient arrays
  // ---------------------------------------------------------------------------------------------

  type Held = map<Place, seq<Coef>>

  /** What is held for a place; at first, and for dummy blocks always, that is zeros. */
  function At(cur: Held, pl: Place): seq<Coef> {
    if pl in cur then cur[pl] else seq(DCTSIZE2, _ => 0)
  }

  predicate IsHeld(cur: Held) {
    Dropped !in cur && forall pl :: pl in cur ==> |cur[pl]| == DCTSIZE2
  }

  /** For every real block of the picture the decoder holds what the scans have sent of it. */
  ghost predicate ImageSent(im: Image, scans: seq<Scripts.Scan>, cur: Held)
    requires ValidImage(im)
  {
    && IsHeld(cur)
    && forall pl: Place :: IsReal(im.p, pl) ==> BlockSent(im.order, scans, pl.ci, At(cur, pl), BlockOf(im.p, pl))
  }

  /** What is held for the blocks of MCUs. */
  function Gathered(cur: Held, places: seq<seq<Place>>): (was: seq<seq<seq<Coef>>>)
    requires IsHeld(cur)
    ensures |was| == |places|
    ensures forall i :: 0 <= i < |was| ==> |was[i]| == |places[i]|
    ensures forall i, n :: 0 <= i < |was| && 0 <= n < |was[i]| ==>
      |was[i][n]| == DCTSIZE2 && was[i][n] == At(cur, places[i][n])
  {
    seq(|places|, i requires 0 <= i < |places| =>
      seq(|places[i]|, n requires 0 <= n < |places[i]| => At(cur, places[i][n])))
  }

  /** Stores the blocks of MCUs; good is what they are to be in their places. */
  method Scatter(cur: Held, places: seq<seq<Place>>, now: seq<seq<seq<Coef>>>, ghost good: (Place, seq<Coef>) -> bool)
    returns (next: Held)
    requires IsHeld(cur) && |now| == |places|
    requires forall i :: 0 <= i < |now| ==> |now[i]| == |places[i]| && AllGood(places[i], now[i], good)
    ensures IsHeld(next)
    ensures forall pl: Place :: if Named(places, pl) && pl.Kept? then good(pl, At(next, pl))
      else At(next, pl) == At(cur, pl)
  {
    hide AllGood;
    next := cur;
    for i := 0 to |places|
      invariant IsHeld(next)
      invariant forall pl: Place ::
        if Named(places[..i], pl) && pl.Kept? then good(pl, At(next, pl)) else At(next, pl) == At(cur, pl)
    {
      ghost var before := next;
      next := ScatterMcu(next, places[i], now[i], good);
      forall pl: Place
        ensures if Named(places[..i + 1], pl) && pl.Kept? then good(pl, At(next, pl)) else At(next, pl) == At(cur, pl)
      {
        NamedNext(places, i, pl);
      }
    }
    assert places[..|places|] == places;
  }

  predicate AllGood(places: seq<Place>, now: seq<seq<Coef>>, good: (Place, seq<Coef>) -> bool) {
    && |places| == |now|
    && forall n :: 0 <= n < |now| && places[n].Kept? ==> |now[n]| == DCTSIZE2 && good(places[n], now[n])
  }

  lemma NamedNext(places: seq<seq<Place>>, i: nat, pl: Place)
    requires i < |places|
    ensures Named(places[..i + 1], pl) <==> Named(places[..i], pl) || pl in places[i]
  {
    if Named(places[..i], pl) {
      var j :| 0 <= j < i && pl in places[..i][j];
      assert pl in places[..i + 1][j];
    }
    if pl in places[i] {
      assert pl in places[..i + 1][i];
    }
    if Named(places[..i + 1], pl) && pl !in places[i] {
      var j :| 0 <= j < i + 1 && pl in places[..i + 1][j];
      assert pl in places[..i][j];
    }
  }

  method ScatterMcu(cur: Held, places: seq<Place>, now: seq<seq<Coef>>, ghost good: (Place, seq<Coef>) -> bool)
    returns (next: Held)
    requires IsHeld(cur) && AllGood(places, now, good)
    ensures IsHeld(next)
    ensures forall pl: Place :: if pl in places && pl.Kept? then good(pl, At(next, pl)) else At(next, pl) == At(cur, pl)
  {
    next := cur;
    for n := 0 to |places|
      invariant IsHeld(next)
      invariant forall pl: Place :: if pl in places[..n] && pl.Kept? then good(pl, At(next, pl))
        else At(next, pl) == At(cur, pl)
    {
      if places[n].Kept? {
        next := next[places[n] := now[n]];
      }
      assert places[..n + 1] == places[..n] + [places[n]];
    }
    assert places[..|places|] == places;
  }

  /** Stored in the places of a scan, blocks with its bits in them complete what has been sent. */
  lemma AllPlacesSent(im: Image, before: seq<Scripts.Scan>, s: Scripts.Scan, cur: Held, next: Held)
    requires ValidImage(im) && IsNext(|im.p.comps|, before, s) && ImageSent(im, before, cur) && IsHeld(next)
    requires Scripts.ComponentsOk(s, |im.p.comps|) && IsScan(im, CompsOf(s, |im.p.comps|))
    requires var places := Places(im.p, CompsOf(s, |im.p.comps|));
             forall pl: Place :: if Named(places, pl) && pl.Kept? then IsGood(im, before + [s], pl, At(next, pl))
                                 else At(next, pl) == At(cur, pl)
    ensures ImageSent(im, before + [s], next)
  {
    hide IsNaturalOrder, IsNext, BlockSent, Named, Places, At, McuRows, PerRow, IsHeld;
    var n, comps := |im.p.comps|, CompsOf(s, |im.p.comps|);
    forall pl: Place | IsReal(im.p, pl)
      ensures BlockSent(im.order, before + [s], pl.ci, At(next, pl), BlockOf(im.p, pl))
    {
      CompsAreSent(s, n, pl.ci);
      if pl.ci in comps {
        var k: nat :| k < |comps| && comps[k] == pl.ci;
        Covered(im.p, comps, k, pl);
      } else {
        assert BlockSent(im.order, before, pl.ci, At(cur, pl), BlockOf(im.p, pl));
        if Named(Places(im.p, comps), pl) {
          NamedIsSent(im, comps, pl);
          assert false;
        }
        NotSent(n, im.order, before, s, pl.ci, At(cur, pl), BlockOf(im.p, pl));
      }
    }
  }

  /** What a decoded block is to be. */
  ghost predicate IsGood(im: Image, scans: seq<Scripts.Scan>, pl: Place, c: seq<Coef>)
    requires ValidImage(im)
  {
    IsReal(im.p, pl) && BlockSent(im.order, scans, pl.ci, c, BlockOf(im.p, pl))
  }

  lemma NamedIsSent(im: Image, comps: seq<nat>, pl: Place)
    requires IsScan(im, comps) && Named(Places(im.p, comps), pl) && pl.Kept?
    ensures pl.ci in comps
  {
    hide Places, Stream, McuRows, PerRow, IsNaturalOrder;
    AllPlacesMatch(im, comps);
    var places := Places(im.p, comps);
    var i :| 0 <= i < |places| && pl in places[i];
    var n :| 0 <= n < |places[i]| && places[i][n] == pl;
    assert Match(im.p, comps, places[i], Stream(im.p, comps)[i]);
  }

  lemma AllPlacesMatch(im: Image, comps: seq<nat>)
    requires IsScan(im, comps)
    ensures AllMatch(im.p, comps, Places(im.p, comps), Stream(im.p, comps))
  {
    StreamMatches(im.p, comps, im.p.total);
  }

  // ---------------------------------------------------------------------------------------------
  // DC scans
  // ---------------------------------------------------------------------------------------------

  /** An interleaved scan has no more blocks in an MCU than allowed. */
  predicate SmallMcus(p: Picture, comps: seq<nat>)
    requires Known(p, comps)
  {
    |comps| == 1 || Blocks(p, comps, |comps|) <= MAX_BLOCKS_IN_MCU
  }

  /**
   * The tables have codes for all that the scan sends, no coefficient of it is too large, and no MCU has too many
   * blocks.
   */
  ghost predicate CanSend(im: Image, before: seq<Scripts.Scan>, s: Scripts.Scan, books: Books)
    requires ValidImage(im) && IsNext(|im.p.comps|, before, s) && Suits(im, books)
  {
    ScanFits(im, before, s);
    NextParameters(|im.p.comps|, before, s);
    var comps := CompsOf(s, |im.p.comps|);
    if s.ss == 0 then
      DcScanFits(im, comps, books);
      && SmallMcus(im.p, comps)
      && (s.ah == 0 ==> AllCoded(books, DcRoundTrip.FirstTokens(DcScan(im, comps), books, s.al, Stream(im.p, comps))))
    else
      BandFits(|im.p.comps|, im.order, before, s);
      TableFits(im, books, comps[0]);
      if s.ah == 0 then
        AllCoded(OneBook(AcTable(im, books, comps[0])),
                 AcFirst.Tokens(BandOf(im.order, s), im.precision + 3, AloneBlocks(im.p, comps), 0))
      else
        AllCoded(OneBook(AcTable(im, books, comps[0])),
          RefineEncoder.RefineTokens(BandOf(im.order, s), AloneBlocks(im.p, comps)))
  }

  function AcTable(im: Image, books: Books, ci: nat): Table
    requires Suits(im, books) && ci < |im.slots|
  {
    books.ac[im.slots[ci].acTbl]
  }

  lemma TableFits(im: Image, books: Books, ci: nat)
    requires Suits(im, books) && ci < |im.slots|
    ensures ProperTable(AcTable(im, books, ci), false) && Proper(OneBook(AcTable(im, books, ci)))
  {
    hide ProperTable;
    RefineRoundTrip.BookIsProper(AcTable(im, books, ci));
  }

  /** Codes and decodes a DC scan. */
  method CodeDc(im: Image, ghost before: seq<Scripts.Scan>, s: Scripts.Scan, books: Books, cur: Held)
    returns (ok: bool, next: Held)
    requires ValidImage(im) && IsNext(|im.p.comps|, before, s) && s.ss == 0 && Suits(im, books)
    requires ImageSent(im, before, cur)
    ensures ok <==> CanSend(im, before, s, books)
    ensures ok ==> ImageSent(im, before + [s], next)
  {
    hide IsNext, BlockSent, AllCoded, DcRoundTrip.FirstTokens, DcAt, Entered, Suits, IsDcScan, IsNaturalOrder, Stream,
      Places, Membership, AllMatch, McuRows, PerRow, Named;
    ScanFits(im, before, s);
    NextParameters(|im.p.comps|, before, s);
    var comps := CompsOf(s, |im.p.comps|);
    DcScanFits(im, comps, books);
    SuitsMeans(im, books);
    next := cur;
    var g;
    ok, g := PerScanSetup(im.p, comps);
    if !ok {
      return;
    }
    var mcus, places := Stream(im.p, comps), Places(im.p, comps);
    AllPlacesMatch(im, comps);
    var was := Gathered(cur, places);
    GatheredShaped(im, comps, was, places, mcus);
    var now, insufficient;
    if s.ah == 0 {
      var badCodes;
      ok, now, insufficient, badCodes :=
        DcRoundTrip.RoundTripFirst(DcScan(im, comps), s.al, books, mcus, was, 0xD9, []);
      if !ok {
        return;
      }
      FirstGood(im, before, s, cur, places, mcus, was, now);
    } else {
      now, insufficient := DcRoundTrip.RoundTripRefine(s.al, mcus, was, 0xD9, []);
      RefineGood(im, before, s, cur, places, mcus, was, now);
    }
    next := Scatter(cur, places, now, (pl, c) => IsGood(im, before + [s], pl, c));
    AllPlacesSent(im, before, s, cur, next);
  }

  lemma SuitsMeans(im: Image, books: Books)
    requires Suits(im, books)
    ensures Proper(books)
  {
  }

  lemma GatheredShaped(im: Image, comps: seq<nat>, was: seq<seq<seq<Coef>>>, places: seq<seq<Place>>,
      mcus: seq<seq<Block>>)
    requires AllMatch(im.p, comps, places, mcus) && |was| == |places|
    requires forall i :: 0 <= i < |was| ==> |was[i]| == |places[i]|
    requires forall i, n :: 0 <= i < |was| && 0 <= n < |was[i]| ==> |was[i][n]| == DCTSIZE2
    ensures DcRoundTrip.Shaped(was, mcus)
  {
    forall i | 0 <= i < |was|
      ensures |was[i]| == |mcus[i]|
    {
      assert Match(im.p, comps, places[i], mcus[i]);
    }
  }

  lemma FirstGood(im: Image, before: seq<Scripts.Scan>, s: Scripts.Scan, cur: Held, places: seq<seq<Place>>,
                  mcus: seq<seq<Block>>, was: seq<seq<seq<Coef>>>, now: seq<seq<seq<Coef>>>)
    requires ValidImage(im) && IsNext(|im.p.comps|, before, s) && s.ss == 0 && ImageSent(im, before, cur)
    requires Scripts.ComponentsOk(s, |im.p.comps|) && AllMatch(im.p, CompsOf(s, |im.p.comps|), places, mcus)
    requires was == Gathered(cur, places) && 0 <= s.al <= MAX_AL && DcRoundTrip.AllDcDone(was, now, mcus, s.al)
    ensures |now| == |places| && forall i :: 0 <= i < |now| ==>
              |now[i]| == |places[i]| && AllGood(places[i], now[i], (pl, c) => IsGood(im, before + [s], pl, c))
  {
    hide IsNaturalOrder, IsNext, BlockSent, DcAt, At, IsHeld;
    var n, comps := |im.p.comps|, CompsOf(s, |im.p.comps|);
    forall i, m | 0 <= i < |places| && 0 <= m < |places[i]| && places[i][m].Kept?
      ensures DcRoundTrip.DcDone(was[i], now[i], DcsAt(mcus[i], s.al)) && |now[i]| == |places[i]|
      ensures |now[i][m]| == DCTSIZE2 && IsGood(im, before + [s], places[i][m], now[i][m])
    {
      assert Match(im.p, comps, places[i], mcus[i]);
      var pl := places[i][m];
      CompsAreSent(s, n, pl.ci);
      DcStep(n, im.order, before, s, pl.ci, At(cur, pl), BlockOf(im.p, pl));
    }
    forall i | 0 <= i < |now|
      ensures |now[i]| == |places[i]|
    {
      assert Match(im.p, comps, places[i], mcus[i]);
    }
  }

  lemma RefineGood(im: Image, before: seq<Scripts.Scan>, s: Scripts.Scan, cur: Held, places: seq<seq<Place>>,
                   mcus: seq<seq<Block>>, was: seq<seq<seq<Coef>>>, now: seq<seq<seq<Coef>>>)
    requires ValidImage(im) && IsNext(|im.p.comps|, before, s) && s.ss == 0 && s.ah > 0 && ImageSent(im, before, cur)
    requires Scripts.ComponentsOk(s, |im.p.comps|) && AllMatch(im.p, CompsOf(s, |im.p.comps|), places, mcus)
    requires was == Gathered(cur, places) && 0 <= s.al <= MAX_AL && DcRoundTrip.Shaped(was, mcus)
    requires DcRoundTrip.AllDcEntered(was, now, mcus, s.al)
    ensures |now| == |places| && forall i :: 0 <= i < |now| ==>
              |now[i]| == |places[i]| && AllGood(places[i], now[i], (pl, c) => IsGood(im, before + [s], pl, c))
  {
    hide IsNaturalOrder, IsNext, BlockSent, Entered, At, IsHeld;
    var n, comps := |im.p.comps|, CompsOf(s, |im.p.comps|);
    forall i, m | 0 <= i < |places| && 0 <= m < |places[i]| && places[i][m].Kept?
      ensures DcRoundTrip.DcDone(was[i], now[i], DcsEntered(was[i], mcus[i], s.al)) && |now[i]| == |places[i]|
      ensures |now[i][m]| == DCTSIZE2 && IsGood(im, before + [s], places[i][m], now[i][m])
    {
      assert Match(im.p, comps, places[i], mcus[i]);
      var pl := places[i][m];
      CompsAreSent(s, n, pl.ci);
      DcRefineStep(n, im.order, before, s, pl.ci, At(cur, pl), BlockOf(im.p, pl));
    }
    forall i | 0 <= i < |now|
      ensures |now[i]| == |places[i]|
    {
      assert Match(im.p, comps, places[i], mcus[i]);
    }
  }

  // ---------------------------------------------------------------------------------------------
  // AC scans
  // ---------------------------------------------------------------------------------------------

  /** What is held for the blocks of the only component of a scan. */
  function GatheredAlone(cur: Held, places: seq<seq<Place>>): (was: seq<seq<Coef>>)
    requires IsHeld(cur) && forall i :: 0 <= i < |places| ==> |places[i]| == 1
    ensures |was| == |places|
    ensures forall i :: 0 <= i < |was| ==> was[i] == At(cur, places[i][0]) && |was[i]| == DCTSIZE2
  {
    seq(|places|, i requires 0 <= i < |places| => At(cur, places[i][0]))
  }

  /** A component alone in its scan has one block in each MCU, and that is a real one. */
  lemma AloneIsReal(im: Image, comps: seq<nat>)
    requires IsScan(im, comps) && |comps| == 1
    ensures var places := Places(im.p, comps);
            && |places| == |AloneBlocks(im.p, comps)|
            && forall i :: 0 <= i < |places| ==>
                 && |places[i]| == 1 && IsReal(im.p, places[i][0]) && places[i][0].ci == comps[0]
                 && AloneBlocks(im.p, comps)[i] == BlockOf(im.p, places[i][0])
  {
    hide Membership, StreamUpTo, PlacesUpTo, McuRows, PerRow, IsNaturalOrder;
    var places, mcus := Places(im.p, comps), Stream(im.p, comps);
    AllPlacesMatch(im, comps);
    StreamSizes(im.p, comps, im.p.total);
    MembershipLength(im.p, comps, 1);
    AreaAlone(im.p, comps);
    AllKept(im.p, comps);
    forall i | 0 <= i < |places|
      ensures |places[i]| == 1 && IsReal(im.p, places[i][0]) && places[i][0].ci == comps[0]
      ensures AloneBlocks(im.p, comps)[i] == BlockOf(im.p, places[i][0])
    {
      assert Match(im.p, comps, places[i], mcus[i]);
    }
  }

  lemma AreaAlone(p: Picture, comps: seq<nat>)
    requires Known(p, comps) && |comps| == 1
    ensures Blocks(p, comps, 1) == 1
  {
    assert Blocks(p, comps, 0) == 0;
  }

  predicate NoneDropped(places: seq<seq<Place>>) {
    forall i, n :: 0 <= i < |places| && 0 <= n < |places[i]| ==> places[i][n].Kept?
  }

  lemma {:induction false} LineKept(p: Picture, comps: seq<nat>, r: nat, y: nat, n: nat)
    requires ForStream(p, comps) && |comps| == 1
    ensures NoneDropped(PlacesInLine(p, comps, r, y, n))
  {
    hide McuPlaces;
    if n > 0 {
      LineKept(p, comps, r, y, n - 1);
      McuKept(p, comps, r, y, n - 1);
    }
  }

  lemma McuKept(p: Picture, comps: seq<nat>, r: nat, y: nat, col: nat)
    requires ForStream(p, comps) && |comps| == 1
    ensures forall n :: 0 <= n < |McuPlaces(p, comps, r, y, col, 1)| ==> McuPlaces(p, comps, r, y, col, 1)[n].Kept?
  {
    var c := CompAt(p, comps, 0);
    assert CompPlaces(c, comps[0], true, StartRow(c, r, y), col, 0) == [];
    assert McuPlaces(p, comps, r, y, col, 0) == [];
  }

  lemma {:induction false} RowKept(p: Picture, comps: seq<nat>, r: nat, y: nat)
    requires ForStream(p, comps) && |comps| == 1
    ensures NoneDropped(PlacesInRow(p, comps, r, y))
  {
    hide PlacesInLine, PerRow;
    if y > 0 {
      RowKept(p, comps, r, y - 1);
      LineKept(p, comps, r, y - 1, PerRow(p, comps));
    }
  }

  lemma {:induction false} PlacesKept(p: Picture, comps: seq<nat>, r: nat)
    requires ForStream(p, comps) && |comps| == 1
    ensures NoneDropped(PlacesUpTo(p, comps, r))
  {
    hide PlacesInRow, McuRows;
    if r > 0 {
      PlacesKept(p, comps, r - 1);
      RowKept(p, comps, r - 1, McuRows(p, comps, r - 1));
    }
  }

  lemma AllKept(p: Picture, comps: seq<nat>)
    requires ForStream(p, comps) && |comps| == 1
    ensures NoneDropped(Places(p, comps))
  {
    PlacesKept(p, comps, p.total);
  }

  /** Blocks of one component as the scans before have left them. */
  ghost predicate ListSent(im: Image, scans: seq<Scripts.Scan>, ci: nat, cur: seq<seq<Coef>>, blocks: seq<Block>)
    requires ValidImage(im)
  {
    |cur| == |blocks| && forall i :: 0 <= i < |cur| ==> BlockSent(im.order, scans, ci, cur[i], blocks[i])
  }

  lemma ListLengths(im: Image, scans: seq<Scripts.Scan>, ci: nat, cur: seq<seq<Coef>>, blocks: seq<Block>)
    requires ValidImage(im) && ListSent(im, scans, ci, cur, blocks)
    ensures |cur| == |blocks| && forall i :: 0 <= i < |cur| ==> |cur[i]| == DCTSIZE2
  {
  }

  /** Codes and decodes an AC scan of component ci, in arrays. */
  method CodeList(im: Image, ghost before: seq<Scripts.Scan>, s: Scripts.Scan, t: Table, ghost ci: nat,
      blocks: seq<Block>, cur: seq<seq<Coef>>, serve: nat -> seq<int>)
    returns (ok: bool, next: seq<seq<Coef>>)
    requires ValidImage(im) && IsNext(|im.p.comps|, before, s) && s.ss > 0 && Scripts.Sends(s, ci)
    requires 0 <= s.se && 0 <= s.al && IsBand(BandOf(im.order, s)) && ProperTable(t, false) && Proper(OneBook(t))
    requires ListSent(im, before, ci, cur, blocks) && forall i :: RefineRoundTrip.Served(serve(i))
    ensures ok <==> if s.ah == 0
      then AllCoded(OneBook(t), AcFirst.Tokens(BandOf(im.order, s), im.precision + 3, blocks, 0))
                    else AllCoded(OneBook(t), RefineEncoder.RefineTokens(BandOf(im.order, s), blocks))
    ensures ok ==> ListSent(im, before + [s], ci, next, blocks)
  {
    hide IsNext, BlockSent, AllCoded, AcFirst.Tokens, RefineEncoder.RefineTokens, Proper, IsNaturalOrder, Partly,
      SameElsewhere, Progress, IsBand, ProperTable, Scripts.Sends, RefineRoundTrip.Served;
    NextParameters(|im.p.comps|, before, s);
    ListLengths(im, before, ci, cur, blocks);
    var blks := BlocksOf(cur);
    var band := BandOf(im.order, s);
    var insufficient;
    if s.ah == 0 {
      FirstReady(im, before, s, ci, cur, blocks);
      var badCodes;
      ok, insufficient, badCodes := AcFirstRoundTrip.RoundTripFirst(band, im.precision + 3, t, blocks, blks, 0xD9, []);
      next := Contents(blks);
      if ok {
        FirstDone(im, before, s, ci, cur, next, blocks);
      }
    } else {
      RefineReady(im, before, s, ci, cur, blocks);
      var schedules := seq(|blocks|, i requires 0 <= i < |blocks| => serve(i));
      ok, insufficient := RefineRoundTrip.RoundTripRefinement(band, t, blocks, blks, schedules, 0xD9, []);
      next := Contents(blks);
      if ok {
        RefineDone(im, before, s, ci, cur, next, blocks);
      }
    }
  }

  lemma FirstReady(im: Image, before: seq<Scripts.Scan>, s: Scripts.Scan, ci: nat, cur: seq<seq<Coef>>,
      blocks: seq<Block>)
    requires ValidImage(im) && IsNext(|im.p.comps|, before, s) && s.ss > 0 && s.ah == 0 && Scripts.Sends(s, ci)
    requires ListSent(im, before, ci, cur, blocks)
    ensures 0 <= s.se && 0 <= s.al && IsBand(BandOf(im.order, s))
    ensures AcFirstRoundTrip.FirstUpTo(BandOf(im.order, s), cur, cur, blocks, 0)
  {
    hide IsNext, BlockSent, IsNaturalOrder, Partly, SameElsewhere, IsBand, Scripts.Sends;
    BandFits(|im.p.comps|, im.order, before, s);
    forall i | 0 <= i < |cur|
      ensures Partly(BandOf(im.order, s), cur[i], blocks[i], s.ss) && SameElsewhere(BandOf(im.order, s), cur[i], cur[i])
    {
      FirstStart(|im.p.comps|, im.order, before, s, ci, cur[i], blocks[i]);
    }
  }

  lemma FirstDone(im: Image, before: seq<Scripts.Scan>, s: Scripts.Scan, ci: nat, cur: seq<seq<Coef>>,
      next: seq<seq<Coef>>, blocks: seq<Block>)
    requires ValidImage(im) && IsNext(|im.p.comps|, before, s) && s.ss > 0 && s.se >= 0 && s.al >= 0
      && Scripts.Sends(s, ci)
    requires ListSent(im, before, ci, cur, blocks)
    requires IsBand(BandOf(im.order, s)) && AcFirstRoundTrip.FirstUpTo(BandOf(im.order, s), next, cur, blocks, |blocks|)
    ensures ListSent(im, before + [s], ci, next, blocks)
  {
    hide IsNext, BlockSent, IsNaturalOrder, Partly, SameElsewhere, IsBand, Scripts.Sends;
    forall i | 0 <= i < |next|
      ensures BlockSent(im.order, before + [s], ci, next[i], blocks[i])
    {
      FirstEnd(|im.p.comps|, im.order, before, s, ci, cur[i], next[i], blocks[i]);
    }
  }

  lemma RefineReady(im: Image, before: seq<Scripts.Scan>, s: Scripts.Scan, ci: nat, cur: seq<seq<Coef>>,
      blocks: seq<Block>)
    requires ValidImage(im) && IsNext(|im.p.comps|, before, s) && s.ss > 0 && s.ah > 0 && Scripts.Sends(s, ci)
    requires ListSent(im, before, ci, cur, blocks)
    ensures 0 <= s.se && 0 <= s.al && IsBand(BandOf(im.order, s))
    ensures RefineRoundTrip.UpTo(BandOf(im.order, s), cur, cur, blocks, 0)
  {
    hide IsNext, BlockSent, IsNaturalOrder, Progress, IsBand, Scripts.Sends;
    BandFits(|im.p.comps|, im.order, before, s);
    forall i | 0 <= i < |cur|
      ensures Progress(BandOf(im.order, s), cur[i], cur[i], blocks[i], s.ss)
    {
      RefineStart(|im.p.comps|, im.order, before, s, ci, cur[i], blocks[i]);
    }
  }

  lemma RefineDone(im: Image, before: seq<Scripts.Scan>, s: Scripts.Scan, ci: nat, cur: seq<seq<Coef>>,
      next: seq<seq<Coef>>, blocks: seq<Block>)
    requires ValidImage(im) && IsNext(|im.p.comps|, before, s) && s.ss > 0 && s.se >= 0 && s.al >= 0
      && Scripts.Sends(s, ci)
    requires ListSent(im, before, ci, cur, blocks)
    requires IsBand(BandOf(im.order, s)) && RefineRoundTrip.UpTo(BandOf(im.order, s), next, cur, blocks, |blocks|)
    ensures ListSent(im, before + [s], ci, next, blocks)
  {
    hide IsNext, BlockSent, IsNaturalOrder, Progress, IsBand, Scripts.Sends;
    forall i | 0 <= i < |next|
      ensures BlockSent(im.order, before + [s], ci, next[i], blocks[i])
    {
      RefineEnd(|im.p.comps|, im.order, before, s, ci, cur[i], next[i], blocks[i]);
    }
  }

  /** Codes and decodes an AC scan. */
  method CodeAc(im: Image, ghost before: seq<Scripts.Scan>, s: Scripts.Scan, books: Books, cur: Held,
      serve: nat -> seq<int>)
    returns (ok: bool, next: Held)
    requires ValidImage(im) && IsNext(|im.p.comps|, before, s) && s.ss > 0 && Suits(im, books)
    requires ImageSent(im, before, cur) && forall i :: RefineRoundTrip.Served(serve(i))
    ensures ok <==> CanSend(im, before, s, books)
    ensures ok ==> ImageSent(im, before + [s], next)
  {
    hide IsNext, BlockSent, AllCoded, AcFirst.Tokens, RefineEncoder.RefineTokens, Suits, IsNaturalOrder, Stream, Places,
      Proper, McuRows, PerRow, Named, ProperTable, IsBand, RefineRoundTrip.Served, ListSent;
    ScanFits(im, before, s);
    BandFits(|im.p.comps|, im.order, before, s);
    var comps := CompsOf(s, |im.p.comps|);
    TableFits(im, books, comps[0]);
    AloneIsReal(im, comps);
    CompsAreSent(s, |im.p.comps|, comps[0]);
    var blocks, places := AloneBlocks(im.p, comps), Places(im.p, comps);
    var was := GatheredAlone(cur, places);
    WasSent(im, before, cur, comps);
    var list;
    ok, list := CodeList(im, before, s, AcTable(im, books, comps[0]), comps[0], blocks, was, serve);
    next := cur;
    if !ok {
      return;
    }
    var now := seq(|list|, i requires 0 <= i < |list| => [list[i]]);
    ListGood(im, before + [s], comps, list, now);
    next := Scatter(cur, places, now, (pl, c) => IsGood(im, before + [s], pl, c));
    AllPlacesSent(im, before, s, cur, next);
  }

  lemma WasSent(im: Image, before: seq<Scripts.Scan>, cur: Held, comps: seq<nat>)
    requires IsScan(im, comps) && |comps| == 1 && ImageSent(im, before, cur)
    requires forall i :: 0 <= i < |Places(im.p, comps)| ==> |Places(im.p, comps)[i]| == 1
    ensures ListSent(im, before, comps[0], GatheredAlone(cur, Places(im.p, comps)), AloneBlocks(im.p, comps))
  {
    hide BlockSent, IsNaturalOrder, Stream, Places, McuRows, PerRow;
    AloneIsReal(im, comps);
  }

  lemma ListGood(im: Image, scans: seq<Scripts.Scan>, comps: seq<nat>, list: seq<seq<Coef>>, now: seq<seq<seq<Coef>>>)
    requires IsScan(im, comps) && |comps| == 1 && ListSent(im, scans, comps[0], list, AloneBlocks(im.p, comps))
    requires |now| == |list| && forall i :: 0 <= i < |now| ==> now[i] == [list[i]]
    ensures var places := Places(im.p, comps);
            |now| == |places| && forall i :: 0 <= i < |now| ==>
              |now[i]| == |places[i]| && AllGood(places[i], now[i], (pl, c) => IsGood(im, scans, pl, c))
  {
    hide BlockSent, IsNaturalOrder, Stream, Places, McuRows, PerRow;
    AloneIsReal(im, comps);
    ListLengths(im, scans, comps[0], list, AloneBlocks(im.p, comps));
  }

  // ---------------------------------------------------------------------------------------------
  // Whole images
  // ---------------------------------------------------------------------------------------------

  lemma EachIsNext(n: nat, script: seq<Scripts.Scan>, j: nat)
    requires Scripts.ValidScript(script, n, MAX_AL) && Scripts.Progressive(script) && j < |script|
    ensures IsNext(n, script[..j], script[j])
  {
    hide Scripts.ProgressiveOk;
    assert Scripts.ScanOk(true, script[..j], script[j], n, MAX_AL);
    forall i | 0 <= i < j
      ensures Scripts.ScanOk(true, script[..j][..i], script[..j][i], n, MAX_AL)
    {
      assert script[..j][..i] == script[..i];
      assert Scripts.ScanOk(true, script[..i], script[i], n, MAX_AL);
    }
  }

  /** A progressive script for the components of the image. */
  ghost predicate ScriptFor(im: Image, script: seq<Scripts.Scan>) {
    ValidImage(im) && Scripts.ValidScript(script, |im.p.comps|, MAX_AL) && Scripts.Progressive(script)
  }

  lemma EachScanNext(im: Image, script: seq<Scripts.Scan>, j: nat)
    requires ScriptFor(im, script) && j < |script|
    ensures ValidImage(im) && IsNext(|im.p.comps|, script[..j], script[j])
  {
    EachIsNext(|im.p.comps|, script, j);
  }

  /** Every scan of the script can be sent with its tables. */
  ghost predicate AllCanSend(im: Image, script: seq<Scripts.Scan>, tables: seq<Books>)
    requires ScriptFor(im, script) && |tables| == |script| && forall j :: 0 <= j < |tables| ==> Suits(im, tables[j])
  {
    forall j :: 0 <= j < |script| ==> (EachScanNext(im, script, j); CanSend(im, script[..j], script[j], tables[j]))
  }

  /**
   * For every picture of any number of components, every valid progressive script and all tables: the scans, encoded
   * and decoded one after the other, give each coefficient of each real block with the bits that the script sends of
   * it. Encoding fails exactly if an interleaved MCU has too many blocks, a coefficient of some scan is too large, or a
   * table lacks a symbol. serve(j, i) is the schedule of suspensions under which block i of scan j is refined.
   */
  method CodeImage(im: Image, script: seq<Scripts.Scan>, tables: seq<Books>, serve: (nat, nat) -> seq<int>)
    returns (ok: bool, out: Held)
    requires ScriptFor(im, script) && |tables| == |script| && forall j :: 0 <= j < |tables| ==> Suits(im, tables[j])
    requires forall j, i :: RefineRoundTrip.Served(serve(j, i))
    ensures ok <==> AllCanSend(im, script, tables)
    ensures ok ==> ImageSent(im, script, out)
  {
    hide ValidImage, ScriptFor, IsNext, ImageSent, CanSend, Suits, RefineRoundTrip.Served;
    StartsEmpty(im, script);
    out := map[];
    assert script[..0] == [];
    var j: nat := 0;
    while j < |script|
      invariant j <= |script| && ValidImage(im) && ImageSent(im, script[..j], out)
      invariant forall i :: 0 <= i < j ==> (EachScanNext(im, script, i); CanSend(im, script[..i], script[i], tables[i]))
    {
      EachScanNext(im, script, j);
      NextParameters(|im.p.comps|, script[..j], script[j]);
      if script[j].ss == 0 {
        ok, out := CodeDc(im, script[..j], script[j], tables[j], out);
      } else {
        var now: nat := j;
        ok, out := CodeAc(im, script[..j], script[j], tables[j], out, (i: nat) => serve(now, i));
      }
      if !ok {
        return;
      }
      assert script[..j + 1] == script[..j] + [script[j]];
      j := j + 1;
    }
    assert script[..j] == script;
    ok := true;
  }

  lemma StartsEmpty(im: Image, script: seq<Scripts.Scan>)
    requires ScriptFor(im, script)
    ensures ValidImage(im) && ImageSent(im, [], map[])
  {
    hide BlockSent, IsNaturalOrder;
    forall pl: Place | IsReal(im.p, pl)
      ensures BlockSent(im.order, [], pl.ci, At(map[], pl), BlockOf(im.p, pl))
    {
      NothingSent(im.order, pl.ci, BlockOf(im.p, pl));
    }
  }

  /** Every bit of every coefficient of n components is sent. */
  ghost predicate SendsAll(script: seq<Scripts.Scan>, n: nat) {
    forall ci, k :: 0 <= ci < n && 0 <= k < DCTSIZE2 ==> Scripts.LastAl(script, ci, k) == 0
  }

  /** When all bits have been sent, what the decoder holds is the picture. */
  lemma AllBack(im: Image, script: seq<Scripts.Scan>, out: Held, pl: Place)
    requires ValidImage(im) && ImageSent(im, script, out) && SendsAll(script, |im.p.comps|) && IsReal(im.p, pl)
    ensures At(out, pl) == BlockOf(im.p, pl)
  {
    hide BlockSent, IsNaturalOrder;
    BlockBack(im.order, script, pl.ci, At(out, pl), BlockOf(im.p, pl));
  }

  /** The decoder holds the picture. */
  ghost predicate HoldsPicture(p: Picture, out: Held) {
    forall pl: Place :: IsReal(p, pl) ==> At(out, pl) == BlockOf(p, pl)
  }

  lemma PictureBack(im: Image, script: seq<Scripts.Scan>, out: Held)
    requires ValidImage(im) && ImageSent(im, script, out) && SendsAll(script, |im.p.comps|)
    ensures HoldsPicture(im.p, out)
  {
    hide ValidImage, ImageSent, SendsAll, IsReal;
    forall pl: Place | IsReal(im.p, pl)
      ensures At(out, pl) == BlockOf(im.p, pl)
    {
      AllBack(im, script, out, pl);
    }
  }

  /**
   * The script that jpeg_simple_progression generates loses nothing, whatever the number of components; encoding fails
   * exactly if one of its scans cannot be sent with its tables.
   */
  method CodeSimpleProgression(im: Image, ycc: bool, tables: seq<Books>, serve: (nat, nat) -> seq<int>)
    returns (script: seq<Scripts.Scan>, ok: bool, out: Held)
    requires ValidImage(im) && |im.p.comps| > 0 && forall j :: 0 <= j < |tables| ==> Suits(im, tables[j])
    requires |tables| == ScanCount(|im.p.comps|, ycc) && forall j, i :: RefineRoundTrip.Served(serve(j, i))
    ensures ScriptFor(im, script) && |script| == |tables|
    ensures ok <==> AllCanSend(im, script, tables)
    ensures ok ==> HoldsPicture(im.p, out)
  {
    hide IsNaturalOrder, Scripts.ValidScript, Suits, AllCanSend, RefineRoundTrip.Served, ValidPicture, ImageSent,
      IsReal;
    var params := new ScriptGeneration.ScriptParameters(|im.p.comps|, ycc);
    params.SimpleProgression();
    script := params.space[..params.numScans];
    ok, out := CodeImage(im, script, tables, serve);
    if ok {
      PictureBack(im, script, out);
    }
  }

  /** How many scans the recommended script has. */
  function ScanCount(n: nat, ycc: bool): nat {
    if n == 3 && ycc then 10 else if n > MAX_COMPS_IN_SCAN then 6 * n else 2 + 4 * n
  }
}
