/** What the scans of a progressive script have sent of a block, and what one more scan adds to it. */
module ProgressiveBlocks {
  import Words
  import opened Coefficients
  import opened RefineDecoding
  import opened RefineEncoding
  import opened RefineStream
  import opened AcFirstDecoder
  import opened DcScans
  import Scripts = ScanScripts

  const MAX_AL := 13

  /** A full-size natural order as it is stored. */
  predicate IsNaturalOrder(order: seq<nat>) {
    IsStoredOrder(order, 63) && order[0] == 0
  }

  // ---------------------------------------------------------------------------------------------
  // What has been sent of a block
  // ---------------------------------------------------------------------------------------------

  /** Coefficient number k with value w, when its bits down to level have been sent; none have if level is negative. */
  ghost function AsSent(w: Coef, k: nat, level: int): int {
    if level < 0 || level > MAX_AL then 0 else if k == 0 then DcAt(w, level) else Trunc(w, level)
  }

  /** c holds what the scans have sent of b, a block of component ci. */
  ghost predicate BlockSent(order: seq<nat>, scans: seq<Scripts.Scan>, ci: nat, c: seq<Coef>, b: Block)
    requires IsNaturalOrder(order)
  {
    && |c| == DCTSIZE2
    && forall k :: 0 <= k < DCTSIZE2 ==> c[order[k]] as int == AsSent(b[order[k]], k, Scripts.LastAl(scans, ci, k))
  }

  /** A scan that may come next, in an image of n components. */
  ghost predicate IsNext(n: nat, before: seq<Scripts.Scan>, s: Scripts.Scan) {
    Scripts.ScansOk(true, before, n, MAX_AL) && Scripts.ProgressiveOk(before, s, n, MAX_AL)
  }

  /** The parameters of a next scan. */
  lemma NextParameters(n: nat, before: seq<Scripts.Scan>, s: Scripts.Scan)
    requires IsNext(n, before, s)
    ensures 0 <= s.ss <= s.se < DCTSIZE2 && 0 <= s.al <= MAX_AL && 0 <= s.ah <= MAX_AL
      && (s.ah > 0 ==> s.al == s.ah - 1)
    ensures if s.ss == 0 then s.se == 0 else s.comps == 1
    ensures 0 < s.comps <= MAX_COMPS_IN_SCAN && 0 <= s.index[0] < n && Scripts.Sends(s, s.index[0])
  {
    hide Scripts.LastAl, Scripts.ScansOk;
    Scripts.SendsOne(s, 0);
    assert Scripts.Follows(before, s, s.index[0]);
    Scripts.LastAlAtLeast(before, n, MAX_AL, s.index[0], s.ss);
    assert Scripts.BitsFollow(before, s.index[0], s.ss, s.ah, s.al);
  }

  /** A next scan moves exactly its band, and finds it with no bits or with all but one of its own. */
  lemma NextScan(n: nat, before: seq<Scripts.Scan>, s: Scripts.Scan, ci: nat, k: nat)
    requires IsNext(n, before, s) && k < DCTSIZE2
    ensures Scripts.LastAl(before + [s], ci, k)
            == if Scripts.Sends(s, ci) && s.ss <= k <= s.se then s.al else Scripts.LastAl(before, ci, k)
    ensures Scripts.Sends(s, ci) && s.ss <= k <= s.se ==>
              if s.ah == 0 then Scripts.LastAl(before, ci, k) < 0 else Scripts.LastAl(before, ci, k) == s.al + 1
    ensures Scripts.LastAl(before, ci, k) <= MAX_AL
  {
    hide Scripts.LastAl, Scripts.ScansOk;
    NextParameters(n, before, s);
    Scripts.LastAlAppend(before, s, ci, k);
    Scripts.LastAlAtLeast(before, n, MAX_AL, ci, k);
    if Scripts.Sends(s, ci) && s.ss <= k <= s.se {
      assert Scripts.Follows(before, s, ci);
      assert Scripts.BitsFollow(before, ci, k, s.ah, s.al);
    }
  }

  /** The band of an AC scan. */
  function BandOf(order: seq<nat>, s: Scripts.Scan): (band: Band)
    requires 0 <= s.ss && 0 <= s.se && 0 <= s.al
  {
    Band(order, s.ss, s.se, s.al)
  }

  lemma BandFits(n: nat, order: seq<nat>, before: seq<Scripts.Scan>, s: Scripts.Scan)
    requires IsNaturalOrder(order) && IsNext(n, before, s) && s.ss > 0
    ensures 0 <= s.se && 0 <= s.al && IsBand(BandOf(order, s))
  {
    NextParameters(n, before, s);
    StoredOrdersServe(order, 63, s.ss, s.se, s.al);
  }

  lemma OutsideBand(order: seq<nat>, ss: nat, se: nat, k: nat)
    requires IsNaturalOrder(order) && ss <= se < DCTSIZE2 && k < DCTSIZE2 && (k < ss || k > se)
    ensures order[k] !in order[ss..se + 1]
  {
    var part := order[ss..se + 1];
    forall j | 0 <= j < |part|
      ensures part[j] != order[k]
    {
      assert part[j] == order[ss + j];
    }
  }

  // ---------------------------------------------------------------------------------------------
  // One more scan
  // ---------------------------------------------------------------------------------------------

  /** A scan of other components. */
  lemma NotSent(n: nat, order: seq<nat>, before: seq<Scripts.Scan>, s: Scripts.Scan, ci: nat, c: seq<Coef>, b: Block)
    requires IsNaturalOrder(order) && IsNext(n, before, s) && !Scripts.Sends(s, ci)
      && BlockSent(order, before, ci, c, b)
    ensures BlockSent(order, before + [s], ci, c, b)
  {
    hide Scripts.LastAl, IsNext, AsSent, Scripts.Sends;
    forall k | 0 <= k < DCTSIZE2
      ensures c[order[k]] as int == AsSent(b[order[k]], k, Scripts.LastAl(before + [s], ci, k))
    {
      NextScan(n, before, s, ci, k);
    }
  }

  /** A DC scan. */
  lemma DcStep(n: nat, order: seq<nat>, before: seq<Scripts.Scan>, s: Scripts.Scan, ci: nat, c: seq<Coef>, b: Block)
    requires IsNaturalOrder(order) && IsNext(n, before, s) && s.ss == 0 && Scripts.Sends(s, ci)
    requires BlockSent(order, before, ci, c, b)
    ensures 0 <= s.al <= MAX_AL && BlockSent(order, before + [s], ci, c[0 := DcAt(b[0], s.al)], b)
  {
    hide Scripts.LastAl, IsNext, DcAt, Trunc, Scripts.Sends;
    NextParameters(n, before, s);
    var c1 := c[0 := DcAt(b[0], s.al)];
    forall k | 0 <= k < DCTSIZE2
      ensures c1[order[k]] as int == AsSent(b[order[k]], k, Scripts.LastAl(before + [s], ci, k))
    {
      NextScan(n, before, s, ci, k);
      assert k > 0 ==> order[k] != order[0];
    }
  }

  /** A DC refinement scan finds the coefficient without its al + 1 low bits, and enters the next one. */
  lemma DcRefineStep(n: nat, order: seq<nat>, before: seq<Scripts.Scan>, s: Scripts.Scan, ci: nat, c: seq<Coef>,
      b: Block)
    requires IsNaturalOrder(order) && IsNext(n, before, s) && s.ss == 0 && s.ah > 0 && Scripts.Sends(s, ci)
    requires BlockSent(order, before, ci, c, b)
    ensures 0 <= s.al <= MAX_AL && BlockSent(order, before + [s], ci, c[0 := Entered(c[0], b[0], s.al)], b)
  {
    hide Scripts.LastAl, IsNext, DcAt, Trunc, Scripts.Sends, Entered;
    NextParameters(n, before, s);
    NextScan(n, before, s, ci, 0);
    assert c[order[0]] as int == AsSent(b[order[0]], 0, Scripts.LastAl(before, ci, 0));
    EnteredNext(b[0], s.al);
    DcStep(n, order, before, s, ci, c, b);
  }

  /** Before a first AC scan its band is zero. */
  lemma FirstStart(n: nat, order: seq<nat>, before: seq<Scripts.Scan>, s: Scripts.Scan, ci: nat, c: seq<Coef>, b: Block)
    requires IsNaturalOrder(order) && IsNext(n, before, s) && s.ss > 0 && s.ah == 0 && Scripts.Sends(s, ci)
    requires BlockSent(order, before, ci, c, b)
    ensures 0 <= s.se && 0 <= s.al && IsBand(BandOf(order, s))
    ensures Partly(BandOf(order, s), c, b, s.ss) && SameElsewhere(BandOf(order, s), c, c)
  {
    hide Scripts.LastAl, IsNext, DcAt, Trunc, IsBand, Scripts.Sends;
    BandFits(n, order, before, s);
    NextParameters(n, before, s);
    var band := BandOf(order, s);
    forall j | band.ss <= j <= band.se
      ensures c[band.order[j]] == 0
    {
      NextScan(n, before, s, ci, j);
    }
  }

  lemma FirstEnd(n: nat, order: seq<nat>, before: seq<Scripts.Scan>, s: Scripts.Scan, ci: nat, c: seq<Coef>,
      c1: seq<Coef>, b: Block)
    requires IsNaturalOrder(order) && IsNext(n, before, s) && s.ss > 0 && s.se >= 0 && s.al >= 0 && Scripts.Sends(s, ci)
    requires BlockSent(order, before, ci, c, b)
    requires IsBand(BandOf(order, s)) && Partly(BandOf(order, s), c1, b, s.se + 1)
      && SameElsewhere(BandOf(order, s), c, c1)
    ensures BlockSent(order, before + [s], ci, c1, b)
  {
    hide Scripts.LastAl, IsNext, DcAt, Trunc, Scripts.Sends;
    NextParameters(n, before, s);
    forall k | 0 <= k < DCTSIZE2
      ensures c1[order[k]] as int == AsSent(b[order[k]], k, Scripts.LastAl(before + [s], ci, k))
    {
      NextScan(n, before, s, ci, k);
      if k < s.ss || k > s.se {
        OutsideBand(order, s.ss, s.se, k);
      }
    }
  }

  /** A refinement scan finds its band known to bit al + 1. */
  lemma RefineStart(n: nat, order: seq<nat>, before: seq<Scripts.Scan>, s: Scripts.Scan, ci: nat, c: seq<Coef>,
      b: Block)
    requires IsNaturalOrder(order) && IsNext(n, before, s) && s.ss > 0 && s.ah > 0 && Scripts.Sends(s, ci)
    requires BlockSent(order, before, ci, c, b)
    ensures 0 <= s.se && 0 <= s.al && IsBand(BandOf(order, s)) && Progress(BandOf(order, s), c, c, b, s.ss)
  {
    hide Scripts.LastAl, IsNext, DcAt, Trunc, IsBand, Scripts.Sends;
    BandFits(n, order, before, s);
    NextParameters(n, before, s);
    var band := BandOf(order, s);
    forall j | band.ss <= j <= band.se
      ensures c[band.order[j]] as int == Trunc(b[band.order[j]], band.al + 1)
    {
      NextScan(n, before, s, ci, j);
    }
  }

  lemma RefineEnd(n: nat, order: seq<nat>, before: seq<Scripts.Scan>, s: Scripts.Scan, ci: nat, c: seq<Coef>,
      c1: seq<Coef>, b: Block)
    requires IsNaturalOrder(order) && IsNext(n, before, s) && s.ss > 0 && s.se >= 0 && s.al >= 0 && Scripts.Sends(s, ci)
    requires BlockSent(order, before, ci, c, b)
    requires IsBand(BandOf(order, s)) && Progress(BandOf(order, s), c, c1, b, s.se + 1)
    ensures BlockSent(order, before + [s], ci, c1, b)
  {
    hide Scripts.LastAl, IsNext, DcAt, Trunc, Scripts.Sends;
    NextParameters(n, before, s);
    forall k | 0 <= k < DCTSIZE2
      ensures c1[order[k]] as int == AsSent(b[order[k]], k, Scripts.LastAl(before + [s], ci, k))
    {
      NextScan(n, before, s, ci, k);
      if k < s.ss || k > s.se {
        OutsideBand(order, s.ss, s.se, k);
      }
    }
  }

  // ---------------------------------------------------------------------------------------------
  // When everything has been sent
  // ---------------------------------------------------------------------------------------------

  lemma SentExactly(w: Coef, k: nat)
    ensures AsSent(w, k, 0) == w
  {
    DcExact(w);
    assert Shifted(Magnitude(w), 0) == Magnitude(w) && Words.Pow2(0) == 1;
  }

  /** The numbers below n. */
  ghost function Below(n: nat): (r: set<nat>)
    ensures |r| == n && forall i: nat :: i in r <==> i < n
  {
    if n == 0 then {} else Below(n - 1) + {n - 1}
  }

  /** The positions that the first n entries of an order name. */
  ghost function Reached(order: seq<nat>, n: nat): (r: set<nat>)
    requires n <= |order|
  {
    if n == 0 then {} else Reached(order, n - 1) + {order[n - 1]}
  }

  lemma {:induction false} ReachedAt(order: seq<nat>, n: nat, p: nat) returns (k: nat)
    requires n <= |order| && p in Reached(order, n)
    ensures k < n && order[k] == p
  {
    if p == order[n - 1] {
      k := n - 1;
    } else {
      k := ReachedAt(order, n - 1, p);
    }
  }

  /** Distinct entries name as many positions. */
  lemma {:induction false} ReachedSize(order: seq<nat>, n: nat)
    requires IsNaturalOrder(order) && n <= DCTSIZE2
    ensures |Reached(order, n)| == n
  {
    if n > 0 {
      ReachedSize(order, n - 1);
      if order[n - 1] in Reached(order, n - 1) {
        var k := ReachedAt(order, n - 1, order[n - 1]);
      }
    }
  }

  /** A natural order reaches every position of a block. */
  lemma OrderReaches(order: seq<nat>, p: nat) returns (k: nat)
    requires IsNaturalOrder(order) && p < DCTSIZE2
    ensures k < DCTSIZE2 <= |order| && order[k] == p
  {
    hide Below, Reached;
    var all, reached := Below(DCTSIZE2), Reached(order, DCTSIZE2);
    ReachedSize(order, DCTSIZE2);
    forall q | q in reached
      ensures q in all
    {
      var j := ReachedAt(order, DCTSIZE2, q);
    }
    if p !in reached {
      SubsetSize(reached, all - {p});
    }
    k := ReachedAt(order, DCTSIZE2, p);
  }

  lemma {:induction false} SubsetSize(a: set<nat>, b: set<nat>)
    requires a <= b
    ensures |a| <= |b|
    decreases |a|
  {
    if a != {} {
      var x :| x in a;
      SubsetSize(a - {x}, b - {x});
    }
  }

  /** When all bits of a component have been sent, its blocks are the original ones. */
  lemma BlockBack(order: seq<nat>, scans: seq<Scripts.Scan>, ci: nat, c: seq<Coef>, b: Block)
    requires IsNaturalOrder(order) && BlockSent(order, scans, ci, c, b)
    requires forall k :: 0 <= k < DCTSIZE2 ==> Scripts.LastAl(scans, ci, k) == 0
    ensures c == b
  {
    hide AsSent, IsStoredOrder;
    forall p | 0 <= p < DCTSIZE2
      ensures c[p] == b[p]
    {
      var k := OrderReaches(order, p);
      SentExactly(b[order[k]], k);
    }
  }

  /** Nothing has been sent. */
  lemma NothingSent(order: seq<nat>, ci: nat, b: Block)
    requires IsNaturalOrder(order)
    ensures BlockSent(order, [], ci, seq(DCTSIZE2, _ => 0), b)
  {
  }
}
