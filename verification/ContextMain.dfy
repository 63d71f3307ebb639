/**
 * Delivering row groups with their context: whatever the post-processor swallows per call and whenever the decoder
 * suspends, the groups come out once each in image order, between their true neighbours.
 */
module ContextMain {
  import opened Integers
  import opened ContextRows

  datatype State = PrepareForImcu | ProcessImcu | PostponedRow

  // ---------------------------------------------------------------------------------------------
  // Pointer lists: entry i of a list stands at offset i + g, so that one row group has negative indices
  // ---------------------------------------------------------------------------------------------

  /** Where list w points at index i of the workspace part: the second list has its last four row groups swapped. */
  function BaseRow(w: nat, i: int, h: nat, g: nat): (p: int)
  {
    if w == 0 || i < h - 2 * g then i
    else if i < h then i + 2 * g
    else i - 2 * g
  }

  /** Where list w points at index i once its ends wrap around. */
  function NormalRow(w: nat, i: int, h: nat, g: nat): (p: int)
  {
    if i < 0 then BaseRow(w, h + 2 * g + i, h, g)
    else if i >= h + 2 * g then BaseRow(w, i - h - 2 * g, h, g)
    else BaseRow(w, i, h, g)
  }

  predicate BaseList(x: seq<int>, w: nat, h: nat, g: nat) {
    |x| == h + 4 * g && forall i :: g <= i < h + 3 * g ==> x[i] == BaseRow(w, i - g, h, g)
  }

  /** The first list at the top of the image: the rows above repeat the first one. */
  predicate TopList(x: seq<int>, h: nat, g: nat) {
    BaseList(x, 0, h, g) && forall i :: 0 <= i < g ==> x[i] == 0
  }

  predicate NormalList(x: seq<int>, w: nat, h: nat, g: nat) {
    |x| == h + 4 * g && forall i :: 0 <= i < |x| ==> x[i] == NormalRow(w, i - g, h, g)
  }

  /** x is y with the entry before index left repeated in 2 * g entries. */
  predicate BottomList(x: seq<int>, y: seq<int>, left: nat, g: nat) {
    && |x| == |y| && 1 <= left && left + 3 * g <= |x|
    && (forall i :: 0 <= i < left + g ==> x[i] == y[i])
    && forall i :: left + g <= i < left + 3 * g ==> x[i] == y[left + g - 1]
  }

  /** Through list x, the workspace shows row start + i at entry i, for lo <= i < hi. */
  predicate Shows(ws: seq<int>, x: seq<int>, lo: nat, hi: nat, start: int)
    requires lo <= hi <= |x|
  {
    forall i :: lo <= i < hi ==> 0 <= x[i] < |ws| && ws[x[i]] == start + i
  }

  /** What list x shows around row group q: the group, and the groups above and below. */
  function Window(ws: seq<int>, x: seq<int>, q: nat, g: nat): (s: seq<int>)
    requires (q + 3) * g <= |x| && forall i :: q * g <= i < (q + 3) * g ==> 0 <= x[i] < |ws|
    ensures |s| == 3 * g
  {
    seq(3 * g, j requires 0 <= j < 3 * g => ws[x[q * g + j]])
  }

  /**
   * The rows handed out around row group number k: from one group above to one group below.  Below the last group
   * of the last but one iMCU row the rows come from the last iMCU row as it was decoded, padding rows included.
   */
  function Expected(k: nat, g: nat, m: nat, rows: nat, total: nat): (s: seq<int>)
    requires rows > 0
    ensures |s| == 3 * g
  {
    seq(3 * g, j => var r := k * g - g + j; if k + 1 == (total - 1) * m && r >= 0 then r else Clamp(r, rows))
  }

  // ---------------------------------------------------------------------------------------------
  // What the lists show
  // ---------------------------------------------------------------------------------------------

  /**
   * The lists share the last row groups crosswise: what one shows at the end of an iMCU row the other shows behind it.
   */
  lemma BaseRows(w: nat, i: int, j: int, h: nat, g: nat)
    requires w <= 1 && 0 <= i < h + 2 * g && 0 <= j < h + 2 * g && h >= 2 * g
    ensures 0 <= BaseRow(w, i, h, g) < h + 2 * g
    ensures i != j ==> BaseRow(w, i, h, g) != BaseRow(w, j, h, g)
    ensures i >= h ==> BaseRow(w, i, h, g) == BaseRow(1 - w, i - 2 * g, h, g)
  {
  }

  /** The first row of the n-th iMCU row, counting from 1. */
  function FirstRow(n: nat, h: nat): (r: int)
  {
    (n - 1) * h
  }

  lemma NextFirstRow(n: nat, h: nat)
    ensures FirstRow(n + 1, h) == FirstRow(n, h) + h
    ensures FirstRow(1, h) == 0
  {
  }

  lemma FirstRowLow(n: nat, h: nat)
    requires n >= 1
    ensures if n == 1 then FirstRow(n, h) == 0 else FirstRow(n, h) >= h
  {
    if n > 1 {
      ProductKeepsOrder(1, n - 1, h);
    }
  }

  /** After n iMCU rows, list w shows the last one, and behind it the end of the one before. */
  predicate Loaded(ws: seq<int>, x: seq<int>, n: nat, h: nat, g: nat) {
    && |x| == h + 4 * g && n >= 1
    && Shows(ws, x, g, h + g, FirstRow(n, h) - g)
    && (n > 1 ==> Shows(ws, x, h + g, h + 3 * g, FirstRow(n, h) - h - 3 * g))
  }

  /**
   * A list with wrapped ends shows an unbroken stretch of rows around the last iMCU row, and around the group before
   * it.
   */
  lemma NormalShows(ws: seq<int>, x: seq<int>, w: nat, n: nat, h: nat, g: nat)
    requires w <= 1 && h >= 2 * g && NormalList(x, w, h, g) && Loaded(ws, x, n, h, g) && n > 1
    ensures Shows(ws, x, 0, h + g, FirstRow(n, h) - g)
    ensures Shows(ws, x, h + g, h + 4 * g, FirstRow(n, h) - h - 3 * g)
  {
    hide NormalRow;
    forall i | 0 <= i < g
      ensures 0 <= x[i] < |ws| && ws[x[i]] == FirstRow(n, h) - g + i
    {
      NormalWraps(w, i, h, g);
      assert x[i] == x[i + h + 2 * g];
    }
    forall i | h + 3 * g <= i < h + 4 * g
      ensures 0 <= x[i] < |ws| && ws[x[i]] == FirstRow(n, h) - h - 3 * g + i
    {
      NormalWraps(w, i - h - 3 * g, h, g);
      assert x[i] == x[i - h - 2 * g];
    }
  }

  lemma NormalWraps(w: nat, i: int, h: nat, g: nat)
    requires 0 <= i < g && h >= 2 * g
    ensures NormalRow(w, i - g, h, g) == NormalRow(w, i + h + g, h, g)
    ensures NormalRow(w, i + h + 2 * g, h, g) == NormalRow(w, i, h, g)
  {
  }

  lemma NormalIsBase(x: seq<int>, w: nat, h: nat, g: nat)
    requires NormalList(x, w, h, g)
    ensures BaseList(x, w, h, g)
  {
  }

  /** Loading an iMCU row into a list leaves what stands behind it. */
  lemma LoadKeeps(ws: seq<int>, ws1: seq<int>, x: seq<int>, y: seq<int>, w: nat, n: nat, h: nat, g: nat)
    requires w <= 1 && h >= 2 * g && |ws| == |ws1| == h + 2 * g
    requires BaseList(x, w, h, g) && BaseList(y, 1 - w, h, g) && n >= 1 && Loaded(ws, y, n, h, g)
    requires Shows(ws1, x, g, h + g, FirstRow(n + 1, h) - g)
    requires forall i :: h <= i < h + 2 * g ==> ws1[BaseRow(w, i, h, g)] == ws[BaseRow(w, i, h, g)]
    ensures Loaded(ws1, x, n + 1, h, g)
  {
    hide BaseRow;
    NextFirstRow(n, h);
    forall i | h + g <= i < h + 3 * g
      ensures 0 <= x[i] < |ws1| && ws1[x[i]] == FirstRow(n + 1, h) - h - 3 * g + i
    {
      BaseRows(w, i - g, i - g, h, g);
      assert x[i] == BaseRow(w, i - g, h, g) == BaseRow(1 - w, i - 3 * g, h, g) == y[i - 2 * g];
    }
  }

  // ---------------------------------------------------------------------------------------------
  // Row groups in the lists and in the image
  // ---------------------------------------------------------------------------------------------

  lemma WindowInside(q: nat, count: nat, g: nat)
    requires q + 1 <= count
    ensures q * g + g <= count * g && q * g >= 0 && (q + 3) * g == q * g + 3 * g
  {
    ProductKeepsOrder(q + 1, count, g);
    Sum3(q, 1, g);
    Sum3(q, 3, g);
  }

  lemma Sum3(a: int, b: int, g: nat)
    ensures (a + b) * g == a * g + b * g
  {
  }

  /** A window that lies in an unbroken stretch of rows. */
  lemma WindowIn(ws: seq<int>, x: seq<int>, q: nat, g: nat, lo: nat, hi: nat, start: int)
    requires lo <= hi <= |x| && Shows(ws, x, lo, hi, start) && lo <= q * g && q * g + 3 * g <= hi
    ensures (q + 3) * g == q * g + 3 * g && forall i :: q * g <= i < (q + 3) * g ==> 0 <= x[i] < |ws|
    ensures forall j :: 0 <= j < 3 * g ==> Window(ws, x, q, g)[j] == start + q * g + j
  {
    Sum3(q, 3, g);
    forall j | 0 <= j < 3 * g
      ensures Window(ws, x, q, g)[j] == start + q * g + j
    {
      var i := q * g + j;
      assert ws[x[i]] == start + i;
    }
  }

  lemma ExpectedAt(k: nat, g: nat, m: nat, rows: nat, total: nat, j: nat)
    requires rows > 0 && j < 3 * g
    ensures Expected(k, g, m, rows, total)[j]
            == var r := k * g - g + j; if k + 1 == (total - 1) * m && r >= 0 then r else Clamp(r, rows)
  {
  }

  /** A window that shows, row by row, what is expected. */
  lemma WindowMatches(ws: seq<int>, x: seq<int>, q: nat, k: nat, g: nat, m: nat, rows: nat, total: nat)
    requires rows > 0 && (q + 3) * g <= |x| && (q + 3) * g == q * g + 3 * g
    requires forall i :: q * g <= i < (q + 3) * g ==> 0 <= x[i] < |ws|
    requires forall j :: 0 <= j < 3 * g ==>
                           var r := k * g - g + j;
                           Window(ws, x, q, g)[j] == if k + 1 == (total - 1) * m && r >= 0 then r else Clamp(r, rows)
    ensures Window(ws, x, q, g) == Expected(k, g, m, rows, total)
  {
    hide Window, Expected, Clamp;
    forall j | 0 <= j < 3 * g
      ensures Window(ws, x, q, g)[j] == Expected(k, g, m, rows, total)[j]
    {
      ExpectedAt(k, g, m, rows, total, j);
    }
  }

  /** Row group q of iMCU row n, when further ones follow below. */
  lemma MiddleWindow(ws: seq<int>, x: seq<int>, n: nat, q: nat, g: nat, m: nat, h: nat, rows: nat, groups: nat,
      total: nat)
    requires Dimensions(rows, g, m, groups, total) && h == g * m && rows > 0 && g >= 1 && |x| == h + 4 * g
    requires 1 < n < total && q + 2 <= m && Shows(ws, x, 0, h + g, FirstRow(n, h) - g)
    ensures (q + 3) * g == q * g + 3 * g <= |x| && forall i :: q * g <= i < (q + 3) * g ==> 0 <= x[i] < |ws|
    ensures Window(ws, x, q, g) == Expected(GroupNumber(n, m, q), g, m, rows, total)
  {
    hide Dimensions, Shows, Window, Expected, FirstRow, GroupNumber;
    WindowInside(q, m - 1, g);
    PreviousMultiple(m, g);
    GroupStart(n, q, g, m, h);
    RowsBelow(n, g, m, h, rows, groups, total);
    WindowIn(ws, x, q, g, 0, h + g, FirstRow(n, h) - g);
    WindowMatches(ws, x, q, GroupNumber(n, m, q), g, m, rows, total);
  }

  /** The rows above the first group repeat its first row. */
  lemma TopWindow(ws: seq<int>, x: seq<int>, q: nat, g: nat, m: nat, h: nat, rows: nat, groups: nat, total: nat)
    requires Dimensions(rows, g, m, groups, total) && h == g * m && rows > 0 && g >= 1 && |x| == h + 4 * g
    requires 1 < total && q + 2 <= m && Shows(ws, x, g, h + g, 0 - g) && forall i :: 0 <= i < g ==> x[i] == x[g]
    ensures (q + 3) * g == q * g + 3 * g <= |x| && forall i :: q * g <= i < (q + 3) * g ==> 0 <= x[i] < |ws|
    ensures Window(ws, x, q, g) == Expected(GroupNumber(1, m, q), g, m, rows, total)
  {
    hide Dimensions, Window, Expected, FirstRow, GroupNumber;
    WindowInside(q, m - 1, g);
    PreviousMultiple(m, g);
    GroupStart(1, q, g, m, h);
    NextFirstRow(1, h);
    RowsBelow(1, g, m, h, rows, groups, total);
    TopShown(ws, x, q, g);
    if q > 0 {
      ProductKeepsOrder(1, q, g);
    }
    WindowMatches(ws, x, q, GroupNumber(1, m, q), g, m, rows, total);
  }

  lemma TopShown(ws: seq<int>, x: seq<int>, q: nat, g: nat)
    requires g >= 1 && q * g + 3 * g <= |x| && Shows(ws, x, g, q * g + 3 * g, 0 - g)
    requires forall i :: 0 <= i < g ==> x[i] == x[g]
    ensures (q + 3) * g == q * g + 3 * g && forall i :: q * g <= i < (q + 3) * g ==> 0 <= x[i] < |ws|
    ensures forall j :: 0 <= j < 3 * g ==>
                          Window(ws, x, q, g)[j] == if q * g + j < g then 0 else q * g + j - g
  {
    Sum3(q, 3, g);
    assert ws[x[g]] == 0;
    forall j | 0 <= j < 3 * g
      ensures Window(ws, x, q, g)[j] == if q * g + j < g then 0 else q * g + j - g
    {
      var i := q * g + j;
      assert i >= g ==> ws[x[i]] == i - g;
    }
  }

  /** The last row group of an iMCU row, once the next iMCU row n has been read. */
  lemma PostponedWindow(ws: seq<int>, x: seq<int>, n: nat, q: nat, g: nat, m: nat, h: nat, rows: nat, groups: nat,
      total: nat)
    requires Dimensions(rows, g, m, groups, total) && h == g * m && rows > 0 && g >= 1 && m >= 2 && |x| == h + 4 * g
    requires 1 < n <= total && q == m + 1 && Shows(ws, x, h + g, h + 4 * g, FirstRow(n, h) - h - 3 * g)
    ensures (q + 3) * g == q * g + 3 * g <= |x|
    ensures forall i :: q * g <= i < (q + 3) * g ==> 0 <= x[i] < |ws|
    ensures GroupNumber(n, m, 0) >= m
    ensures Window(ws, x, q, g) == Expected(GroupNumber(n, m, 0) - 1, g, m, rows, total)
  {
    hide Dimensions, Shows, Window, Expected, FirstRow, GroupNumber, Clamp;
    GroupsBefore(n, m, total);
    PostponedShown(ws, x, n, q, g, m, h);
    forall j | 0 <= j < 3 * g
      ensures Window(ws, x, q, g)[j]
              == var r := (GroupNumber(n, m, 0) - 1) * g - g + j;
                 if GroupNumber(n, m, 0) == (total - 1) * m && r >= 0 then r else Clamp(r, rows)
    {
      PostponedWanted(n, q, g, m, h, rows, groups, total, j);
    }
    WindowMatches(ws, x, q, GroupNumber(n, m, 0) - 1, g, m, rows, total);
  }

  lemma PostponedShown(ws: seq<int>, x: seq<int>, n: nat, q: nat, g: nat, m: nat, h: nat)
    requires h == g * m && g >= 1 && 1 < n && q == m + 1 && |x| == h + 4 * g
    requires Shows(ws, x, h + g, h + 4 * g, FirstRow(n, h) - h - 3 * g)
    ensures (q + 3) * g == q * g + 3 * g <= |x| && forall i :: q * g <= i < (q + 3) * g ==> 0 <= x[i] < |ws|
    ensures forall j :: 0 <= j < 3 * g ==> Window(ws, x, q, g)[j] == FirstRow(n, h) - 2 * g + j
  {
    hide Shows, Window, FirstRow, GroupNumber;
    PostponedStart(n, q, g, m, h, GroupNumber(n, m, 0));
    WindowIn(ws, x, q, g, h + g, h + 4 * g, FirstRow(n, h) - h - 3 * g);
  }

  lemma PostponedWanted(n: nat, q: nat, g: nat, m: nat, h: nat, rows: nat, groups: nat, total: nat, j: nat)
    requires Dimensions(rows, g, m, groups, total) && h == g * m && rows > 0 && g >= 1 && m >= 2
    requires 1 < n <= total && q == m + 1 && j < 3 * g
    ensures var r := (GroupNumber(n, m, 0) - 1) * g - g + j;
            && r == FirstRow(n, h) - 2 * g + j
            && r == if GroupNumber(n, m, 0) == (total - 1) * m && r >= 0 then r else Clamp(r, rows)
  {
    hide Dimensions, FirstRow, GroupNumber;
    GroupsBefore(n, m, total);
    PostponedStart(n, q, g, m, h, GroupNumber(n, m, 0));
    ProductKeepsOrder(2, m, g);
    if n < total {
      RowsBelow(n, g, m, h, rows, groups, total);
    }
  }

  lemma PostponedStart(n: nat, q: nat, g: nat, m: nat, h: nat, k: nat)
    requires h == g * m && g >= 1 && n > 1 && q == m + 1 && k == GroupNumber(n, m, 0)
    ensures q * g == h + g && (q + 3) * g == q * g + 3 * g
    ensures (k - 1) * g == FirstRow(n, h) - g && FirstRow(n, h) >= h
  {
    hide FirstRow, GroupNumber;
    Sum3(m, 1, g);
    Sum3(q, 3, g);
    GroupStart(n, 0, g, m, h);
    PreviousMultiple(k, g);
  }

  lemma GroupsBefore(n: nat, m: nat, total: nat)
    requires 1 <= n <= total && m >= 1
    ensures n > 1 ==> GroupNumber(n, m, 0) >= m
    ensures GroupNumber(n, m, 0) == (total - 1) * m <==> n == total
  {
    if n > 1 {
      ProductKeepsOrder(1, n - 1, m);
    }
    ProductKeepsOrder(n - 1, total - 1, m);
  }

  /** Row group q of the last iMCU row: the last real row is repeated below. */
  lemma BottomWindow(ws: seq<int>, x: seq<int>, y: seq<int>, left: nat, q: nat, g: nat, m: nat, h: nat, rows: nat,
      groups: nat, total: nat)
    requires Dimensions(rows, g, m, groups, total) && h == g * m && rows > 0 && g >= 1 && h >= 2 * g && |x| == h + 4 * g
    requires BottomList(x, y, left, g) && left <= h && rows == FirstRow(total, h) + left
    requires q < groups - (total - 1) * m
    requires Shows(ws, y, g, h + g, FirstRow(total, h) - g)
    requires if total == 1 then forall i :: 0 <= i < g ==> y[i] == y[g]
      else Shows(ws, y, 0, h + g, FirstRow(total, h) - g)
    ensures (q + 3) * g == q * g + 3 * g <= |x| && forall i :: q * g <= i < (q + 3) * g ==> 0 <= x[i] < |ws|
    ensures Window(ws, x, q, g) == Expected(GroupNumber(total, m, q), g, m, rows, total)
  {
    hide Dimensions, Window, Expected, FirstRow, GroupNumber, Shows, BottomList, Clamp;
    LastGroups(q, g, m, h, left, rows, groups, total);
    var k := GroupNumber(total, m, q);
    Sum3(q, 3, g);
    GroupStart(total, q, g, m, h);
    FirstRowLow(total, h);
    BottomLength(x, y, left, g);
    forall i | q * g <= i < (q + 3) * g
      ensures 0 <= x[i] < |ws| && ws[x[i]] == Clamp(FirstRow(total, h) - g + i, rows)
    {
      BottomRow(ws, x, y, left, g, h, FirstRow(total, h), total == 1, i);
    }
    forall j | 0 <= j < 3 * g
      ensures Window(ws, x, q, g)[j] == Clamp(k * g - g + j, rows)
    {
      WindowAt(ws, x, q, g, j);
    }
    WindowMatches(ws, x, q, k, g, m, rows, total);
  }

  lemma BottomLength(x: seq<int>, y: seq<int>, left: nat, g: nat)
    requires BottomList(x, y, left, g)
    ensures left + 3 * g <= |x|
  {
  }

  /** What entry i shows: rows of the image down to the last one, then that one again. */
  lemma BottomRow(ws: seq<int>, x: seq<int>, y: seq<int>, left: nat, g: nat, h: nat, first: int, only: bool, i: nat)
    requires BottomList(x, y, left, g) && left <= h && g >= 1 && |x| >= h + g && i < left + 3 * g
    requires first >= 0 && (only ==> first == 0) && (!only ==> first >= g)
    requires Shows(ws, y, g, h + g, first - g)
    requires if only then forall j :: 0 <= j < g ==> y[j] == y[g] else Shows(ws, y, 0, h + g, first - g)
    ensures 0 <= x[i] < |ws| && ws[x[i]] == Clamp(first - g + i, first + left)
  {
    assert ws[y[left + g - 1]] == first + left - 1;
    if only {
      assert ws[y[g]] == 0;
    }
  }

  lemma WindowAt(ws: seq<int>, x: seq<int>, q: nat, g: nat, j: nat)
    requires (q + 3) * g <= |x| && (forall i :: q * g <= i < (q + 3) * g ==> 0 <= x[i] < |ws|) && j < 3 * g
    ensures q * g + j < (q + 3) * g && Window(ws, x, q, g)[j] == ws[x[q * g + j]]
  {
    Sum3(q, 3, g);
  }

  /** The row groups of the last iMCU row start above its last real row, and are not followed by another iMCU row. */
  lemma LastGroups(q: nat, g: nat, m: nat, h: nat, left: nat, rows: nat, groups: nat, total: nat)
    requires Dimensions(rows, g, m, groups, total) && h == g * m && rows == FirstRow(total, h) + left && left <= h
    requires q < groups - (total - 1) * m
    ensures total >= 1 && rows > 0 && q * g < left && left >= 1 && GroupNumber(total, m, q) + 1 != (total - 1) * m
      && q * g + g <= h
  {
    var first := (total - 1) * m;
    ProductKeepsOrder(first + q, groups - 1, g);
    Sum3(first, q, g);
    Regroup(total - 1, m, g);
    Sum3(total, -1, m);
    ProductKeepsOrder(q + 1, m, g);
    Sum3(q, 1, g);
  }

  function GroupNumber(n: nat, m: nat, q: nat): (k: nat)
    requires n >= 1
  {
    (n - 1) * m + q
  }

  lemma GroupStart(n: nat, q: nat, g: nat, m: nat, h: nat)
    requires n >= 1 && h == g * m && g >= 1
    ensures GroupNumber(n, m, q) * g == FirstRow(n, h) + q * g
    ensures n > 1 ==> FirstRow(n, h) >= h
  {
    if n > 1 {
      ProductKeepsOrder(1, n - 1, h);
    }
    Sum3((n - 1) * m, q, g);
    Regroup(n - 1, m, g);
  }

  /** All rows of iMCU rows before the last one are real, and so is the first of the last one. */
  lemma RowsBelow(n: nat, g: nat, m: nat, h: nat, rows: nat, groups: nat, total: nat)
    requires Dimensions(rows, g, m, groups, total) && h == g * m && n < total
    ensures FirstRow(n, h) + h < rows
  {
    NextFirstRow(n, h);
    ProductKeepsOrder(n, total - 1, m);
    ProductKeepsOrder(n * m, groups - 1, g);
    Regroup(n, m, g);
  }

  class MainController {
    const g: nat       // rows in a row group of the component followed
    const m: nat       // row groups in an iMCU row
    const h: nat       // rows in an iMCU row
    const rows: nat    // sample rows of the component
    const g0: nat      // the same for component 0, which decides how many row groups the last iMCU row has
    const h0: nat
    const rows0: nat
    const total: nat   // iMCU rows in the image
    ghost const groups: nat  // row groups in the image

    const xbuf0: array<int>   // the two pointer lists
    const xbuf1: array<int>
    const buffer: array<int>  // which sample row each physical row holds; rows past the image are padding
    var rowgroupCtr: nat
    var rowgroupsAvail: nat
    var bufferFull: bool
    var whichptr: nat
    var state: State
    var imcuCtr: nat

    ghost var delivered: seq<seq<int>>  // what the post-processor found around each row group it took

    ghost predicate Shape() {
      && Dimensions(rows, g, m, groups, total) && Dimensions(rows0, g0, m, groups, total)
      && g >= 1 && m >= 2 && h == g * m && h0 == g0 * m && h >= 2 * g && rows > 0
      && xbuf0.Length == xbuf1.Length == h + 4 * g && buffer.Length == h + 2 * g
      && xbuf0 != xbuf1 && xbuf0 != buffer && xbuf1 != buffer
    }

    function Current(): array<int>
      reads this`whichptr
    {
      if whichptr == 0 then xbuf0 else xbuf1
    }

    function Other(): array<int>
      reads this`whichptr
    {
      if whichptr == 0 then xbuf1 else xbuf0
    }

    /** Copies the workspace pointers as they are. */
    method CopyPointers()
      requires Shape()
      modifies xbuf0, xbuf1
      ensures forall k :: g <= k < h + 3 * g ==> xbuf0[k] == k - g && xbuf1[k] == k - g
    {
      hide Dimensions;
      var i := 0;
      while i < h + 2 * g
        invariant 0 <= i <= h + 2 * g
        invariant forall k :: g <= k < i + g ==> xbuf0[k] == k - g && xbuf1[k] == k - g
      {
        xbuf0[i + g] := i;
        xbuf1[i + g] := i;
        i := i + 1;
      }
    }

    /** Puts the last four row groups of the second list in swapped order. */
    method SwapTail()
      requires Shape() && forall k :: g <= k < h + 3 * g ==> xbuf1[k] == k - g
      modifies xbuf1
      ensures BaseList(xbuf1[..], 1, h, g)
    {
      hide Dimensions;
      var i := 0;
      while i < 2 * g
        invariant 0 <= i <= 2 * g
        invariant forall k :: g <= k < h - g ==> xbuf1[k] == k - g
        invariant forall k :: h - g <= k < h - g + i ==> xbuf1[k] == k + g
        invariant forall k :: h + g <= k < h + g + i ==> xbuf1[k] == k - 3 * g
      {
        xbuf1[h - g + i] := h + i;
        xbuf1[h + g + i] := h - 2 * g + i;
        i := i + 1;
      }
    }

    /** Fills the two lists with the workspace rows, and the rows above the first one with the first one. */
    method MakeFunnyPointers()
      requires Shape()
      modifies xbuf0, xbuf1
      ensures TopList(xbuf0[..], h, g) && BaseList(xbuf1[..], 1, h, g)
    {
      CopyPointers();
      SwapTail();
      hide Dimensions;
      var i := 0;
      while i < g
        invariant 0 <= i <= g
        invariant forall k :: g <= k < h + 3 * g ==> xbuf0[k] == k - g
        invariant BaseList(xbuf1[..], 1, h, g)
        invariant forall k :: 0 <= k < i ==> xbuf0[k] == 0
      {
        xbuf0[i] := xbuf0[g];
        i := i + 1;
      }
    }

    /** Lets both ends of a list wrap around. */
    method WrapEnds(x: array<int>, ghost w: nat)
      requires Shape() && (x == xbuf0 || x == xbuf1)
      modifies x
      ensures old(BaseList(x[..], w, h, g)) ==> NormalList(x[..], w, h, g)
    {
      hide Shape, BaseRow, BaseList, NormalList;
      ListLengths();
      ghost var x0 := x[..];
      var i := 0;
      while i < g
        invariant 0 <= i <= g
        invariant forall k :: g <= k < h + 3 * g ==> x[k] == x0[k]
        invariant forall k :: 0 <= k < i ==> x[k] == x0[h + 2 * g + k]
        invariant forall k :: h + 3 * g <= k < h + 3 * g + i ==> x[k] == x0[k - h - 2 * g]
      {
        x[i] := x[h + 2 * g + i];
        x[h + 3 * g + i] := x[g + i];
        i := i + 1;
      }
      Wrapped(x0, x[..], w);
    }

    lemma ListLengths()
      requires Shape()
      ensures xbuf0.Length == xbuf1.Length == h + 4 * g && h >= 2 * g && g >= 1
    {
    }

    lemma Wrapped(y: seq<int>, x: seq<int>, w: nat)
      requires Shape() && |x| == |y| == h + 4 * g
      requires forall k :: g <= k < h + 3 * g ==> x[k] == y[k]
      requires forall k :: 0 <= k < g ==> x[k] == y[h + 2 * g + k]
      requires forall k :: h + 3 * g <= k < h + 4 * g ==> x[k] == y[k - h - 2 * g]
      ensures BaseList(y, w, h, g) ==> NormalList(x, w, h, g)
    {
      hide Dimensions, BaseRow;
    }

    /** Changes both lists from the state at the top of the image to the normal state. */
    method SetWraparoundPointers()
      requires Shape()
      modifies xbuf0, xbuf1
      ensures old(BaseList(xbuf0[..], 0, h, g) && BaseList(xbuf1[..], 1, h, g)) ==>
                NormalList(xbuf0[..], 0, h, g) && NormalList(xbuf1[..], 1, h, g)
    {
      hide Dimensions, BaseList, NormalList;
      WrapEnds(xbuf0, 0);
      WrapEnds(xbuf1, 1);
    }

    /** Repeats the last real row in the list in use, and counts the row groups that are not padding. */
    method SetBottomPointers()
      requires Shape() && whichptr <= 1
      modifies xbuf0, xbuf1, this`rowgroupsAvail
      ensures BottomList(Current()[..], old(Current()[..]), RowsLeft(rows, h), g) && Other()[..] == old(Other()[..])
      ensures rowgroupsAvail == groups - (total - 1) * m
    {
      hide Dimensions, RowsLeft;
      RowsLeftIs(rows, g, m, groups, total);
      RowsLeftIs(rows0, g0, m, groups, total);
      var left0 := RowsLeft(rows0, h0);
      rowgroupsAvail := (left0 - 1) / g0 + 1;
      var x, left := Current(), RowsLeft(rows, h);
      ghost var y := x[..];
      var i := 0;
      while i < 2 * g
        invariant 0 <= i <= 2 * g && x.Length == |y| && rowgroupsAvail == groups - (total - 1) * m
        invariant forall k :: 0 <= k < left + g ==> x[k] == y[k]
        invariant forall k :: left + g <= k < left + g + i ==> x[k] == y[left + g - 1]
        invariant Other()[..] == old(Other()[..])
      {
        x[left + g + i] := x[left + g - 1];
        i := i + 1;
      }
    }

    // -------------------------------------------------------------------------------------------
    // The state machine
    // -------------------------------------------------------------------------------------------

    /** The row groups before number count have been handed out in order, each between the rows expected around it. */
    ghost predicate Delivered(count: nat)
      requires rows > 0
      reads this`delivered
    {
      |delivered| == count && forall k :: 0 <= k < count ==> delivered[k] == Expected(k, g, m, rows, total)
    }

    /** The lists as they are while iMCU row n is in use: rows above repeated in the first one, ends wrapped later. */
    ghost predicate ListsFor(n: nat)
      reads xbuf0, xbuf1
    {
      if n <= 1 then TopList(xbuf0[..], h, g) && BaseList(xbuf1[..], 1, h, g)
      else NormalList(xbuf0[..], 0, h, g) && NormalList(xbuf1[..], 1, h, g)
    }

    /** List y, with its ends as at iMCU row n, shows that row and the end of the one before. */
    ghost predicate InPlace(y: seq<int>, n: nat)
      reads buffer
    {
      && n >= 1 && Loaded(buffer[..], y, n, h, g)
      && if n == 1 then TopList(y, h, g) else NormalList(y, (n - 1) % 2, h, g)
    }

    /** iMCU row n has been read into list (n - 1) % 2, which is in use. */
    ghost predicate Holding(n: nat)
      reads this`bufferFull, this`whichptr, this`imcuCtr, xbuf0, xbuf1, buffer
    {
      && bufferFull && imcuCtr == n && 1 <= n <= total && whichptr == (n - 1) % 2
      && ListsFor(n) && InPlace(Current()[..], n)
    }

    /** The same, with the end of the list in use changed to repeat the last row. */
    ghost predicate HoldingLast()
      reads this`bufferFull, this`whichptr, this`imcuCtr, this`intact, xbuf0, xbuf1, buffer
    {
      && Shape() && bufferFull && imcuCtr == total && whichptr == (total - 1) % 2
      && InPlace(intact, total) && BottomList(Current()[..], intact, RowsLeft(rows, h), g)
      && (total == 1 ==> BaseList(xbuf1[..], 1, h, g))
    }

    ghost var intact: seq<int>  // the list in use before its end was changed

    /** The controller between calls. */
    ghost predicate Valid()
      reads this, xbuf0, xbuf1, buffer
    {
      && Shape() && whichptr <= 1
      && match state
         case PrepareForImcu =>
           if bufferFull then imcuCtr >= 1 && Holding(imcuCtr) && Delivered(GroupNumber(imcuCtr, m, 0))
           else imcuCtr == 0 && whichptr == 0 && ListsFor(1) && Delivered(0)
         case ProcessImcu =>
           && imcuCtr >= 1 && rowgroupCtr <= rowgroupsAvail && Delivered(GroupNumber(imcuCtr, m, rowgroupCtr))
           && if imcuCtr < total then Holding(imcuCtr) && rowgroupsAvail == m - 1
              else HoldingLast() && rowgroupsAvail == groups - (total - 1) * m
         case PostponedRow =>
           if bufferFull then
             && imcuCtr >= 2 && Holding(imcuCtr) && m + 1 <= rowgroupCtr <= rowgroupsAvail == m + 2
             && GroupNumber(imcuCtr, m, 0) >= m && Delivered(GroupNumber(imcuCtr, m, 0) - 1 + (rowgroupCtr - m - 1))
           else if imcuCtr == total then Delivered(groups)
           else
             && 1 <= imcuCtr < total && whichptr == imcuCtr % 2 && ListsFor(2)
             && Loaded(buffer[..], Other()[..], imcuCtr, h, g)
             && rowgroupCtr == m + 1 && rowgroupsAvail == m + 2
             && GroupNumber(imcuCtr + 1, m, 0) >= m && Delivered(GroupNumber(imcuCtr + 1, m, 0) - 1)
    }

    /** Between calls there is always a row group to go on with, once an iMCU row has been started on. */
    ghost predicate Ready()
      reads this, xbuf0, xbuf1, buffer
    {
      Valid() && (state != PrepareForImcu ==> rowgroupCtr < rowgroupsAvail)
    }

    constructor (g: nat, m: nat, rows: nat, g0: nat, rows0: nat, total: nat, ghost groups: nat)
      requires Dimensions(rows, g, m, groups, total) && Dimensions(rows0, g0, m, groups, total)
      ensures Ready() && delivered == [] && fresh(xbuf0) && fresh(xbuf1) && fresh(buffer)
      ensures this.g == g && this.m == m && this.rows == rows && this.total == total && this.groups == groups
    {
      ShapeFits(g, m, rows, groups, total);
      this.g, this.m, this.h, this.rows := g, m, g * m, rows;
      this.g0, this.h0, this.rows0, this.total, this.groups := g0, g0 * m, rows0, total, groups;
      xbuf0 := new int[g * m + 4 * g](_ => 0);
      xbuf1 := new int[g * m + 4 * g](_ => 0);
      buffer := new int[g * m + 2 * g](_ => 0);
      rowgroupCtr, rowgroupsAvail, bufferFull, whichptr, state, imcuCtr := 0, 0, false, 0, PrepareForImcu, 0;
      delivered, intact := [], [];
      new;
      MakeFunnyPointers();
    }

    /** Row group q of the list in use is row group q + shift of the image, with the right rows around it. */
    ghost predicate Offers(q: nat, shift: int)
      requires rows > 0
      reads this`whichptr, xbuf0, xbuf1, buffer
    {
      q + shift >= 0 && Surrounded(buffer[..], Current()[..], q, q + shift, g, m, rows, total)
    }

    /** The post-processor takes one row group. */
    ghost method Take(shift: int)
      requires rows > 0 && rowgroupCtr + shift >= 0 && Delivered(rowgroupCtr + shift) && Offers(rowgroupCtr, shift)
      modifies this`delivered
      ensures Delivered(rowgroupCtr + shift + 1) && old(delivered) <= delivered
    {
      hide Expected, Window;
      delivered := delivered + [Window(buffer[..], Current()[..], rowgroupCtr, g)];
    }

    /** Hands row groups to the post-processor, which takes at most appetite of them now. */
    method PostProcess(appetite: nat, ghost shift: int)
      requires rows > 0 && rowgroupCtr <= rowgroupsAvail && rowgroupCtr + shift >= 0 && Delivered(rowgroupCtr + shift)
      requires forall q :: rowgroupCtr <= q < rowgroupsAvail ==> Offers(q, shift)
      modifies this`rowgroupCtr, this`delivered
      ensures rowgroupCtr == if appetite < rowgroupsAvail - old(rowgroupCtr) then old(rowgroupCtr) + appetite
        else rowgroupsAvail
      ensures Delivered(rowgroupCtr + shift) && old(delivered) <= delivered
      ensures appetite > 0 && old(rowgroupCtr) < rowgroupsAvail ==> |delivered| > |old(delivered)|
    {
      hide Expected, Window, Delivered, Offers;
      Counted(rowgroupCtr + shift);
      var left: nat := appetite;
      while left > 0 && rowgroupCtr < rowgroupsAvail
        invariant left <= appetite && rowgroupCtr == old(rowgroupCtr) + (appetite - left) <= rowgroupsAvail
        invariant Delivered(rowgroupCtr + shift) && old(delivered) <= delivered
      {
        Take(shift);
        rowgroupCtr := rowgroupCtr + 1;
        left := left - 1;
      }
      Counted(rowgroupCtr + shift);
    }

    lemma Counted(count: nat)
      requires rows > 0 && Delivered(count)
      ensures |delivered| == count
    {
    }

    lemma GroupsFrom(n: nat, q: nat)
      requires n >= 1
      ensures GroupNumber(n, m, q) == GroupNumber(n, m, 0) + q
    {
    }

    /** While iMCU rows follow, all row groups of the one in use but the last can be handed out. */
    lemma OffersMiddle(n: nat)
      requires Shape() && whichptr <= 1 && Holding(n) && n < total
      ensures forall q :: 0 <= q < m - 1 ==> Offers(q, GroupNumber(n, m, 0))
    {
      hide Dimensions, Window, Expected, FirstRow, GroupNumber, BaseList, Shows;
      var ws, x := buffer[..], Current()[..];
      NextFirstRow(n, h);
      forall q | 0 <= q < m - 1
        ensures Offers(q, GroupNumber(n, m, 0))
      {
        GroupsFrom(n, q);
        if n == 1 {
          TopRepeats(x);
          TopWindow(ws, x, q, g, m, h, rows, groups, total);
        } else {
          NormalShows(ws, x, (n - 1) % 2, n, h, g);
          MiddleWindow(ws, x, n, q, g, m, h, rows, groups, total);
        }
      }
    }

    lemma TopRepeats(x: seq<int>)
      requires TopList(x, h, g) && h >= 2 * g && g >= 1
      ensures forall i :: 0 <= i < g ==> x[i] == x[g]
    {
    }

    /** In the last iMCU row a row group that is not padding can be handed out. */
    lemma OffersOneOfLast(q: nat)
      requires Shape() && whichptr <= 1 && HoldingLast() && q < groups - (total - 1) * m
      ensures Offers(q, GroupNumber(total, m, 0))
    {
      hide Dimensions, Window, Expected, GroupNumber, BaseList, Shows, RowsLeft, BottomList;
      RowsLeftIs(rows, g, m, groups, total);
      var ws, x, left := buffer[..], Current()[..], RowsLeft(rows, h);
      NextFirstRow(total, h);
      if total == 1 {
        TopRepeats(intact);
      } else {
        NormalShows(ws, intact, (total - 1) % 2, total, h, g);
      }
      GroupsFrom(total, q);
      BottomWindow(ws, x, intact, left, q, g, m, h, rows, groups, total);
    }

    lemma OffersLast()
      requires Shape() && whichptr <= 1 && HoldingLast()
      ensures forall q :: 0 <= q < groups - (total - 1) * m ==> Offers(q, GroupNumber(total, m, 0))
    {
      hide HoldingLast, Offers, GroupNumber;
      forall q | 0 <= q < groups - (total - 1) * m
        ensures Offers(q, GroupNumber(total, m, 0))
      {
        OffersOneOfLast(q);
      }
    }

    /** The row group that was held back can be handed out. */
    lemma OffersPostponed(n: nat)
      requires Shape() && whichptr <= 1 && Holding(n) && n >= 2
      ensures GroupNumber(n, m, 0) >= m && Offers(m + 1, GroupNumber(n, m, 0) - 1 - (m + 1))
    {
      hide Dimensions, Window, Expected, FirstRow, GroupNumber, BaseList, Shows;
      var ws, x := buffer[..], Current()[..];
      NormalShows(ws, x, (n - 1) % 2, n, h, g);
      PostponedWindow(ws, x, n, m + 1, g, m, h, rows, groups, total);
    }

    /** Reads the next iMCU row into the list in use. */
    method DecompressData()
      requires Shape() && whichptr <= 1
      requires BaseList(Current()[..], whichptr, h, g)
      modifies buffer
      ensures Shows(buffer[..], Current()[..], g, h + g, FirstRow(imcuCtr + 1, h) - g)
      ensures forall i :: h <= i < h + 2 * g ==>
                            0 <= BaseRow(whichptr, i, h, g) < buffer.Length
                            && buffer[BaseRow(whichptr, i, h, g)] == old(buffer[BaseRow(whichptr, i, h, g)])
    {
      hide Dimensions, FirstRow, BaseRow;
      var x := Current();
      ghost var x0 := x[..];
      ghost var w := whichptr;
      ghost var at := seq(h + 2 * g, i requires 0 <= i < h + 2 * g => BaseRow(w, i, h, g));
      DifferentRows(at);
      ghost var old0 := buffer[..];
      var i := 0;
      var first := FirstRow(imcuCtr + 1, h);
      while i < h
        invariant 0 <= i <= h && x[..] == x0
        invariant forall k :: 0 <= k < i ==> buffer[at[k]] == first + k
        invariant forall k :: i <= k < h + 2 * g ==> buffer[at[k]] == old0[at[k]]
      {
        assert x0[i + g] == at[i];
        buffer[x[i + g]] := first + i;
        i := i + 1;
      }
      assert forall k :: g <= k < h + g ==> x0[k] == at[k - g];
      assert forall k :: h <= k < h + 2 * g ==> BaseRow(whichptr, k, h, g) == at[k];
    }

    lemma DifferentRows(at: seq<int>)
      requires Shape() && whichptr <= 1 && |at| == h + 2 * g
      requires forall i :: 0 <= i < |at| ==> at[i] == BaseRow(whichptr, i, h, g)
      ensures forall i :: 0 <= i < |at| ==> 0 <= at[i] < h + 2 * g
      ensures forall i, j :: 0 <= i < j < |at| ==> at[i] != at[j]
    {
      hide Dimensions, BaseRow;
      forall i | 0 <= i < |at|
        ensures 0 <= at[i] < h + 2 * g
      {
        BaseRows(whichptr, i, i, h, g);
      }
      forall i, j | 0 <= i < j < |at|
        ensures at[i] != at[j]
      {
        BaseRows(whichptr, i, j, h, g);
      }
    }

    /** Loads an iMCU row if there is none in the buffer; fails if the decoder suspends. */
    method FillBuffer(suspended: bool) returns (ok: bool)
      requires Valid() && |delivered| < groups
      modifies buffer, this`bufferFull, this`imcuCtr
      ensures ok <==> old(bufferFull) || !suspended
      ensures Valid() && (ok ==> bufferFull) && (!ok ==> !bufferFull && imcuCtr == old(imcuCtr))
    {
      if !bufferFull {
        if suspended {
          return false;
        }
        LoadRow();
      }
      ok := true;
    }

    method LoadRow()
      requires Valid() && !bufferFull && |delivered| < groups
      modifies buffer, this`bufferFull, this`imcuCtr
      ensures Valid() && bufferFull
    {
      hide Dimensions, Expected, FirstRow, GroupNumber, Loaded, NormalList, TopList, BaseList, Shows, BaseRow;
      ghost var n, ws := imcuCtr, buffer[..];
      EmptyCases();
      DecompressData();
      if n == 0 {
        FirstLoaded(buffer[..], Current()[..]);
      } else {
        LoadKeeps(ws, buffer[..], Current()[..], Other()[..], whichptr, n, h, g);
      }
      bufferFull := true;
      imcuCtr := imcuCtr + 1;
    }

    lemma FirstLoaded(ws: seq<int>, x: seq<int>)
      requires |x| == h + 4 * g && Shows(ws, x, g, h + g, FirstRow(1, h) - g)
      ensures Loaded(ws, x, 1, h, g)
    {
    }

    /** The two situations in which there is no iMCU row in the buffer. */
    lemma EmptyCases()
      requires Valid() && !bufferFull && |delivered| < groups
      ensures BaseList(Current()[..], whichptr, h, g) && BaseList(Other()[..], 1 - whichptr, h, g)
      ensures imcuCtr == 0 ==> state == PrepareForImcu && GroupNumber(1, m, 0) == 0 && 1 <= total
      ensures imcuCtr > 0 ==> state == PostponedRow && imcuCtr < total
      ensures |Current()[..]| == h + 4 * g
    {
      hide Expected, FirstRow, Loaded, BaseRow;
    }

    lemma LoadedSame(ws: seq<int>, x: seq<int>, y: seq<int>, w: nat, n: nat)
      requires BaseList(x, w, h, g) && BaseList(y, w, h, g) && Loaded(ws, x, n, h, g)
      ensures Loaded(ws, y, n, h, g)
    {
      hide BaseRow, FirstRow, Shows;
      assert forall i :: g <= i < h + 3 * g ==> y[i] == x[i];
      ShowsSame(ws, x, y, g, h + g, FirstRow(n, h) - g);
      if n > 1 {
        ShowsSame(ws, x, y, h + g, h + 3 * g, FirstRow(n, h) - h - 3 * g);
      }
    }

    lemma ShowsSame(ws: seq<int>, x: seq<int>, y: seq<int>, lo: nat, hi: nat, start: int)
      requires lo <= hi <= |x| && hi <= |y| && Shows(ws, x, lo, hi, start) && forall i :: lo <= i < hi ==> y[i] == x[i]
      ensures Shows(ws, y, lo, hi, start)
    {
    }

    /** Starts on the iMCU row in the buffer. */
    method Prepare()
      requires Valid() && bufferFull && state == PrepareForImcu
      modifies this`rowgroupCtr, this`rowgroupsAvail, this`state, this`intact, xbuf0, xbuf1
      ensures Valid() && bufferFull && state == ProcessImcu && rowgroupCtr < rowgroupsAvail
    {
      hide Dimensions, Expected, FirstRow, Loaded, NormalList, TopList, BaseRow, Shows, RowsLeft, BottomList;
      SomeGroups();
      rowgroupCtr := 0;
      rowgroupsAvail := m - 1;
      intact := Current()[..];
      TopIsBase();
      if imcuCtr == total {
        SetBottomPointers();
      }
      state := ProcessImcu;
    }

    /** An iMCU row has at least two row groups; the last one has at least one that is not padding. */
    lemma SomeGroups()
      requires Shape()
      ensures m >= 2 && groups > (total - 1) * m
    {
      RowsLeftIs(rows, g, m, groups, total);
    }

    lemma TopIsBase()
      requires imcuCtr >= 1 && Holding(imcuCtr)
      ensures imcuCtr == 1 ==> BaseList(xbuf1[..], 1, h, g) && whichptr == 0
    {
    }

    /** Goes on to the next iMCU row; the last row group of this one is held back. */
    method NextImcu()
      requires Valid() && bufferFull && state == ProcessImcu && rowgroupCtr == rowgroupsAvail
      modifies this`rowgroupCtr, this`rowgroupsAvail, this`state, this`bufferFull, this`whichptr, xbuf0, xbuf1
      ensures Valid() && !bufferFull && state == PostponedRow && rowgroupCtr < rowgroupsAvail
    {
      hide Dimensions, Expected, FirstRow, Loaded, NormalList, TopList, BaseList, BaseRow, Shows, RowsLeft, BottomList,
        GroupNumber;
      hide InPlace, Delivered, Holding, HoldingLast, Valid, Shape;
      ghost var n, x := imcuCtr, Current()[..];
      LastOfRow();
      if imcuCtr == 1 {
        SetWraparoundPointers();
      }
      ghost var y := Current()[..];
      if n < total {
        CurrentStillLoaded(x, y, n);
      }
      whichptr := 1 - whichptr;
      bufferFull := false;
      rowgroupCtr := m + 1;
      rowgroupsAvail := m + 2;
      state := PostponedRow;
      HoldsBack();
    }

    /** Between two iMCU rows, with the last row group of the one before held back. */
    lemma HoldsBack()
      requires Shape() && whichptr <= 1 && state == PostponedRow && !bufferFull
      requires rowgroupCtr == m + 1 && rowgroupsAvail == m + 2 && 1 <= imcuCtr <= total && whichptr == imcuCtr % 2
      requires imcuCtr == total ==> Delivered(groups)
      requires imcuCtr < total ==>
                 && ListsFor(2) && Loaded(buffer[..], Other()[..], imcuCtr, h, g)
                 && GroupNumber(imcuCtr + 1, m, 0) >= m && Delivered(GroupNumber(imcuCtr + 1, m, 0) - 1)
      ensures Valid()
    {
      hide Dimensions, Expected, FirstRow, Loaded, ListsFor, GroupNumber, Delivered;
    }

    lemma CurrentStillLoaded(x: seq<int>, y: seq<int>, n: nat)
      requires n >= 1 && InPlace(x, n) && if n == 1 then NormalList(y, 0, h, g) else y == x
      ensures Loaded(buffer[..], y, n, h, g)
    {
      hide FirstRow, BaseRow, NormalRow;
      if n == 1 {
        NormalIsBase(y, 0, h, g);
        LoadedSame(buffer[..], x, y, 0, n);
      }
    }

    /** At the end of an iMCU row: where the count stands, and what the lists are. */
    lemma LastOfRow()
      requires Valid() && bufferFull && state == ProcessImcu && rowgroupCtr == rowgroupsAvail
      ensures Shape() && rows > 0 && 1 <= imcuCtr <= total && whichptr == (imcuCtr - 1) % 2
      ensures xbuf0 != xbuf1 && xbuf0 != buffer && xbuf1 != buffer
      ensures imcuCtr == total ==> Delivered(groups)
      ensures imcuCtr < total ==>
                && GroupNumber(imcuCtr + 1, m, 0) >= m && Delivered(GroupNumber(imcuCtr + 1, m, 0) - 1)
                && InPlace(Current()[..], imcuCtr)
                && (imcuCtr == 1 ==> BaseList(xbuf0[..], 0, h, g) && BaseList(xbuf1[..], 1, h, g))
                && (imcuCtr > 1 ==> NormalList(xbuf0[..], 0, h, g) && NormalList(xbuf1[..], 1, h, g))
    {
      hide Dimensions, Expected, FirstRow, Loaded, NormalList, BaseRow, Shows, RowsLeft, BottomList;
      NextGroups(imcuCtr);
    }

    lemma NextGroups(n: nat)
      requires n >= 1 && m >= 1
      ensures GroupNumber(n + 1, m, 0) == GroupNumber(n, m, m - 1) + 1 >= m
    {
      Sum3(n - 1, 1, m);
      ProductKeepsOrder(0, n - 1, m);
    }

    /** Hands out the row group held back; ready says that the iMCU row in the buffer can be started on. */
    method FeedPostponed(appetite: nat, filled: bool) returns (ready: bool)
      requires Valid() && bufferFull && state == PostponedRow
      modifies this`rowgroupCtr, this`delivered, this`state
      ensures Valid() && bufferFull && old(delivered) <= delivered
      ensures ready ==> state == PrepareForImcu
      ensures state == PrepareForImcu || (state == PostponedRow && rowgroupCtr < rowgroupsAvail)
      ensures appetite > 0 && old(rowgroupCtr < rowgroupsAvail) ==> |delivered| > |old(delivered)|
    {
      hide Dimensions, Expected, FirstRow, BaseList, Shows, RowsLeft, BottomList, GroupNumber;
      hide InPlace, ListsFor, Offers;
      OffersPostponed(imcuCtr);
      PostProcess(appetite, GroupNumber(imcuCtr, m, 0) - 1 - (m + 1));
      if rowgroupCtr < rowgroupsAvail {
        return false;
      }
      state := PrepareForImcu;
      ready := !filled;
    }

    /** Hands out row groups of the iMCU row in the buffer. */
    method FeedImcu(appetite: nat)
      requires Valid() && bufferFull && state == ProcessImcu
      modifies this`rowgroupCtr, this`delivered
      ensures Valid() && bufferFull && state == ProcessImcu && old(delivered) <= delivered
      ensures appetite > 0 && old(rowgroupCtr < rowgroupsAvail) ==> |delivered| > |old(delivered)|
    {
      hide Dimensions, Expected, FirstRow, BaseList, Shows, RowsLeft, BottomList, GroupNumber;
      hide InPlace, ListsFor, Offers;
      GroupsFrom(imcuCtr, rowgroupCtr);
      if imcuCtr < total {
        OffersMiddle(imcuCtr);
      } else {
        OffersLast();
      }
      PostProcess(appetite, GroupNumber(imcuCtr, m, 0));
      GroupsFrom(imcuCtr, rowgroupCtr);
    }

    /**
     * One call: suspended says that the decoder has no iMCU row ready, appetite1 and appetite2 how many row groups the
     * post-processor takes in its two turns, filled that the first turn filled the output buffer exactly.  Unless the
     * decoder suspends or the post-processor takes nothing, at least one row group is handed out.
     */
    method ProcessData(suspended: bool, appetite1: nat, filled: bool, appetite2: nat)
      requires Ready() && |delivered| < groups
      modifies this, xbuf0, xbuf1, buffer
      ensures Ready() && old(delivered) <= delivered
      ensures !suspended && appetite1 > 0 && appetite2 > 0 ==> |delivered| > |old(delivered)|
    {
      hide Valid;
      var ok := FillBuffer(suspended);
      if !ok {
        return;
      }
      if state == PostponedRow {
        var ready := FeedPostponed(appetite1, filled);
        if !ready {
          return;
        }
      }
      if state == PrepareForImcu {
        Prepare();
      }
      FeedImcu(appetite2);
      if rowgroupCtr < rowgroupsAvail {
        return;
      }
      CounterStops();
      NextImcu();
    }

    lemma CounterStops()
      requires Valid() && state == ProcessImcu
      ensures rowgroupCtr <= rowgroupsAvail
    {
      hide Dimensions, Expected;
    }

    /** The last iMCU row has been used up. */
    predicate AtEnd()
      reads this`state, this`bufferFull, this`imcuCtr
    {
      state == PostponedRow && !bufferFull && imcuCtr == total
    }

    /** The last iMCU row is used up exactly when all row groups have been handed out. */
    lemma EndMeansAll()
      requires Ready()
      ensures rows > 0 && |delivered| <= groups && Delivered(|delivered|)
      ensures AtEnd() <==> |delivered| == groups
    {
      hide Expected, Loaded, BaseList, TopList, NormalList, BottomList, RowsLeft, Dimensions;
      SomeGroups();
      StillBelow();
    }

    /** Before the end of an iMCU row there are row groups to come. */
    lemma StillBelow()
      requires Shape()
      ensures forall n, q: nat :: 1 <= n < total && q < m ==> GroupNumber(n, m, q) < groups
      ensures forall q: nat :: q < groups - (total - 1) * m ==> GroupNumber(total, m, q) < groups
      ensures GroupNumber(total, m, 0) < groups
    {
      SomeGroups();
      forall n, q: nat | 1 <= n < total && q < m
        ensures GroupNumber(n, m, q) < groups
      {
        ProductKeepsOrder(n, total - 1, m);
        Sum3(n - 1, 1, m);
      }
    }
  }

  // ---------------------------------------------------------------------------------------------
  // A whole pass
  // ---------------------------------------------------------------------------------------------

  /** How one call goes: see ProcessData. */
  datatype Call = Call(suspended: bool, appetite1: nat, filled: bool, appetite2: nat)

  /** The decoder has data, and the post-processor room. */
  predicate Productive(c: Call) {
    !c.suspended && c.appetite1 > 0 && c.appetite2 > 0
  }

  function ProductiveCalls(calls: seq<Call>): (n: nat)
  {
    if calls == [] then 0
    else ProductiveCalls(calls[..|calls| - 1]) + if Productive(calls[|calls| - 1]) then 1 else 0
  }

  lemma OneMoreCall(calls: seq<Call>, i: nat)
    requires i < |calls|
    ensures ProductiveCalls(calls[..i + 1]) == ProductiveCalls(calls[..i]) + if Productive(calls[i]) then 1 else 0
  {
    assert calls[..i + 1][..i] == calls[..i];
  }

  /**
   * The rows around row group number k are the true ones, or the first or last row repeated; only below the last group
   * of the last but one iMCU row, and then always, a row below the image is something else.
   */
  predicate TrueNeighbours(w: seq<int>, k: nat, g: nat, m: nat, rows: nat, total: nat)
    requires rows > 0
  {
    && |w| == 3 * g
    && forall j :: 0 <= j < 3 * g ==>
         var r := k * g - g + j;
         w[j] == Clamp(r, rows) <==> !(k + 1 == (total - 1) * m && r >= rows)
  }

  lemma WindowIsTrue(k: nat, g: nat, m: nat, rows: nat, groups: nat, total: nat)
    requires Dimensions(rows, g, m, groups, total) && rows > 0 && k < groups
    ensures TrueNeighbours(Expected(k, g, m, rows, total), k, g, m, rows, total)
  {
    hide Dimensions, Expected;
    forall j | 0 <= j < 3 * g
      ensures var r := k * g - g + j;
              Expected(k, g, m, rows, total)[j] == Clamp(r, rows) <==> !(k + 1 == (total - 1) * m && r >= rows)
    {
      ContextIsTrue(k, j, g, m, rows, groups, total);
    }
  }

  /**
   * An output pass under any schedule of suspensions and appetites. As many productive calls as there are row groups
   * are always enough to finish it, and then every row group of the image has been handed out, once, in order, between
   * the rows expected around it, down to the bottom of the image.
   */
  method OutputPass(main: MainController, calls: seq<Call>) returns (finished: bool)
    requires main.Ready() && main.delivered == []
    modifies main, main.xbuf0, main.xbuf1, main.buffer
    ensures main.Ready() && main.rows > 0 && |main.delivered| <= main.groups
    ensures finished ==> main.Delivered(main.groups)
    ensures !finished ==> main.Delivered(|main.delivered|) && |main.delivered| < main.groups
    ensures forall k :: 0 <= k < |main.delivered| ==>
                          TrueNeighbours(main.delivered[k], k, main.g, main.m, main.rows, main.total)
    ensures ProductiveCalls(calls) >= main.groups ==> finished
  {
    hide MainController.Ready, MainController.AtEnd, Expected, TrueNeighbours;
    var i: nat := 0;
    assert calls[..i] == [];
    main.EndMeansAll();
    while i < |calls| && !main.AtEnd()
      invariant main.Ready() && i <= |calls| && ProductiveCalls(calls[..i]) <= |main.delivered|
      invariant main.rows > 0 && |main.delivered| <= main.groups && main.Delivered(|main.delivered|)
      invariant main.AtEnd() <==> |main.delivered| == main.groups
    {
      OneMoreCall(calls, i);
      var c := calls[i];
      main.ProcessData(c.suspended, c.appetite1, c.filled, c.appetite2);
      main.EndMeansAll();
      i := i + 1;
    }
    assert calls[..|calls|] == calls;
    finished := main.AtEnd();
    DeliveredTrue(main);
  }

  lemma DeliveredTrue(main: MainController)
    requires main.Ready() && main.rows > 0 && main.Delivered(|main.delivered|) && |main.delivered| <= main.groups
    ensures forall k :: 0 <= k < |main.delivered| ==>
                          TrueNeighbours(main.delivered[k], k, main.g, main.m, main.rows, main.total)
  {
    hide Expected, TrueNeighbours, Dimensions;
    forall k | 0 <= k < |main.delivered|
      ensures TrueNeighbours(main.delivered[k], k, main.g, main.m, main.rows, main.total)
    {
      WindowIsTrue(k, main.g, main.m, main.rows, main.groups, main.total);
    }
  }

  /** Around every row group the rows are the true neighbours, or the first or last row repeated, with one exception. */
  lemma ContextIsTrue(k: nat, j: nat, g: nat, m: nat, rows: nat, groups: nat, total: nat)
    requires Dimensions(rows, g, m, groups, total) && rows > 0 && k < groups && j < 3 * g
    ensures var r := k * g - g + j;
            Expected(k, g, m, rows, total)[j] == Clamp(r, rows) <==> !(k + 1 == (total - 1) * m && r >= rows)
  {
    hide Dimensions;
    ExpectedAt(k, g, m, rows, total, j);
  }

  /** The rows directly above and below a row group are always right. */
  lemma AdjacentRowsAreTrue(k: nat, g: nat, m: nat, rows: nat, groups: nat, total: nat)
    requires Dimensions(rows, g, m, groups, total) && rows > 0 && k < groups
    ensures Expected(k, g, m, rows, total)[g - 1] == Clamp(k * g - 1, rows)
    ensures Expected(k, g, m, rows, total)[2 * g] == Clamp(k * g + g, rows)
  {
    hide Expected;
    ExpectedAt(k, g, m, rows, total, g - 1);
    ExpectedAt(k, g, m, rows, total, 2 * g);
    if k + 1 == (total - 1) * m {
      ProductKeepsOrder(k + 1, groups - 1, g);
      Sum3(k, 1, g);
    }
  }

  /**
   * 33 rows in row groups of two and iMCU rows of eight groups: below group 15, handed out when the third iMCU row is
   * there, the second row is padding, not the last row repeated.
   */
  lemma PaddingBelow()
    ensures Dimensions(33, 2, 8, 17, 3)
    ensures Expected(15, 2, 8, 33, 3)[5] == 33 != Clamp(33, 33)
  {
    ExpectedAt(15, 2, 8, 33, 3, 5);
  }

  /** Row group q of list x is row group k of the image, with the right rows around it. */
  predicate Surrounded(ws: seq<int>, x: seq<int>, q: nat, k: nat, g: nat, m: nat, rows: nat, total: nat)
    requires rows > 0
  {
    && (q + 3) * g <= |x| && (forall i :: q * g <= i < (q + 3) * g ==> 0 <= x[i] < |ws|)
    && Window(ws, x, q, g) == Expected(k, g, m, rows, total)
  }

  lemma ShapeFits(g: nat, m: nat, rows: nat, groups: nat, total: nat)
    requires Dimensions(rows, g, m, groups, total)
    ensures g * m >= 2 * g && rows > 0
  {
    ProductKeepsOrder(2, m, g);
    ProductKeepsOrder(0, groups - 1, g);
  }
}
