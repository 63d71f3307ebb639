/**
 * The decompressor's main buffer controller with context rows: two lists of row pointers into one workspace, arranged
 * so that the rows above and below a row group are always adjacent to it in the list.
 */
module ContextRows {
  import opened Integers

  // ---------------------------------------------------------------------------------------------
  // Dimensions
  // ---------------------------------------------------------------------------------------------

  function CeilDiv(a: nat, b: nat): (q: nat)
    requires b > 0
  {
    (a + b - 1) / b
  }

  lemma ProductOrder(a: int, b: int, c: nat)
    requires a * c < b * c
    ensures a < b
  {
  }

  lemma ProductKeepsOrder(a: int, b: int, c: nat)
    requires a <= b
    ensures a * c <= b * c
    ensures a < b && c > 0 ==> a * c < b * c
  {
  }

  lemma CeilBounds(a: nat, b: nat)
    requires a > 0 && b > 0
    ensures CeilDiv(a, b) > 0 && (CeilDiv(a, b) - 1) * b < a <= CeilDiv(a, b) * b
  {
    var v := a + b - 1;
    assert v == v / b * b + v % b;
    LeastOne(v, b);
    PreviousMultiple(v / b, b);
  }

  lemma LeastOne(v: nat, b: nat)
    requires v >= b > 0
    ensures v / b >= 1
  {
  }

  /**
   * A component of an image: rowgroup rows in a row group, height rows in an iMCU row, rows in all.
   * imageHeight is scaled by height / (maxV * blockSize).
   */
  lemma GroupCount(imageHeight: nat, unit: nat, m: nat, rowgroup: nat)
    requires imageHeight > 0 && unit > 0 && m > 0 && rowgroup > 0
    ensures var rows := CeilDiv(imageHeight * (rowgroup * m), unit);
            var groups := CeilDiv(imageHeight * m, unit);
            groups > 0 && (groups - 1) * rowgroup < rows <= groups * rowgroup
  {
    hide CeilDiv;
    Positive(imageHeight, m);
    Positive(rowgroup, m);
    Positive(imageHeight, rowgroup * m);
    var rows, groups := CeilDiv(imageHeight * (rowgroup * m), unit), CeilDiv(imageHeight * m, unit);
    CeilBounds(imageHeight * (rowgroup * m), unit);
    CeilBounds(imageHeight * m, unit);
    ProductKeepsOrder(imageHeight * m, groups * unit, rowgroup);
    ProductKeepsOrder((groups - 1) * unit, imageHeight * m, rowgroup);
    Commute(imageHeight, m, rowgroup);
    Commute2(groups, unit, rowgroup);
    Commute2(groups - 1, unit, rowgroup);
    ProductOrder(rows - 1, groups * rowgroup, unit);
    ProductOrder((groups - 1) * rowgroup, rows, unit);
  }

  lemma Positive(a: nat, b: nat)
    requires a > 0 && b > 0
    ensures a * b > 0
  {
  }

  lemma Commute(a: nat, m: nat, g: nat)
    ensures a * (g * m) == a * m * g
  {
  }

  lemma Commute2(a: int, b: nat, c: nat)
    ensures a * b * c == a * c * b
  {
  }

  /** The last iMCU row holds at least one row group and at most m. */
  lemma ImcuCount(imageHeight: nat, unit: nat, m: nat)
    requires imageHeight > 0 && unit > 0 && m > 0
    ensures var groups, total := CeilDiv(imageHeight * m, unit), CeilDiv(imageHeight, unit);
            total > 0 && (total - 1) * m < groups <= total * m
  {
    hide CeilDiv;
    Positive(imageHeight, m);
    var groups, total := CeilDiv(imageHeight * m, unit), CeilDiv(imageHeight, unit);
    CeilBounds(imageHeight * m, unit);
    CeilBounds(imageHeight, unit);
    ProductKeepsOrder((total - 1) * unit, imageHeight, m);
    ProductKeepsOrder(imageHeight, total * unit, m);
    Commute2(total, unit, m);
    Commute2(total - 1, unit, m);
    ProductOrder((total - 1) * m, groups, unit);
    ProductOrder(groups - 1, total * m, unit);
  }

  /** rows sample rows make up groups row groups, which fill total iMCU rows of m row groups, the last one in part. */
  ghost predicate Dimensions(rows: nat, g: nat, m: nat, groups: nat, total: nat) {
    && m >= 2 && g >= 1 && groups >= 1 && total >= 1
    && (groups - 1) * g < rows <= groups * g
    && (total - 1) * m < groups <= total * m
  }

  /**
   * The row counts the decompressor derives from the image height fit together, in the same way for every component.
   */
  lemma DimensionsFromImage(imageHeight: nat, unit: nat, m: nat, g: nat)
    requires imageHeight > 0 && unit > 0 && m >= 2 && g >= 1
    ensures Dimensions(CeilDiv(imageHeight * (g * m), unit), g, m, CeilDiv(imageHeight * m, unit),
      CeilDiv(imageHeight, unit))
  {
    hide CeilDiv;
    GroupCount(imageHeight, unit, m, g);
    ImcuCount(imageHeight, unit, m);
  }

  /** How many of a component's sample rows lie in the last iMCU row. */
  function RowsLeft(rows: nat, height: nat): (left: nat)
    requires height > 0
  {
    if rows % height == 0 then height else rows % height
  }

  lemma RowsLeftIs(rows: nat, g: nat, m: nat, groups: nat, total: nat)
    requires Dimensions(rows, g, m, groups, total)
    ensures g * m > 0
    ensures var left := RowsLeft(rows, g * m);
            && 1 <= left <= g * m && rows == (total - 1) * (g * m) + left
            && (left - 1) / g + 1 == groups - (total - 1) * m
  {
    var h, t := g * m, total - 1;
    Positive(g, m);
    ProductKeepsOrder(t * m, groups - 1, g);
    ProductKeepsOrder(groups, total * m, g);
    Regroup(t, m, g);
    Regroup(total, m, g);
    var left := rows - t * h;
    PreviousMultiple(total, h);
    QuotientIs(rows, h, t, left);
    var k := groups - t * m;
    ProductMinus(groups, t * m, g);
    ProductMinus(groups - 1, t * m, g);
    UnitQuotient(left, g, k);
  }

  lemma ProductMinus(a: int, b: int, g: nat)
    ensures (a - b) * g == a * g - b * g
  {
  }

  lemma QuotientIs(rows: nat, h: nat, t: nat, left: nat)
    requires h > 0 && rows == t * h + left && 1 <= left <= h
    ensures RowsLeft(rows, h) == left
  {
    if left == h {
      UniqueQuotient(h, rows / h, rows % h, t + 1, 0);
    } else {
      UniqueQuotient(h, rows / h, rows % h, t, left);
    }
  }

  lemma UnitQuotient(left: nat, g: nat, k: int)
    requires g > 0 && left >= 1 && (k - 1) * g < left <= k * g
    ensures (left - 1) / g + 1 == k
  {
    PreviousMultiple(k, g);
    UniqueQuotient(g, (left - 1) / g, (left - 1) % g, k - 1, left - 1 - (k - 1) * g);
  }
}
