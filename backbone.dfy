/** `regions` (tool/summary.py:17-47): the rows of the aligner's backbone
    table are filtered, with sign and zero tests, into four category tables
    of coordinate pairs. The filters are pandas boolean masks, so each table
    keeps the input order of the rows it selects. */
module Backbone {

  /** One backbone row: (seq0_leftend, seq0_rightend, seq1_leftend,
      seq1_rightend); seq0 is the reference, seq1 the assembly. */
  datatype Row = Row(seq0Left: int, seq0Right: int, seq1Left: int, seq1Right: int)

  /** A row of a two-column category table: (start, end). */
  datatype Interval = Interval(start: int, end: int)

  datatype Categories = Categories(
    mapped: seq<Interval>,
    unmapped: seq<Interval>,
    conflict: seq<Interval>,
    reverse: seq<Interval>)

  /** `table[mask]`: the elements the mask keeps, in order. */
  function Where<T>(s: seq<T>, keep: T -> bool): (r: seq<T>)
    ensures |r| <= |s|
    ensures forall x :: x in r ==> x in s && keep(x)
  {
    if s == [] then [] else (if keep(s[0]) then [s[0]] else []) + Where(s[1..], keep)
  }

  /** `table[[c0, c1]]`: each row projected to two columns. */
  function Columns<T, U>(s: seq<T>, column: T -> U): seq<U>
  {
    seq(|s|, i requires 0 <= i < |s| => column(s[i]))
  }

  function Seq0(r: Row): Interval { Interval(r.seq0Left, r.seq0Right) }

  function Seq1(r: Row): Interval { Interval(r.seq1Left, r.seq1Right) }

  predicate Seq1Positive(r: Row) { r.seq1Left > 0 && r.seq1Right > 0 }


  predicate BothPositive(iv: Interval) { iv.start > 0 && iv.end > 0 }

  predicate BothNegative(iv: Interval) { iv.start < 0 && iv.end < 0 }

  /** Both seq1 endpoints zero: the reference stretch has no counterpart in
      the assembly. */
  predicate IsUnmapped(r: Row) { r.seq1Left == 0 && r.seq1Right == 0 }

  /** Both seq0 endpoints zero: the assembly stretch has no counterpart in
      the reference. */
  predicate IsConflict(r: Row) { r.seq0Left == 0 && r.seq0Right == 0 }

  /** Lines 25-27, repeated verbatim at lines 38-40: rows with positive seq1
      endpoints, projected to seq0, then kept where both seq0 endpoints are
      positive. */
  function MappedLocations(rows: seq<Row>): seq<Interval>
  {
    Where(Columns(Where(rows, Seq1Positive), Seq0), BothPositive)
  }

  /** Lines 30-31. */
  function UnmappedLocations(rows: seq<Row>): seq<Interval>
  {
    Columns(Where(rows, IsUnmapped), Seq0)
  }

  /** Lines 34-35: the conflict table carries the seq1 (assembly) pair. */
  function ConflictLocations(rows: seq<Row>): seq<Interval>
  {
    Columns(Where(rows, IsConflict), Seq1)
  }

  /** Lines 43-45: the same selection as the mapped table, run over the
      whole backbone, keeping the rows whose seq0 endpoints are negative. */
  function ReverseLocations(rows: seq<Row>): seq<Interval>
  {
    Where(Columns(Where(rows, Seq1Positive), Seq0), BothNegative)
  }

  function Regions(rows: seq<Row>): Categories
  {
    Categories(MappedLocations(rows), UnmappedLocations(rows),
               ConflictLocations(rows), ReverseLocations(rows))
  }

  // What each category means for a single row.

  predicate IsMapped(r: Row) { r.seq0Left > 0 && r.seq0Right > 0 && r.seq1Left > 0 && r.seq1Right > 0 }

  predicate IsReverse(r: Row) { r.seq1Left > 0 && r.seq1Right > 0 && r.seq0Left < 0 && r.seq0Right < 0 }

  /** A row in no category: it fails every one of the four tests. */
  predicate IsUnclassified(r: Row) { !IsMapped(r) && !IsUnmapped(r) && !IsConflict(r) && !IsReverse(r) }

  predicate IsAllZero(r: Row) { IsUnmapped(r) && IsConflict(r) }

  function Concat(a: Categories, b: Categories): Categories
  {
    Categories(a.mapped + b.mapped, a.unmapped + b.unmapped, a.conflict + b.conflict, a.reverse + b.reverse)
  }

  lemma {:induction false} WhereAppend<T>(a: seq<T>, b: seq<T>, keep: T -> bool)
    ensures Where(a + b, keep) == Where(a, keep) + Where(b, keep)
  {
    if a == [] {
      assert a + b == b;
    } else {
      assert (a + b)[1..] == a[1..] + b;
      WhereAppend(a[1..], b, keep);
    }
  }

  lemma WhereSingle<T>(x: T, keep: T -> bool)
    ensures Where([x], keep) == if keep(x) then [x] else []
  {
    assert [x][1..] == [];
  }

  /** A mask selects nothing exactly when no element passes it. */
  lemma {:induction false} WhereEmpty<T>(s: seq<T>, keep: T -> bool)
    ensures Where(s, keep) == [] <==> forall i :: 0 <= i < |s| ==> !keep(s[i])
  {
    if s != [] {
      WhereEmpty(s[1..], keep);
      assert forall i :: 1 <= i < |s| ==> s[i] == s[1..][i - 1];
    }
  }

  /** Selecting on a projected column is selecting the rows first: filter,
      project, filter again equals one filter on the combined test, then
      the projection. */
  lemma {:induction false} WhereColumns<T, U>(s: seq<T>, first: T -> bool, column: T -> U,
                                              second: U -> bool, both: T -> bool)
    requires forall x :: both(x) == (first(x) && second(column(x)))
    ensures Where(Columns(Where(s, first), column), second) == Columns(Where(s, both), column)
  {
    if s != [] {
      assert s == [s[0]] + s[1..];
      WhereAppend([s[0]], s[1..], first);
      WhereAppend([s[0]], s[1..], both);
      WhereSingle(s[0], first);
      WhereSingle(s[0], both);
      ColumnsAppend(Where([s[0]], first), Where(s[1..], first), column);
      ColumnsAppend(Where([s[0]], both), Where(s[1..], both), column);
      var head := Columns(Where([s[0]], first), column);
      WhereAppend(head, Columns(Where(s[1..], first), column), second);
      if first(s[0]) {
        WhereSingle(column(s[0]), second);
      }
      WhereColumns(s[1..], first, column, second, both);
    }
  }

  lemma ColumnsAppend<T, U>(a: seq<T>, b: seq<T>, column: T -> U)
    ensures Columns(a + b, column) == Columns(a, column) + Columns(b, column)
  {
  }

  /** The classification of a table is the concatenation of the
      classifications of its parts: every category table keeps the input
      order of its rows. */
  lemma RegionsAppend(a: seq<Row>, b: seq<Row>)
    ensures Regions(a + b) == Concat(Regions(a), Regions(b))
  {
    WhereAppend(a, b, Seq1Positive);
    WhereAppend(a, b, IsUnmapped);
    WhereAppend(a, b, IsConflict);
    ColumnsAppend(Where(a, Seq1Positive), Where(b, Seq1Positive), Seq0);
    ColumnsAppend(Where(a, IsUnmapped), Where(b, IsUnmapped), Seq0);
    ColumnsAppend(Where(a, IsConflict), Where(b, IsConflict), Seq1);
    var pa, pb := Columns(Where(a, Seq1Positive), Seq0), Columns(Where(b, Seq1Positive), Seq0);
    WhereAppend(pa, pb, BothPositive);
    WhereAppend(pa, pb, BothNegative);
  }

  /** Which tables one row lands in: mapped when all four endpoints are
      positive, unmapped when both seq1 endpoints are zero, conflict when both
      seq0 endpoints are zero, reverse when the seq1 endpoints are positive
      and the seq0 endpoints negative. */
  lemma RegionsOfRow(r: Row)
    ensures Regions([r]) == Categories(
      if IsMapped(r) then [Seq0(r)] else [],
      if IsUnmapped(r) then [Seq0(r)] else [],
      if IsConflict(r) then [Seq1(r)] else [],
      if IsReverse(r) then [Seq0(r)] else [])
  {
    WhereSingle(r, Seq1Positive);
    WhereSingle(r, IsUnmapped);
    WhereSingle(r, IsConflict);
    WhereSingle(Seq0(r), BothPositive);
    WhereSingle(Seq0(r), BothNegative);
  }

  /** Together with RegionsAppend this determines every table: each is the
      rows satisfying its category test, projected, in input order. Exactly
      these rows are selected. */
  lemma RegionsExact(rows: seq<Row>)
    ensures Regions(rows) == Categories(
      Columns(Where(rows, IsMapped), Seq0),
      Columns(Where(rows, IsUnmapped), Seq0),
      Columns(Where(rows, IsConflict), Seq1),
      Columns(Where(rows, IsReverse), Seq0))
  {
    WhereColumns(rows, Seq1Positive, Seq0, BothPositive, IsMapped);
    WhereColumns(rows, Seq1Positive, Seq0, BothNegative, IsReverse);
  }

  /** At most one of mapped, reverse and conflict holds of a row; an
      all-zero row is both unmapped and conflict, so the four categories do
      not partition the rows; a row whose seq1 endpoints are negative is in
      none unless its seq0 endpoints are both zero (the conflict test looks
      at seq0 only); and a reverse row exists. */
  lemma CategoriesOverlap()
    ensures forall r :: !(IsMapped(r) && IsReverse(r)) && !(IsMapped(r) && IsConflict(r)) &&
                        !(IsReverse(r) && IsConflict(r))
    ensures IsUnmapped(Row(0, 0, 0, 0)) && IsConflict(Row(0, 0, 0, 0))
    ensures forall a, b, c, d :: c < 0 && d < 0 ==> (IsUnclassified(Row(a, b, c, d)) <==> !(a == 0 && b == 0))
    ensures Regions([Row(-20, -10, 5, 15)]).reverse == [Interval(-20, -10)]
  {
    RegionsOfRow(Row(-20, -10, 5, 15));
  }

  /** The mapped and reverse tables never share an interval. */
  lemma MappedReverseDisjoint(rows: seq<Row>)
    ensures forall iv :: iv in Regions(rows).mapped ==> iv !in Regions(rows).reverse
  {
  }

  /** Row accounting: the four tables together hold one entry per row, less
      the rows in no category, plus one more for every all-zero row (which
      sits in both the unmapped and the conflict table). */
  lemma {:induction false} RegionCounts(rows: seq<Row>)
    ensures var c := Regions(rows);
      |c.mapped| + |c.unmapped| + |c.conflict| + |c.reverse| + |Where(rows, IsUnclassified)|
        == |rows| + |Where(rows, IsAllZero)|
  {
    if rows != [] {
      assert rows == [rows[0]] + rows[1..];
      RegionsAppend([rows[0]], rows[1..]);
      RegionsOfRow(rows[0]);
      WhereAppend([rows[0]], rows[1..], IsUnclassified);
      WhereAppend([rows[0]], rows[1..], IsAllZero);
      RegionCounts(rows[1..]);
    }
  }
}
