/** `refstats` (tool/summary.py:241-281): the one-row reference summary,
    built from the reference and the four category tables. */
module RefStats {
  import opened Wrappers
  import opened PyText
  import opened Backbone
  import opened UnmapSum

  /** `abs(end - start)` for one table row. */
  function Span(iv: Interval): nat
  {
    if iv.end >= iv.start then iv.end - iv.start else iv.start - iv.end
  }

  /** The running sum the loops of lines 244-259 build, row by row. */
  function SpanSum(ivs: seq<Interval>): nat
  {
    if ivs == [] then 0 else SpanSum(ivs[..|ivs| - 1]) + Span(ivs[|ivs| - 1])
  }

  lemma {:induction false} SpanSumAppend(a: seq<Interval>, b: seq<Interval>)
    ensures SpanSum(a + b) == SpanSum(a) + SpanSum(b)
    decreases |b|
  {
    if b == [] {
      assert a + b == a;
    } else {
      assert (a + b)[..|a + b| - 1] == a + b[..|b| - 1];
      SpanSumAppend(a, b[..|b| - 1]);
    }
  }

  /** The columns of the summary table, in order. The two fractions are
      percentages, kept as exact ratios. */
  datatype ReferenceSummary = ReferenceSummary(
    gcContent: Ratio,
    length: nat,
    numberMappedRegions: nat,
    numberUnmappedRegions: nat,
    fractionMapped: Ratio,
    fractionUnmapped: Ratio)

  /** Lines 244-268. Each sum starts as the Python int 0, and once its loop
      has run it is a numpy int64, because `iloc` yields int64 scalars. On an
      empty reference (whose GC content is 0), the division of line 267 or
      268 raises `ZeroDivisionError` only when its numerator is still the
      Python int, that is when its tables are all empty. An int64 numerator
      divides to numpy's inf, or nan for 0/0, kept here as a ratio with
      denominator 0. The dict literal is evaluated in order, but both
      failures are the same exception. Conflict spans are assembly
      coordinates, counted towards the reference's mapped fraction all the
      same. */
  function ReferenceStats(reference: string, c: Categories): Result<ReferenceSummary, PyError>
  {
    if |reference| == 0 && ((c.mapped == [] && c.conflict == [] && c.reverse == []) || c.unmapped == [])
    then Err(ZeroDivisionError)
    else Ok(ReferenceSummary(
      GcContent(reference),
      |reference|,
      |c.mapped| + |c.reverse| + |c.conflict|,
      |c.unmapped|,
      Ratio(100 * (SpanSum(c.mapped) + SpanSum(c.conflict) + SpanSum(c.reverse)), |reference|),
      Ratio(100 * SpanSum(c.unmapped), |reference|)))
  }

  /** One of the loops of lines 244-259. */
  method SumSpans(locations: seq<Interval>) returns (total: nat)
    ensures total == SpanSum(locations)
  {
    total := 0;
    for i := 0 to |locations|
      invariant total == SpanSum(locations[..i])
    {
      assert locations[..i + 1][..i] == locations[..i];
      total := total + Span(locations[i]);
    }
    assert locations[..|locations|] == locations;
  }

  /** `refstats(reference, mapped, unmapped, conflict, reverse)`. */
  method ReferenceStatistics(reference: string, mapped: seq<Interval>, unmapped: seq<Interval>,
                             conflict: seq<Interval>, reverse: seq<Interval>)
    returns (r: Result<ReferenceSummary, PyError>)
    ensures r == ReferenceStats(reference, Categories(mapped, unmapped, conflict, reverse))
  {
    var sumMap := SumSpans(mapped);
    var sumConfl := SumSpans(conflict);
    var sumRev := SumSpans(reverse);
    var totalMap := sumMap + sumConfl + sumRev;
    var sumUnmap := SumSpans(unmapped);
    var gc := GcContent(reference);
    var length := |reference|;
    var numberMapped := |mapped| + |reverse| + |conflict|;
    var numberUnmapped := |unmapped|;
    // A sum whose loops never ran is still the Python int 0.
    var mapIsInt := |mapped| == 0 && |conflict| == 0 && |reverse| == 0;
    var unmapIsInt := |unmapped| == 0;
    if length == 0 && mapIsInt {
      return Err(ZeroDivisionError);
    }
    if length == 0 && unmapIsInt {
      return Err(ZeroDivisionError);
    }
    r := Ok(ReferenceSummary(gc, length, numberMapped, numberUnmapped,
                             Ratio(100 * totalMap, length), Ratio(100 * sumUnmap, length)));
  }

  // The summary in terms of the backbone rows themselves.

  /** What a row adds to the mapped total: its reference span when mapped or
      reversed, its assembly span when in conflict. */
  function MappedSpan(r: Row): nat
  {
    if IsMapped(r) || IsReverse(r) then Span(Seq0(r))
    else if IsConflict(r) then Span(Seq1(r))
    else 0
  }

  /** What a row adds to the unmapped total. */
  function UnmappedSpan(r: Row): nat
  {
    if IsUnmapped(r) then Span(Seq0(r)) else 0
  }

  function RowSum(rows: seq<Row>, f: Row -> nat): nat
  {
    if rows == [] then 0 else f(rows[0]) + RowSum(rows[1..], f)
  }

  lemma {:induction false} CategorySpans(rows: seq<Row>)
    ensures var c := Regions(rows);
      SpanSum(c.mapped) + SpanSum(c.conflict) + SpanSum(c.reverse) == RowSum(rows, MappedSpan) &&
      SpanSum(c.unmapped) == RowSum(rows, UnmappedSpan)
  {
    if rows != [] {
      var r := rows[0];
      assert rows == [r] + rows[1..];
      RegionsAppend([r], rows[1..]);
      RegionsOfRow(r);
      var a, b := Regions([r]), Regions(rows[1..]);
      SpanSumAppend(a.mapped, b.mapped);
      SpanSumAppend(a.unmapped, b.unmapped);
      SpanSumAppend(a.conflict, b.conflict);
      SpanSumAppend(a.reverse, b.reverse);
      CategorySpans(rows[1..]);
    }
  }

  /** The summary of a backbone table: it fails exactly when the reference
      is empty and either no row is mapped, in conflict or reversed, or no
      row is unmapped; otherwise the mapped fraction is the rows' mapped
      spans and the unmapped fraction their unmapped spans, each over the
      reference length, and the two counts cover every row, less the
      unclassified ones, with all-zero rows counted twice. */
  lemma ReferenceStatsOfRows(reference: string, rows: seq<Row>)
    ensures ReferenceStats(reference, Regions(rows)).Err? <==>
      |reference| == 0 &&
      ((forall i :: 0 <= i < |rows| ==> !IsMapped(rows[i]) && !IsConflict(rows[i]) && !IsReverse(rows[i])) ||
       (forall i :: 0 <= i < |rows| ==> !IsUnmapped(rows[i])))
    ensures ReferenceStats(reference, Regions(rows)).Ok? ==>
      var s := ReferenceStats(reference, Regions(rows)).value;
      && s.length == |reference|
      && s.gcContent.num <= 100 * s.gcContent.den
      && s.fractionMapped == Ratio(100 * RowSum(rows, MappedSpan), |reference|)
      && s.fractionUnmapped == Ratio(100 * RowSum(rows, UnmappedSpan), |reference|)
      && s.numberMappedRegions + s.numberUnmappedRegions + |Where(rows, IsUnclassified)|
           == |rows| + |Where(rows, IsAllZero)|
  {
    CategorySpans(rows);
    RegionCounts(rows);
    RegionsExact(rows);
    WhereEmpty(rows, IsMapped);
    WhereEmpty(rows, IsUnmapped);
    WhereEmpty(rows, IsConflict);
    WhereEmpty(rows, IsReverse);
  }

  /** The two fractions are computed independently and need not add up to
      100: one mapped row covering 9 of 10 bases, and nothing unmapped. */
  lemma FractionsNeedNotComplement()
    ensures var s := ReferenceStats("ACGTACGTAC", Regions([Row(1, 10, 5, 14)])).value;
      s.fractionMapped == Ratio(900, 10) && s.fractionUnmapped == Ratio(0, 10)
  {
    RegionsOfRow(Row(1, 10, 5, 14));
  }

  /** On an empty reference the int64 sums divide to inf rather than raise:
      a mapped row spanning 4 bases and an unmapped row spanning 10 give
      400/0 and 1000/0. */
  lemma EmptyReferenceInfinite()
    ensures ReferenceStats("", Regions([Row(1, 5, 2, 6), Row(10, 20, 0, 0)])) ==
      Ok(ReferenceSummary(GcContent(""), 0, 1, 1, Ratio(400, 0), Ratio(1000, 0)))
  {
    RegionsAppend([Row(1, 5, 2, 6)], [Row(10, 20, 0, 0)]);
    RegionsOfRow(Row(1, 5, 2, 6));
    RegionsOfRow(Row(10, 20, 0, 0));
    assert [Row(1, 5, 2, 6), Row(10, 20, 0, 0)] == [Row(1, 5, 2, 6)] + [Row(10, 20, 0, 0)];
  }
}
