/** `unmapsum` (tool/summary.py:119-239): for every unmapped region, its GC
    content, its length and the frequency of each of the 21 symbols over
    its six translated frames, as percentages of `len_seq`, the number of
    residues the six frames hold. */
module UnmapSum {
  import opened Wrappers
  import opened PyText
  import opened PyDict
  import opened Translation

  lemma {:induction false} GcAtMostLength(s: string)
    ensures Count(s, 'G') + Count(s, 'C') <= |s|
  {
    if s != [] {
      GcAtMostLength(s[1..]);
    }
  }

  /** `SeqUtils.GC`: G and C as a percentage of the length, 0 for an empty
      sequence; never above 100. */
  function GcContent(s: string): (r: Ratio)
    ensures r.den > 0 && r.num <= 100 * r.den
    ensures |s| > 0 ==> r.den == |s|
  {
    GcAtMostLength(s);
    if |s| == 0 then Ratio(0, 1) else Ratio(100 * (Count(s, 'G') + Count(s, 'C')), |s|)
  }

  lemma {:induction false} BaseCounts(s: string)
    requires IsDna(s)
    ensures Count(s, 'A') + Count(s, 'C') + Count(s, 'G') + Count(s, 'T') == |s|
  {
    if s != [] {
      BaseCounts(s[1..]);
    }
  }

  /** Over A, C, G and T the GC content is what the A and T bases leave. */
  lemma GcOfDna(s: string)
    requires IsDna(s) && |s| > 0
    ensures GcContent(s).den == |s|
    ensures GcContent(s).num + 100 * (Count(s, 'A') + Count(s, 'T')) == 100 * |s|
  {
    BaseCounts(s);
  }

  /** A region and its reverse complement have the same GC content. */
  lemma GcReverseComplement(s: string)
    ensures GcContent(ReverseComplement(s)) == GcContent(s)
  {
    CountReverseComplement(s, 'G');
    CountReverseComplement(s, 'C');
  }

  /** One row of the per-region table: GC content, length, and the
      percentage of each symbol of `Residues`, in that order. */
  datatype RegionStats = RegionStats(gcContent: Ratio, length: nat, residues: seq<Ratio>)

  /** A row of the table `unmapsum` returns: the `Region` column beside the
      statistics. */
  datatype UnmapRow = UnmapRow(region: string, stats: RegionStats)

  /** Lines 187-229: `100 * count / len_seq` for each symbol of `syms`. */
  function Percentages(codes: seq<string>, syms: string, lenSeq: nat): (r: seq<Ratio>)
    ensures |r| == |syms|
    ensures forall k :: 0 <= k < |syms| ==> r[k] == Ratio(100 * ResidueCount(codes, syms[k]), lenSeq)
  {
    if syms == [] then [] else [Ratio(100 * ResidueCount(codes, syms[0]), lenSeq)] + Percentages(codes, syms[1..], lenSeq)
  }

  /** Sum of the numerators of a list of ratios. */
  function NumeratorSum(rs: seq<Ratio>): nat
  {
    if rs == [] then 0 else rs[0].num + NumeratorSum(rs[1..])
  }

  lemma {:induction false} PercentagesSum(codes: seq<string>, syms: string, lenSeq: nat)
    ensures NumeratorSum(Percentages(codes, syms, lenSeq)) == 100 * SymbolTotal(codes, syms)
  {
    if syms != [] {
      PercentagesSum(codes, syms[1..], lenSeq);
    }
  }

  /** What the loop body of lines 127-229 computes for one region, or the
      `ZeroDivisionError` line 187 raises when the six frames hold no
      residue. */
  function RegionSummary(s: string): Result<RegionStats, PyError>
  {
    var codes := Frames(s);
    var lenSeq := TotalLength(codes);
    if lenSeq == 0 then Err(ZeroDivisionError)
    else Ok(RegionStats(GcContent(s), |s|, Percentages(codes, Residues, lenSeq)))
  }

  /** A region fails exactly when it is shorter than three bases; otherwise
      every percentage has `len_seq` as its denominator and 100 times the
      symbol's six-frame count as its numerator. */
  lemma RegionSummaryMeaning(s: string)
    ensures RegionSummary(s).Err? <==> |s| < 3
    ensures RegionSummary(s).Err? ==> RegionSummary(s).error == ZeroDivisionError
    ensures RegionSummary(s).Ok? ==> var st := RegionSummary(s).value;
      && st.length == |s|
      && st.gcContent == GcContent(s)
      && |st.residues| == 21
      && forall k :: 0 <= k < 21 ==>
           st.residues[k].den == TotalLength(Frames(s)) > 0 &&
           st.residues[k].num == 100 * ResidueCount(Frames(s), Residues[k])
  {
    SixFrameLength(s);
  }

  /** Six-frame translation reads both strands, so the statistics of a
      region do not depend on which strand the reference carries. */
  lemma StrandSymmetric(s: string)
    ensures RegionSummary(ReverseComplement(s)) == RegionSummary(s)
  {
    var r := ReverseComplement(s);
    GcReverseComplement(s);
    FramesReverseComplement(s);
    PercentagesAgree(Frames(r), Frames(s), Residues, TotalLength(Frames(s)));
    SameSummary(r, s);
  }

  /** Two regions with the same length, GC content and six-frame
      percentages have the same summary. */
  lemma SameSummary(r: string, s: string)
    requires |r| == |s| && GcContent(r) == GcContent(s)
    requires TotalLength(Frames(r)) == TotalLength(Frames(s))
    requires Percentages(Frames(r), Residues, TotalLength(Frames(s))) ==
             Percentages(Frames(s), Residues, TotalLength(Frames(s)))
    ensures RegionSummary(r) == RegionSummary(s)
  {
  }

  /** Percentages depend on the protein strings only through the counts. */
  lemma {:induction false} PercentagesAgree(c1: seq<string>, c2: seq<string>, syms: string, lenSeq: nat)
    requires forall x :: ResidueCount(c1, x) == ResidueCount(c2, x)
    ensures Percentages(c1, syms, lenSeq) == Percentages(c2, syms, lenSeq)
  {
    if syms != [] {
      PercentagesAgree(c1, c2, syms[1..], lenSeq);
    }
  }

  /** For a region over A, C, G and T the 21 percentages add up to exactly
      100: their numerators total 100 times the common denominator. */
  lemma PercentagesTotal100(s: string)
    requires IsDna(s) && |s| >= 3
    ensures RegionSummary(s).Ok?
    ensures var st := RegionSummary(s).value;
      NumeratorSum(st.residues) == 100 * TotalLength(Frames(s)) && st.residues[0].den == TotalLength(Frames(s))
  {
    SixFrameLength(s);
    ResiduesCoverDna(s);
    PercentagesSum(Frames(s), Residues, TotalLength(Frames(s)));
  }

  /** For any region the 21 percentages add up to 100 less the share of
      the residues that are none of the 21 symbols (the `X` of a codon
      holding a letter other than A, C, G and T). */
  lemma PercentagesTotal(s: string)
    requires RegionSummary(s).Ok?
    ensures var st := RegionSummary(s).value;
      NumeratorSum(st.residues) + 100 * OutsideTotal(Frames(s), Residues) == 100 * TotalLength(Frames(s))
  {
    ResiduesDistinct();
    SymbolTotalSplit(Frames(s), Residues);
    PercentagesSum(Frames(s), Residues, TotalLength(Frames(s)));
  }

  /** A region of three bases or more none of which is A, C, G or T (all
      `N`, say) translates to `X` throughout: it has a summary, and every
      one of its 21 percentages is 0. */
  lemma NoBaseRegion(s: string)
    requires |s| >= 3 && NoBase(s)
    ensures RegionSummary(s).Ok?
    ensures NumeratorSum(RegionSummary(s).value.residues) == 0
  {
    SixFrameLength(s);
    NoBaseFrames(s);
    OutsideTotalAll(Frames(s), Residues);
    PercentagesTotal(s);
  }

  /** The first `n` frames of one strand. */
  function StrandPrefix(strand: string, n: nat): seq<string>
    requires n <= 3
  {
    if n == 0 then [] else StrandPrefix(strand, n - 1) + [Frame(strand, n - 1)]
  }

  /** Lines 134-136 for one strand: its frames at offsets 0, 1 and 2. */
  method StrandFrames(strand: string) returns (pros: seq<string>)
    ensures pros == [Frame(strand, 0), Frame(strand, 1), Frame(strand, 2)]
  {
    pros := [];
    for frame := 0 to 3
      invariant pros == StrandPrefix(strand, frame)
    {
      pros := pros + [Translate(Suffix(strand, frame))];
    }
    assert StrandPrefix(strand, 1) == [Frame(strand, 0)];
    assert StrandPrefix(strand, 2) == [Frame(strand, 0), Frame(strand, 1)];
  }

  /** Lines 131-136: the six protein strings, forward strand first, offsets
      0, 1, 2 within each strand. */
  method SixFrames(s: string) returns (codes: seq<string>)
    ensures codes == Frames(s)
  {
    var strands := [s, ReverseComplement(s)];
    codes := [];
    for j := 0 to 2
      invariant j == 0 ==> codes == []
      invariant j == 1 ==> codes == Frames(s)[..3]
      invariant j == 2 ==> codes == Frames(s)
    {
      var pros := StrandFrames(strands[j]);
      codes := codes + pros;
    }
  }

  /** Lines 138-185: the 21 symbol counts and `len_seq`, accumulated over
      the protein strings. */
  method CountResidues(codes: seq<string>) returns (counts: seq<nat>, lenSeq: nat)
    ensures |counts| == |Residues|
    ensures forall k :: 0 <= k < |Residues| ==> counts[k] == ResidueCount(codes, Residues[k])
    ensures lenSeq == TotalLength(codes)
  {
    counts := seq(|Residues|, k => 0);
    lenSeq := 0;
    for i := 0 to |codes|
      invariant |counts| == |Residues|
      invariant forall k :: 0 <= k < |Residues| ==> counts[k] == ResidueCount(codes[..i], Residues[k])
      invariant lenSeq == TotalLength(codes[..i])
    {
      var proSeq := codes[i];
      assert codes[..i + 1][..i] == codes[..i];
      counts := seq(|Residues|, k requires 0 <= k < |Residues| => Count(proSeq, Residues[k]) + counts[k]);
      lenSeq := |proSeq| + lenSeq;
    }
    assert codes[..|codes|] == codes;
  }

  /** One pass of the loop of lines 127-229. */
  method SummarizeRegion(s: string) returns (r: Result<RegionStats, PyError>)
    ensures r == RegionSummary(s)
  {
    var gc := GcContent(s);
    var length := |s|;
    var codes := SixFrames(s);
    var counts, lenSeq := CountResidues(codes);
    if lenSeq == 0 {
      return Err(ZeroDivisionError);
    }
    var residues := seq(|Residues|, k requires 0 <= k < |Residues| => Ratio(100 * counts[k], lenSeq));
    assert residues == Percentages(codes, Residues, lenSeq);
    r := Ok(RegionStats(gc, length, residues));
  }

  function Min(a: nat, b: nat): nat
  {
    if a < b then a else b
  }

  /** `f` applied to each element in order: all the results, or the error
      of the first element whose result is one. */
  function MapAll<A, B, E>(xs: seq<A>, f: A -> Result<B, E>): Result<seq<B>, E>
  {
    if xs == [] then Ok([])
    else match MapAll(xs[..|xs| - 1], f)
      case Err(e) => Err(e)
      case Ok(ys) =>
        match f(xs[|xs| - 1])
        case Err(e) => Err(e)
        case Ok(y) => Ok(ys + [y])
  }

  /** `MapAll` fails exactly when some element fails, and with the error of
      one of them; when it succeeds, result i is the result of element i. */
  lemma {:induction false} MapAllMeaning<A, B, E>(xs: seq<A>, f: A -> Result<B, E>)
    ensures MapAll(xs, f).Err? <==> exists i :: 0 <= i < |xs| && f(xs[i]).Err?
    ensures MapAll(xs, f).Err? ==> exists i :: 0 <= i < |xs| && f(xs[i]) == Err(MapAll(xs, f).error)
    ensures MapAll(xs, f).Ok? ==> (|MapAll(xs, f).value| == |xs| &&
      forall i :: 0 <= i < |xs| ==> f(xs[i]) == Ok(MapAll(xs, f).value[i]))
  {
    if xs != [] {
      var init := xs[..|xs| - 1];
      MapAllMeaning(init, f);
      assert forall i :: 0 <= i < |init| ==> init[i] == xs[i];
    }
  }

  /** One more element: `MapAll` goes on with its result or stops with its
      error. */
  lemma MapAllStep<A, B, E>(xs: seq<A>, f: A -> Result<B, E>, i: nat, ys: seq<B>)
    requires i < |xs| && MapAll(xs[..i], f) == Ok(ys)
    ensures MapAll(xs[..i + 1], f) ==
      match f(xs[i])
      case Err(e) => Err(e)
      case Ok(y) => Ok(ys + [y])
  {
    assert xs[..i + 1][..i] == xs[..i];
  }

  /** Once a prefix fails, the whole sequence fails with the same error. */
  lemma {:induction false} MapAllStop<A, B, E>(xs: seq<A>, f: A -> Result<B, E>, n: nat)
    requires n <= |xs| && MapAll(xs[..n], f).Err?
    ensures MapAll(xs, f) == MapAll(xs[..n], f)
    decreases |xs| - n
  {
    if n < |xs| {
      assert xs[..n + 1][..n] == xs[..n];
      MapAllStop(xs, f, n + 1);
    } else {
      assert xs[..n] == xs;
    }
  }

  /** The loop of lines 127-229 over the regions in order: the statistics
      of each, or the error of the first region that raises one. */
  function Summaries(values: seq<string>): Result<seq<RegionStats>, PyError>
  {
    MapAll(values, RegionSummary)
  }

  /** The loop fails exactly when some region is shorter than three bases,
      and then with `ZeroDivisionError`; otherwise it has one summary per
      region, in order. */
  lemma SummariesMeaning(values: seq<string>)
    ensures Summaries(values).Err? <==> exists i :: 0 <= i < |values| && |values[i]| < 3
    ensures Summaries(values).Err? ==> Summaries(values).error == ZeroDivisionError
    ensures Summaries(values).Ok? ==> (|Summaries(values).value| == |values| &&
      forall i :: 0 <= i < |values| ==> RegionSummary(values[i]) == Ok(Summaries(values).value[i]))
  {
    MapAllMeaning(values, RegionSummary);
    forall i | 0 <= i < |values|
      ensures RegionSummary(values[i]).Err? <==> |values[i]| < 3
      ensures RegionSummary(values[i]).Err? ==> RegionSummary(values[i]).error == ZeroDivisionError
    {
      RegionSummaryMeaning(values[i]);
    }
  }

  /** The table `unmapsum` returns, or the exception it raises: a region
      with no residue raises `ZeroDivisionError` at line 187; with no region
      at all, `codes` is never bound and line 230 raises
      `UnboundLocalError`. Otherwise `zip(idunmap, ...)` at line 234 pairs
      the i-th label with the i-th region in the dict's order and stops at
      the shorter list. */
  function UnmapTable(values: seq<string>, ids: seq<string>): Result<seq<UnmapRow>, PyError>
  {
    match Summaries(values)
    case Err(e) => Err(e)
    case Ok(sts) =>
      if values == [] then Err(UnboundLocalError)
      else Ok(seq(Min(|ids|, |sts|), i requires 0 <= i < Min(|ids|, |sts|) => UnmapRow(ids[i], sts[i])))
  }

  /** `unmapsum` fails exactly when there is no unmapped region or one of
      them is shorter than three bases; otherwise it has one row per region
      (up to the number of labels), labelled by position. */
  lemma UnmapTableMeaning(values: seq<string>, ids: seq<string>)
    ensures UnmapTable(values, ids).Err? <==> values == [] || exists i :: 0 <= i < |values| && |values[i]| < 3
    ensures UnmapTable(values, ids) == Err(UnboundLocalError) <==> values == []
    ensures UnmapTable(values, ids).Ok? ==>
      var rows := UnmapTable(values, ids).value;
      |rows| == Min(|ids|, |values|) &&
      forall i :: 0 <= i < |rows| ==>
        rows[i].region == ids[i] && rows[i].stats.length == |values[i]| &&
        Ok(rows[i].stats) == RegionSummary(values[i])
  {
    SummariesMeaning(values);
    if UnmapTable(values, ids).Ok? {
      var rows := UnmapTable(values, ids).value;
      forall i | 0 <= i < |rows| ensures rows[i].stats.length == |values[i]| {
        RegionSummaryMeaning(values[i]);
      }
    }
  }

  /** Lines 127-229: summarise each region in turn. */
  method SummarizeAll(values: seq<string>) returns (r: Result<seq<RegionStats>, PyError>)
    ensures r == Summaries(values)
  {
    var stats: seq<RegionStats> := [];
    for i := 0 to |values|
      invariant MapAll(values[..i], RegionSummary) == Ok(stats)
    {
      var res := SummarizeRegion(values[i]);
      MapAllStep(values, RegionSummary, i, stats);
      if res.Err? {
        MapAllStop(values, RegionSummary, i + 1);
        return Err(res.error);
      }
      stats := stats + [res.value];
    }
    assert values[..|values|] == values;
    r := Ok(stats);
  }

  /** `unmapsum(unmappeddict, idunmap)`. */
  method UnmapSummary(unmappeddict: Dict, idunmap: seq<string>) returns (r: Result<seq<UnmapRow>, PyError>)
    ensures r == UnmapTable(Values(unmappeddict), idunmap)
  {
    var values := Values(unmappeddict);
    var summaries := SummarizeAll(values);
    if summaries.Err? {
      return Err(summaries.error);
    }
    var stats := summaries.value;
    if |values| == 0 {
      return Err(UnboundLocalError);
    }
    var n := Min(|idunmap|, |stats|);
    var rows := seq(n, i requires 0 <= i < n => UnmapRow(idunmap[i], stats[i]));
    var table := UnmapTable(values, idunmap);
    assert table.Ok? && |table.value| == n;
    assert forall i :: 0 <= i < n ==> table.value[i] == rows[i];
    assert table.value == rows;
    r := Ok(rows);
  }
}
