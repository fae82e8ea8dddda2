/** `output` and `extract_main` (tool/summary.py:283-316): the whole
    summary step, from the reference and the backbone rows to the three
    FASTA texts and the two summary tables. */
module Pipeline {
  import opened Wrappers
  import opened PyText
  import opened PyDict
  import opened Backbone
  import opened Extract
  import opened UnmapSum
  import opened RefStats

  /** `'>' + key + '\n' + value + '\n'` (lines 296, 301, 306). */
  function Record(key: string, value: string): string
  {
    ">" + key + "\n" + value + "\n"
  }

  /** Every key is a string, as `'>' + key` needs. */
  predicate NamedKeys(d: Dict)
  {
    forall i :: 0 <= i < |d| ==> d[i].0.Name?
  }

  /** The (header, sequence) pairs a dict is written as. */
  function Records(d: Dict): seq<(string, string)>
    requires NamedKeys(d)
  {
    seq(|d|, i requires 0 <= i < |d| => (d[i].0.s, d[i].1))
  }

  /** The text the loop of lines 295-296 writes for a list of records. */
  function FastaText(records: seq<(string, string)>): string
  {
    if records == [] then ""
    else
      var last := records[|records| - 1];
      FastaText(records[..|records| - 1]) + Record(last.0, last.1)
  }

  /** Lines 294-296: one record per entry, in the dict's order. */
  method WriteFasta(d: Dict) returns (text: string)
    requires NamedKeys(d)
    ensures text == FastaText(Records(d))
  {
    text := "";
    for i := 0 to |d|
      invariant text == FastaText(Records(d)[..i])
    {
      assert Records(d)[..i + 1][..i] == Records(d)[..i];
      text := text + Record(d[i].0.s, d[i].1);
    }
    assert Records(d)[..|d|] == Records(d);
  }

  // Reading the text back.

  /** Position of the first line break, or the length when there is none. */
  function LineEnd(s: string): (n: nat)
    ensures n <= |s|
    ensures forall i :: 0 <= i < n ==> s[i] != '\n'
    ensures n < |s| ==> s[n] == '\n'
  {
    if s == [] || s[0] == '\n' then 0 else 1 + LineEnd(s[1..])
  }

  /** A FASTA text of single-line records: `>` header, line break, sequence,
      line break, repeated; anything else is rejected. */
  function ParseFasta(t: string): Option<seq<(string, string)>>
    decreases |t|
  {
    if t == [] then Some([])
    else if t[0] != '>' then None
    else
      var body := t[1..];
      var h := LineEnd(body);
      if h == |body| then None
      else
        var rest := body[h + 1..];
        var v := LineEnd(rest);
        if v == |rest| then None
        else match ParseFasta(rest[v + 1..])
          case None => None
          case Some(records) => Some([(body[..h], rest[..v])] + records)
  }

  lemma {:induction false} FastaTextAppend(a: seq<(string, string)>, b: seq<(string, string)>)
    ensures FastaText(a + b) == FastaText(a) + FastaText(b)
    decreases |b|
  {
    if b == [] {
      assert a + b == a;
    } else {
      var n := |b| - 1;
      var ab := a + b;
      var last := Record(b[n].0, b[n].1);
      assert ab[..|ab| - 1] == a + b[..n];
      assert ab[|ab| - 1] == b[n];
      assert FastaText(ab) == FastaText(a + b[..n]) + last;
      FastaTextAppend(a, b[..n]);
      var x, y := FastaText(a), FastaText(b[..n]);
      assert (x + y) + last == x + (y + last);
    }
  }

  lemma FastaTextFront(records: seq<(string, string)>)
    requires records != []
    ensures FastaText(records) == Record(records[0].0, records[0].1) + FastaText(records[1..])
  {
    var head, tail := [records[0]], records[1..];
    assert records == head + tail;
    FastaTextAppend(head, tail);
    assert head[..0] == [];
  }

  lemma {:induction false} LineEndAt(a: string, b: string)
    requires '\n' !in a
    ensures LineEnd(a + "\n" + b) == |a|
  {
    if a != [] {
      assert (a + "\n" + b)[1..] == a[1..] + "\n" + b;
      LineEndAt(a[1..], b);
    }
  }

  /** A line without a break, followed by a break: `LineEnd` finds it and
      the text splits around it. */
  lemma SplitLine(line: string, rest: string)
    requires '\n' !in line
    ensures var s := line + "\n" + rest;
      LineEnd(s) == |line| < |s| && s[..|line|] == line && s[|line| + 1..] == rest
  {
    LineEndAt(line, rest);
    var s := line + "\n" + rest;
    assert s[..|line|] == line;
    assert s[|line| + 1..] == rest;
  }

  lemma ParseRecord(key: string, value: string, rest: string)
    requires '\n' !in key && '\n' !in value
    ensures ParseFasta(Record(key, value) + rest) ==
      match ParseFasta(rest)
      case None => None
      case Some(records) => Some([(key, value)] + records)
  {
    var after := value + "\n" + rest;
    var t := Record(key, value) + rest;
    assert t[1..] == key + "\n" + after by {
      assert t == ">" + (key + "\n" + after);
    }
    SplitLine(key, after);
    SplitLine(value, rest);
    ParseStep(t, key, value, rest);
  }

  /** One record read off the front of the text. */
  lemma ParseStep(t: string, key: string, value: string, rest: string)
    requires |t| > 0 && t[0] == '>'
    requires LineEnd(t[1..]) == |key| < |t[1..]| && t[1..][..|key|] == key
    requires var after := t[1..][|key| + 1..];
      LineEnd(after) == |value| < |after| && after[..|value|] == value && after[|value| + 1..] == rest
    ensures ParseFasta(t) ==
      match ParseFasta(rest)
      case None => None
      case Some(records) => Some([(key, value)] + records)
  {
  }

  /** Reading the written text gives back every record in order, as long
      as no header or sequence holds a line break. */
  lemma {:induction false} FastaRoundTrip(records: seq<(string, string)>)
    requires forall i :: 0 <= i < |records| ==> '\n' !in records[i].0 && '\n' !in records[i].1
    ensures ParseFasta(FastaText(records)) == Some(records)
    decreases |records|
  {
    if records != [] {
      FastaTextFront(records);
      FastaRoundTrip(records[1..]);
      ParseRecord(records[0].0, records[0].1, FastaText(records[1..]));
      assert records == [records[0]] + records[1..];
    }
  }

  /** The rekeyed dicts of `refextract` have string keys only. */
  lemma CollapseNamed(entries: seq<(string, string)>)
    ensures NamedKeys(Collapse(entries))
  {
    var d := Collapse(entries);
    CollapseKeys(entries);
    KeysAt(d);
    forall i | 0 <= i < |d| ensures d[i].0.Name? {
      assert Keys(d)[i] in Names(entries);
    }
  }

  /** What `extract_main` hands to `output`: the three FASTA texts and the
      two summary tables. */
  datatype Outputs = Outputs(
    mappedFasta: string,
    unmappedFasta: string,
    conflictFasta: string,
    referenceSummary: ReferenceSummary,
    unmapSummary: seq<UnmapRow>)

  function Fasta(reference: string, locations: seq<Interval>, prefix: string, flanking: int): string
  {
    CollapseNamed(Entries(reference, locations, prefix, flanking));
    FastaText(Records(Collapse(Entries(reference, locations, prefix, flanking))))
  }

  /** Lines 310-316: the four steps in order; the first exception raised
      ends the run. */
  function Extraction(reference: string, backbone: seq<Row>, prefix: string, flanking: int)
    : Result<Outputs, PyError>
  {
    var c := Regions(backbone);
    var unmapped := Collapse(Entries(reference, c.unmapped, prefix, flanking));
    match UnmapTable(Values(unmapped), Labels(c.unmapped, prefix, flanking))
    case Err(e) => Err(e)
    case Ok(rows) =>
      match ReferenceStats(reference, c)
      case Err(e) => Err(e)
      case Ok(summary) =>
        Ok(Outputs(Fasta(reference, c.mapped, prefix, 0),
                   Fasta(reference, c.unmapped, prefix, flanking),
                   Fasta(reference, c.conflict, prefix, 0),
                   summary, rows))
  }

  /** `extract_main(reference, prefix, flanking, out)`, with the backbone
      rows and the reference sequence passed in instead of read from files. */
  method ExtractMain(reference: string, backbone: seq<Row>, prefix: string, flanking: int)
    returns (r: Result<Outputs, PyError>)
    ensures r == Extraction(reference, backbone, prefix, flanking)
  {
    var c := Regions(backbone);
    var e := RefExtract(reference, c.mapped, c.unmapped, c.conflict, prefix, flanking);
    var unmapStats := UnmapSummary(e.unmapped, e.unmappedIds);
    if unmapStats.Err? {
      return Err(unmapStats.error);
    }
    var refStats := ReferenceStatistics(reference, c.mapped, c.unmapped, c.conflict, c.reverse);
    if refStats.Err? {
      return Err(refStats.error);
    }
    CollapseNamed(Entries(reference, c.mapped, prefix, 0));
    CollapseNamed(Entries(reference, c.unmapped, prefix, flanking));
    CollapseNamed(Entries(reference, c.conflict, prefix, 0));
    var mappedFasta := WriteFasta(e.mapped);
    var unmappedFasta := WriteFasta(e.unmapped);
    var conflictFasta := WriteFasta(e.conflict);
    r := Ok(Outputs(mappedFasta, unmappedFasta, conflictFasta, refStats.value, unmapStats.value));
  }

  // What a run of the summary step produces.

  /** The unmapped dict's values are empty exactly when there is no
      unmapped row, and hold a region shorter than three bases exactly when
      some unmapped row's flanked substring is. */
  lemma UnmappedValues(reference: string, u: seq<Interval>, prefix: string, flanking: int)
    ensures var values := Values(Collapse(Entries(reference, u, prefix, flanking)));
      && (values == [] <==> u == [])
      && ((exists j :: 0 <= j < |values| && |values[j]| < 3) <==>
          (exists i :: 0 <= i < |u| && |RegionSlice(reference, u[i], flanking)| < 3))
  {
    var es := Entries(reference, u, prefix, flanking);
    var d := Collapse(es);
    var values := Values(d);
    CollapseKeys(es);
    EntriesConsistent(reference, u, prefix, flanking);
    CollapseValues(es);
    if u != [] {
      assert Names(es)[0] in Keys(d);
    }
    if exists j :: 0 <= j < |values| && |values[j]| < 3 {
      var j :| 0 <= j < |values| && |values[j]| < 3;
      assert values[j] in values;
      var i :| 0 <= i < |es| && es[i].1 == values[j];
      assert |RegionSlice(reference, u[i], flanking)| < 3;
    }
    if exists i :: 0 <= i < |u| && |RegionSlice(reference, u[i], flanking)| < 3 {
      var i :| 0 <= i < |u| && |RegionSlice(reference, u[i], flanking)| < 3;
      assert es[i].1 in values;
      var j :| 0 <= j < |values| && values[j] == es[i].1;
    }
  }

  /** The run fails with `UnboundLocalError` exactly when the backbone has
      no unmapped row, and fails at all exactly when, besides, some unmapped
      row's flanked substring is shorter than three bases; the empty
      reference always fails. */
  lemma ExtractionFails(reference: string, backbone: seq<Row>, prefix: string, flanking: int)
    ensures var u := Regions(backbone).unmapped;
      && (Extraction(reference, backbone, prefix, flanking) == Err(UnboundLocalError) <==> u == [])
      && (Extraction(reference, backbone, prefix, flanking).Err? <==>
            u == [] || exists i :: 0 <= i < |u| && |RegionSlice(reference, u[i], flanking)| < 3)
      && (|reference| == 0 ==> Extraction(reference, backbone, prefix, flanking).Err?)
  {
    var c := Regions(backbone);
    var u := c.unmapped;
    var values := Values(Collapse(Entries(reference, u, prefix, flanking)));
    UnmappedValues(reference, u, prefix, flanking);
    UnmapTableMeaning(values, Labels(u, prefix, flanking));
  }

  /** A successful run's unmapped summary is the `unmapsum` table. */
  lemma ExtractionUnmapSummary(reference: string, backbone: seq<Row>, prefix: string, flanking: int)
    ensures var u := Regions(backbone).unmapped;
      var table := UnmapTable(Values(Collapse(Entries(reference, u, prefix, flanking))), Labels(u, prefix, flanking));
      Extraction(reference, backbone, prefix, flanking).Ok? ==>
        table.Ok? && Extraction(reference, backbone, prefix, flanking).value.unmapSummary == table.value
  {
  }

  /** With distinct labels the `Region` column lines up: row i of the
      table is row i of `u`, its label and the statistics of its flanked
      substring. */
  lemma UnmapTableAligned(reference: string, u: seq<Interval>, prefix: string, flanking: int)
    requires forall i, j :: 0 <= i < j < |u| ==> RegionLabel(prefix, u[i], flanking) != RegionLabel(prefix, u[j], flanking)
    ensures var table := UnmapTable(Values(Collapse(Entries(reference, u, prefix, flanking))), Labels(u, prefix, flanking));
      table.Ok? ==>
        |table.value| == |u| &&
        forall i :: 0 <= i < |u| ==>
          table.value[i].region == RegionLabel(prefix, u[i], flanking) &&
          RegionSummary(RegionSlice(reference, u[i], flanking)) == Ok(table.value[i].stats)
  {
    DistinctValues(reference, u, prefix, flanking);
    var slices, labels := Slices(reference, u, flanking), Labels(u, prefix, flanking);
    UnmapTableMeaning(slices, labels);
    var table := UnmapTable(slices, labels);
    if table.Ok? {
      assert |table.value| == |u|;
      forall i | 0 <= i < |u|
        ensures table.value[i].region == RegionLabel(prefix, u[i], flanking)
        ensures RegionSummary(RegionSlice(reference, u[i], flanking)) == Ok(table.value[i].stats)
      {
        assert table.value[i].region == labels[i];
        assert Ok(table.value[i].stats) == RegionSummary(slices[i]);
      }
    }
  }

  lemma DistinctValues(reference: string, u: seq<Interval>, prefix: string, flanking: int)
    requires forall i, j :: 0 <= i < j < |u| ==> RegionLabel(prefix, u[i], flanking) != RegionLabel(prefix, u[j], flanking)
    ensures Values(Collapse(Entries(reference, u, prefix, flanking))) == Slices(reference, u, flanking)
  {
    CollapseDistinct(Entries(reference, u, prefix, flanking));
  }

  /** A successful run with distinct unmapped labels: row i of the unmapped
      summary describes unmapped row i. */
  lemma ExtractionAligned(reference: string, backbone: seq<Row>, prefix: string, flanking: int)
    requires var u := Regions(backbone).unmapped;
      forall i, j :: 0 <= i < j < |u| ==> RegionLabel(prefix, u[i], flanking) != RegionLabel(prefix, u[j], flanking)
    ensures var u := Regions(backbone).unmapped;
      var run := Extraction(reference, backbone, prefix, flanking);
      run.Ok? ==>
        |run.value.unmapSummary| == |u| &&
        forall i :: 0 <= i < |u| ==>
          run.value.unmapSummary[i].region == RegionLabel(prefix, u[i], flanking) &&
          RegionSummary(RegionSlice(reference, u[i], flanking)) == Ok(run.value.unmapSummary[i].stats)
  {
    ExtractionUnmapSummary(reference, backbone, prefix, flanking);
    UnmapTableAligned(reference, Regions(backbone).unmapped, prefix, flanking);
  }

  /** Storing a label twice and then another keeps two entries. */
  lemma CollapseRepeat(la: string, sa: string, lb: string, sb: string)
    requires la != lb
    ensures Collapse([(la, sa), (la, sa), (lb, sb)]) == [(Name(la), sa), (Name(lb), sb)]
  {
    var es := [(la, sa), (la, sa), (lb, sb)];
    assert es[..1] == [(la, sa)] && es[..1][..0] == [];
    assert Collapse(es[..1]) == [(Name(la), sa)];
    assert es[..2] == [(la, sa), (la, sa)] && es[..2][..1] == es[..1];
    assert Collapse(es[..2]) == [(Name(la), sa)];
    assert es[..2] == es[..|es| - 1];
    var one: Dict := [(Name(la), sa)];
    assert one[1..] == [];
    assert Store(one, Name(lb), sb) == [(Name(la), sa)] + Store([], Name(lb), sb);
  }

  /** Two unmapped rows with the same label share one dict entry, while
      `idunmap` keeps both labels: the zip of line 234 then gives the second
      label the statistics of the third row, and the third row's label is
      dropped. */
  lemma DuplicateLabelsShift(reference: string, prefix: string, flanking: int, a: Interval, b: Interval)
    requires RegionLabel(prefix, a, flanking) != RegionLabel(prefix, b, flanking)
    ensures var u := [a, a, b];
      var table := UnmapTable(Values(Collapse(Entries(reference, u, prefix, flanking))), Labels(u, prefix, flanking));
      table.Ok? ==>
        |table.value| == 2 &&
        table.value[1].region == RegionLabel(prefix, a, flanking) &&
        RegionSummary(RegionSlice(reference, b, flanking)) == Ok(table.value[1].stats)
  {
    var u := [a, a, b];
    var es := Entries(reference, u, prefix, flanking);
    var la, lb := RegionLabel(prefix, a, flanking), RegionLabel(prefix, b, flanking);
    var sa, sb := RegionSlice(reference, a, flanking), RegionSlice(reference, b, flanking);
    assert es == [(la, sa), (la, sa), (lb, sb)];
    CollapseRepeat(la, sa, lb, sb);
    var values := Values(Collapse(es));
    assert values == [sa, sb];
    UnmapTableMeaning(values, Labels(u, prefix, flanking));
  }

  /** A label is the prefix and two integers: no line break unless the
      prefix has one. */
  lemma EntriesOneLine(reference: string, locations: seq<Interval>, prefix: string, flanking: int)
    requires '\n' !in prefix && '\n' !in reference
    ensures var es := Entries(reference, locations, prefix, flanking);
      forall i :: 0 <= i < |es| ==> '\n' !in es[i].0 && '\n' !in es[i].1
  {
    var es := Entries(reference, locations, prefix, flanking);
    forall i | 0 <= i < |es| ensures '\n' !in es[i].0 && '\n' !in es[i].1 {
      var iv := locations[i];
      assert es[i] == (RegionLabel(prefix, iv, flanking), RegionSlice(reference, iv, flanking));
      LabelOneLine(prefix, iv.start - flanking, iv.end + flanking);
      SliceOneLine(reference, iv.start - flanking, iv.end + flanking);
    }
  }

  lemma LabelOneLine(prefix: string, start: int, end: int)
    requires '\n' !in prefix
    ensures '\n' !in Label(prefix, start, end)
  {
    var x, y := IntToString(start), IntToString(end);
    assert Label(prefix, start, end) == prefix + "_" + x + ":" + y;
    assert '\n' !in x && '\n' !in y;
  }

  lemma SliceOneLine(reference: string, lo: int, hi: int)
    requires '\n' !in reference
    ensures '\n' !in Slice(reference, lo, hi)
  {
    var s := Slice(reference, lo, hi);
    assert forall k :: 0 <= k < |s| ==> s[k] in reference;
  }

  /** The FASTA text written for one table reads back as the rekeyed dict's
      (label, substring) pairs in order. */
  lemma FastaReadsBack(reference: string, locations: seq<Interval>, prefix: string, flanking: int)
    requires '\n' !in prefix && '\n' !in reference
    ensures var d := Collapse(Entries(reference, locations, prefix, flanking));
      NamedKeys(d) && ParseFasta(Fasta(reference, locations, prefix, flanking)) == Some(Records(d))
  {
    var es := Entries(reference, locations, prefix, flanking);
    var d := Collapse(es);
    CollapseNamed(es);
    EntriesOneLine(reference, locations, prefix, flanking);
    CollapseKeys(es);
    KeysAt(d);
    EntriesConsistent(reference, locations, prefix, flanking);
    CollapseValues(es);
    forall i | 0 <= i < |d| ensures '\n' !in d[i].0.s && '\n' !in d[i].1 {
      assert Keys(d)[i] in Names(es);
      assert Values(d)[i] in Values(d);
    }
    FastaRoundTrip(Records(d));
  }

  // Worked cases.

  /** A backbone row whose four endpoints are positive is a mapped region;
      on a 1000-base reference it yields a 100-base substring, labelled by
      its own coordinates, whose GC content counts that substring's G and C. */
  lemma MappedRowCase(reference: string, prefix: string)
    requires |reference| == 1000
    ensures var c := Regions([Row(100, 200, 150, 250)]);
      && c == Categories([Interval(100, 200)], [], [], [])
      && var d := Collapse(Entries(reference, c.mapped, prefix, 0));
         var s := reference[100..200];
         && Get(d, Name(prefix + "_100:200")) == Some(s)
         && |s| == 100
         && GcContent(s) == Ratio(100 * (Count(s, 'G') + Count(s, 'C')), 100)
  {
    RegionsOfRow(Row(100, 200, 150, 250));
    ExtractedRegion(reference, [Interval(100, 200)], prefix, 0, 0);
    MappedLabel(prefix);
  }

  lemma MappedLabel(prefix: string)
    ensures RegionLabel(prefix, Interval(100, 200), 0) == prefix + "_100:200"
  {
    assert IntToString(100) == "100" by {
      assert NatToString(1) == "1";
      assert NatToString(10) == "10";
    }
    assert IntToString(200) == "200" by {
      assert NatToString(2) == "2";
      assert NatToString(20) == "20";
    }
  }

  /** A row whose seq1 endpoints are zero is unmapped; with a flanking of 10
      its label and its substring are widened by 10 on each side. */
  lemma UnmappedRowCase(reference: string, prefix: string)
    requires |reference| == 1000
    ensures var c := Regions([Row(300, 400, 0, 0)]);
      && c == Categories([], [Interval(300, 400)], [], [])
      && Labels(c.unmapped, prefix, 10) == [prefix + "_290:410"]
      && Get(Collapse(Entries(reference, c.unmapped, prefix, 10)), Name(prefix + "_290:410"))
           == Some(reference[290..410])
  {
    RegionsOfRow(Row(300, 400, 0, 0));
    ExtractedRegion(reference, [Interval(300, 400)], prefix, 10, 0);
    FlankedLabel(prefix);
    var labels := Labels([Interval(300, 400)], prefix, 10);
    assert labels[0] == prefix + "_290:410";
  }

  lemma FlankedLabel(prefix: string)
    ensures RegionLabel(prefix, Interval(300, 400), 10) == prefix + "_290:410"
  {
    assert IntToString(290) == "290" by {
      assert NatToString(2) == "2";
      assert NatToString(29) == "29";
    }
    assert IntToString(410) == "410" by {
      assert NatToString(4) == "4";
      assert NatToString(41) == "41";
    }
  }

  /** An empty backbone has no unmapped region, so `codes` is never bound
      and the run stops with `UnboundLocalError`. */
  lemma EmptyBackbone(reference: string, prefix: string, flanking: int)
    ensures Regions([]) == Categories([], [], [], [])
    ensures Extraction(reference, [], prefix, flanking) == Err(UnboundLocalError)
  {
    ExtractionFails(reference, [], prefix, flanking);
  }

  /** Flanking past the reference's end is clipped, but flanking past its
      start gives a negative slice start, which Python counts from the end:
      the slice then starts that many bases before the end, so it is empty
      unless the region reaches into the reference's tail. Here the region
      (5, 20) comes out empty and the run fails, while (5, 998) keeps the
      last five bases. */
  lemma FlankingAtTheEnds(reference: string, prefix: string)
    requires |reference| == 1000
    ensures RegionSlice(reference, Interval(990, 1000), 10) == reference[980..1000]
    ensures RegionLabel(prefix, Interval(5, 20), 10) == prefix + "_-5:30"
    ensures RegionSlice(reference, Interval(5, 20), 10) == []
    ensures RegionSlice(reference, Interval(5, 998), 10) == reference[995..1000]
    ensures Extraction(reference, [Row(5, 20, 0, 0)], prefix, 10).Err?
  {
    assert IntToString(-5) == "-5";
    assert IntToString(30) == "30" by {
      assert NatToString(3) == "3";
    }
    RegionsOfRow(Row(5, 20, 0, 0));
    ExtractionFails(reference, [Row(5, 20, 0, 0)], prefix, 10);
  }
}
