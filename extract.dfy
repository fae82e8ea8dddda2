/** `refextract` (tool/summary.py:51-117): one substring of the reference
    per category row, stored first under the row's index, then moved, by
    `pop` and re-insertion, under a label `<prefix>_<start>:<end>`. */
module Extract {
  import opened Wrappers
  import opened PyText
  import opened PyDict
  import opened Backbone

  /** `''.join((str(prefix), '_', str(start), ':', str(end)))`. */
  function Label(prefix: string, start: int, end: int): string
  {
    prefix + "_" + IntToString(start) + ":" + IntToString(end)
  }

  /** Under one prefix, a label determines its coordinates. */
  lemma LabelInjective(prefix: string, a: int, b: int, c: int, d: int)
    requires Label(prefix, a, b) == Label(prefix, c, d)
    ensures a == c && b == d
  {
    var sa, sb, sc, sd := IntToString(a), IntToString(b), IntToString(c), IntToString(d);
    var x, y := sa + ":" + sb, sc + ":" + sd;
    assert Label(prefix, a, b) == (prefix + "_") + x;
    assert Label(prefix, c, d) == (prefix + "_") + y;
    assert x == Label(prefix, a, b)[|prefix| + 1..];
    ColonSplit(sa, sb, sc, sd);
    IntToStringInjective(a, c);
    IntToStringInjective(b, d);
  }

  /** Two integers joined by a colon split back at the first colon. */
  lemma ColonSplit(sa: string, sb: string, sc: string, sd: string)
    requires ':' !in sa && ':' !in sc
    requires sa + ":" + sb == sc + ":" + sd
    ensures sa == sc && sb == sd
  {
    var x, y := sa + ":" + sb, sc + ":" + sd;
    assert forall k :: 0 <= k < |sa| ==> x[k] == sa[k] && x[k] != ':';
    assert forall k :: 0 <= k < |sc| ==> y[k] == sc[k] && y[k] != ':';
    assert x[|sa|] == ':' && y[|sc|] == ':';
    assert |sa| == |sc|;
    assert sa == x[..|sa|] && sc == y[..|sc|];
    assert sb == x[|sa| + 1..] && sd == y[|sc| + 1..];
  }

  /** The label of a row (lines 75, 93, 111); the unmapped table passes
      its flanking, the other two pass 0. */
  function RegionLabel(prefix: string, iv: Interval, flanking: int): string
  {
    Label(prefix, iv.start - flanking, iv.end + flanking)
  }

  /** Rows with the same label have the same coordinates. */
  lemma RegionLabelInjective(prefix: string, a: Interval, b: Interval, flanking: int)
    requires RegionLabel(prefix, a, flanking) == RegionLabel(prefix, b, flanking)
    ensures a == b
  {
    LabelInjective(prefix, a.start - flanking, a.end + flanking, b.start - flanking, b.end + flanking);
  }

  /** `str(read.seq[start - flanking:end + flanking])` (lines 70, 88, 106). */
  function RegionSlice(reference: string, iv: Interval, flanking: int): string
  {
    Slice(reference, iv.start - flanking, iv.end + flanking)
  }

  function Labels(locations: seq<Interval>, prefix: string, flanking: int): seq<string>
  {
    seq(|locations|, i requires 0 <= i < |locations| => RegionLabel(prefix, locations[i], flanking))
  }

  function Slices(reference: string, locations: seq<Interval>, flanking: int): seq<string>
  {
    seq(|locations|, i requires 0 <= i < |locations| => RegionSlice(reference, locations[i], flanking))
  }

  function Zip(keys: seq<string>, values: seq<string>): seq<(string, string)>
    requires |keys| == |values|
  {
    seq(|keys|, i requires 0 <= i < |keys| => (keys[i], values[i]))
  }

  /** Each row's (label, substring), in row order. */
  function Entries(reference: string, locations: seq<Interval>, prefix: string, flanking: int)
    : seq<(string, string)>
  {
    Zip(Labels(locations, prefix, flanking), Slices(reference, locations, flanking))
  }

  /** The dict that storing every (label, substring) pair in turn produces. */
  function Collapse(entries: seq<(string, string)>): Dict
  {
    if entries == [] then []
    else
      var n := |entries| - 1;
      Store(Collapse(entries[..n]), Name(entries[n].0), entries[n].1)
  }

  function Names(entries: seq<(string, string)>): (ks: seq<Key>)
  {
    seq(|entries|, i requires 0 <= i < |entries| => Name(entries[i].0))
  }

  lemma NamesSnoc(entries: seq<(string, string)>)
    requires entries != []
    ensures Names(entries) == Names(entries[..|entries| - 1]) + [Name(entries[|entries| - 1].0)]
  {
  }

  /** Index of the first occurrence of `x` in `s`. */
  function FirstIndex<T(==)>(s: seq<T>, x: T): (i: nat)
    requires x in s
    ensures i < |s| && s[i] == x && x !in s[..i]
  {
    if s[0] == x then 0 else 1 + FirstIndex(s[1..], x)
  }

  lemma FirstIndexAppend<T>(s: seq<T>, y: T, x: T)
    requires x in s + [y]
    ensures FirstIndex(s + [y], x) == if x in s then FirstIndex(s, x) else |s|
  {
    var i := FirstIndex(s + [y], x);
    assert forall k :: 0 <= k < |s| ==> (s + [y])[k] == s[k];
    if x in s {
      var j := FirstIndex(s, x);
      assert (s + [y])[..j] == s[..j];
      assert x !in (s + [y])[..i];
      assert forall k :: 0 <= k < i ==> (s + [y])[k] != x;
      assert i == j;
    }
  }

  /** The rekeyed dict holds each key once, and its keys are exactly the
      rows' labels; in particular no integer key is left. */
  lemma {:induction false} CollapseKeys(entries: seq<(string, string)>)
    ensures DistinctKeys(Collapse(entries))
    ensures forall k :: k in Keys(Collapse(entries)) <==> k in Names(entries)
  {
    if entries != [] {
      var n := |entries| - 1;
      var front := entries[..n];
      CollapseKeys(front);
      StoreKeys(Collapse(front), Name(entries[n].0), entries[n].1);
      assert Names(entries) == Names(front) + [Name(entries[n].0)];
    }
  }

  /** At most one entry per row, and exactly one when the labels are distinct. */
  lemma {:induction false} CollapseSize(entries: seq<(string, string)>)
    ensures |Collapse(entries)| <= |entries|
    ensures (forall i, j :: 0 <= i < j < |entries| ==> entries[i].0 != entries[j].0) ==>
      |Collapse(entries)| == |entries|
  {
    if entries != [] {
      var n := |entries| - 1;
      var front, k := entries[..n], Name(entries[n].0);
      var c, d := Collapse(front), Collapse(entries);
      CollapseSize(front);
      CollapseKeys(front);
      StoreKeys(c, k, entries[n].1);
      assert |d| == |Keys(d)| && |c| == |Keys(c)|;
      if forall i, j :: 0 <= i < j < |entries| ==> entries[i].0 != entries[j].0 {
        assert forall i :: 0 <= i < |front| ==> Names(front)[i] != k;
        assert k !in Keys(c);
      }
    }
  }

  /** `ks` lists its elements in the order of their first occurrence in `names`. */
  predicate FirstOccurrenceOrder<T(==)>(ks: seq<T>, names: seq<T>)
  {
    forall p, q :: 0 <= p < q < |ks| ==>
      ks[p] in names && ks[q] in names && FirstIndex(names, ks[p]) < FirstIndex(names, ks[q])
  }

  lemma OrderExtend<T>(ks: seq<T>, names: seq<T>, k: T)
    requires forall x :: x in ks <==> x in names
    requires FirstOccurrenceOrder(ks, names)
    ensures FirstOccurrenceOrder(if k in ks then ks else ks + [k], names + [k])
  {
    var ks' := if k in ks then ks else ks + [k];
    forall p, q | 0 <= p < q < |ks'|
      ensures ks'[p] in names + [k] && ks'[q] in names + [k]
      ensures FirstIndex(names + [k], ks'[p]) < FirstIndex(names + [k], ks'[q])
    {
      FirstIndexAppend(names, k, ks'[p]);
      FirstIndexAppend(names, k, ks'[q]);
      if q < |ks| {
        assert ks'[p] == ks[p] && ks'[q] == ks[q];
      } else {
        assert ks'[p] == ks[p] && ks[p] in names && k !in names;
      }
    }
  }

  /** The rekeyed dict lists its labels in the order the rows first
      produced them. */
  lemma {:induction false} CollapseOrder(entries: seq<(string, string)>)
    ensures FirstOccurrenceOrder(Keys(Collapse(entries)), Names(entries))
  {
    if entries != [] {
      var n := |entries| - 1;
      var front, k := entries[..n], Name(entries[n].0);
      var c := Collapse(front);
      CollapseKeys(front);
      CollapseOrder(front);
      StoreKeys(c, k, entries[n].1);
      NamesSnoc(entries);
      OrderExtend(Keys(c), Names(front), k);
    }
  }

  /** Rows whose labels agree carry the same substring. */
  predicate Consistent(entries: seq<(string, string)>)
  {
    forall i, j :: 0 <= i < |entries| && 0 <= j < |entries| && entries[i].0 == entries[j].0 ==>
      entries[i].1 == entries[j].1
  }

  /** Looking up a row's label in the rekeyed dict finds that row's substring. */
  lemma {:induction false} CollapseGet(entries: seq<(string, string)>, i: nat)
    requires Consistent(entries) && i < |entries|
    ensures Get(Collapse(entries), Name(entries[i].0)) == Some(entries[i].1)
  {
    var n := |entries| - 1;
    var front := entries[..n];
    CollapseKeys(front);
    StoreGet(Collapse(front), Name(entries[n].0), entries[n].1);
    if i < n {
      assert Consistent(front);
      CollapseGet(front, i);
    }
  }

  lemma EntriesConsistent(reference: string, locations: seq<Interval>, prefix: string, flanking: int)
    ensures Consistent(Entries(reference, locations, prefix, flanking))
  {
    var es := Entries(reference, locations, prefix, flanking);
    forall i, j | 0 <= i < |es| && 0 <= j < |es| && es[i].0 == es[j].0 ensures es[i].1 == es[j].1 {
      var a, b := locations[i], locations[j];
      assert es[i] == (RegionLabel(prefix, a, flanking), RegionSlice(reference, a, flanking));
      assert es[j] == (RegionLabel(prefix, b, flanking), RegionSlice(reference, b, flanking));
      RegionLabelInjective(prefix, a, b, flanking);
    }
  }

  /** What `refextract` leaves in each dict: under the label of every row,
      that row's substring of the reference; nothing under an integer key;
      rows with equal labels share one entry. */
  lemma ExtractedRegion(reference: string, locations: seq<Interval>, prefix: string, flanking: int, i: nat)
    requires i < |locations|
    ensures var d := Collapse(Entries(reference, locations, prefix, flanking));
      Get(d, Name(RegionLabel(prefix, locations[i], flanking))) ==
        Some(Slice(reference, locations[i].start - flanking, locations[i].end + flanking))
  {
    var es := Entries(reference, locations, prefix, flanking);
    assert es[i] == (RegionLabel(prefix, locations[i], flanking), RegionSlice(reference, locations[i], flanking));
    EntriesConsistent(reference, locations, prefix, flanking);
    CollapseGet(es, i);
  }

  /** The rekeyed dict's values are exactly the rows' substrings. */
  lemma {:induction false} CollapseValues(entries: seq<(string, string)>)
    requires Consistent(entries)
    ensures forall x :: x in Values(Collapse(entries)) <==> exists i :: 0 <= i < |entries| && entries[i].1 == x
  {
    var d := Collapse(entries);
    forall i | 0 <= i < |entries| ensures entries[i].1 in Values(d) {
      CollapseGet(entries, i);
      var j :| 0 <= j < |d| && d[j] == (Name(entries[i].0), entries[i].1);
      assert Values(d)[j] == entries[i].1;
    }
    if entries != [] {
      var n := |entries| - 1;
      var front := entries[..n];
      assert Consistent(front);
      CollapseValues(front);
      CollapseKeys(front);
      StoreValues(Collapse(front), Name(entries[n].0), entries[n].1);
      forall x | x in Values(d) ensures exists i :: 0 <= i < |entries| && entries[i].1 == x {
        if x != entries[n].1 {
          var i :| 0 <= i < |front| && front[i].1 == x;
          assert entries[i].1 == x;
        }
      }
    }
  }

  /** With distinct labels nothing collapses: entry i of the dict is row i. */
  lemma {:induction false} CollapseDistinct(entries: seq<(string, string)>)
    requires forall i, j :: 0 <= i < j < |entries| ==> entries[i].0 != entries[j].0
    ensures Collapse(entries) == seq(|entries|, i requires 0 <= i < |entries| => (Name(entries[i].0), entries[i].1))
  {
    if entries != [] {
      var n := |entries| - 1;
      var front := entries[..n];
      CollapseDistinct(front);
      CollapseKeys(front);
      assert Name(entries[n].0) !in Names(front);
      StoreShape(Collapse(front), Name(entries[n].0), entries[n].1);
    }
  }

  /** The dict part still keyed by row index: rows `from` onwards. */
  function Indexed(values: seq<string>, from: nat): Dict
    requires from <= |values|
  {
    seq(|values| - from, j requires 0 <= j < |values| - from => (Index(from + j), values[from + j]))
  }

  lemma FillStep(values: seq<string>, i: nat)
    requires i < |values|
    ensures Store(Indexed(values[..i], 0), Index(i), values[i]) == Indexed(values[..i + 1], 0)
  {
    var d := Indexed(values[..i], 0);
    KeysAt(d);
    assert Index(i) !in Keys(d);
    StoreShape(d, Index(i), values[i]);
  }

  lemma RekeyStep(values: seq<string>, entries: seq<(string, string)>, i: nat)
    requires |values| == |entries| && i < |values|
    requires forall j :: 0 <= j < |entries| ==> entries[j].1 == values[j]
    ensures var d := Indexed(values, i) + Collapse(entries[..i]);
      Pop(d, Index(i)) == Some((Indexed(values, i + 1) + Collapse(entries[..i]), values[i]))
    ensures Store(Indexed(values, i + 1) + Collapse(entries[..i]), Name(entries[i].0), values[i])
      == Indexed(values, i + 1) + Collapse(entries[..i + 1])
  {
    var d := Indexed(values, i) + Collapse(entries[..i]);
    assert d[0] == (Index(i), values[i]);
    assert d[1..] == Indexed(values, i + 1) + Collapse(entries[..i]);
    KeysAt(Indexed(values, i + 1));
    StoreAfter(Indexed(values, i + 1), Collapse(entries[..i]), Name(entries[i].0), values[i]);
    assert entries[..i + 1][..i] == entries[..i];
  }

  /** The first loop of each block (lines 67-70, 85-88, 103-106): every
      row's substring stored under the row's index. */
  method StoreByIndex(reference: string, locations: seq<Interval>, flanking: int)
    returns (regions: Dict)
    ensures regions == Indexed(Slices(reference, locations, flanking), 0)
  {
    ghost var values := Slices(reference, locations, flanking);
    regions := [];
    var i := 0;
    while i < |locations|
      invariant 0 <= i <= |locations|
      invariant regions == Indexed(values[..i], 0)
    {
      var start, end := locations[i].start, locations[i].end;
      FillStep(values, i);
      regions := Store(regions, Index(i), Slice(reference, start - flanking, end + flanking));
      i := i + 1;
    }
    assert values[..i] == values;
  }

  /** The second loop of each block (lines 72-76, 90-94, 108-112): one label
      per row, in row order. */
  method LabelRows(locations: seq<Interval>, prefix: string, flanking: int)
    returns (ids: seq<string>)
    ensures |ids| == |locations|
    ensures forall i :: 0 <= i < |locations| ==>
      ids[i] == Label(prefix, locations[i].start - flanking, locations[i].end + flanking)
  {
    ids := [];
    var i := 0;
    while i < |locations|
      invariant 0 <= i <= |locations|
      invariant |ids| == i
      invariant forall j :: 0 <= j < i ==>
        ids[j] == Label(prefix, locations[j].start - flanking, locations[j].end + flanking)
    {
      var start, end := locations[i].start, locations[i].end;
      ids := ids + [Label(prefix, start - flanking, end + flanking)];
      i := i + 1;
    }
  }

  /** The third loop of each block (lines 78-79, 96-97, 114-115):
      `d[ids[i]] = d.pop(i)` for every index the dict held when the loop
      started. */
  method MoveToLabels(regions: Dict, ids: seq<string>, ghost values: seq<string>)
    returns (moved: Dict)
    requires |ids| == |values| && regions == Indexed(values, 0)
    ensures moved == Collapse(Zip(ids, values))
  {
    ghost var entries := Zip(ids, values);
    moved := regions;
    var count := |moved|;
    var i := 0;
    assert entries[..0] == [];
    while i < count
      invariant 0 <= i <= count == |values|
      invariant moved == Indexed(values, i) + Collapse(entries[..i])
    {
      RekeyStep(values, entries, i);
      var popped := Pop(moved, Index(i));
      moved := Store(popped.value.0, Name(ids[i]), popped.value.1);
      i := i + 1;
    }
    assert entries[..i] == entries;
  }

  /** One category table's share of `refextract`: the three loops of its
      block. */
  method ExtractRegions(reference: string, locations: seq<Interval>, prefix: string, flanking: int)
    returns (regions: Dict, ids: seq<string>)
    ensures ids == Labels(locations, prefix, flanking)
    ensures regions == Collapse(Entries(reference, locations, prefix, flanking))
  {
    regions := StoreByIndex(reference, locations, flanking);
    ids := LabelRows(locations, prefix, flanking);
    assert ids == Labels(locations, prefix, flanking);
    ghost var values := Slices(reference, locations, flanking);
    regions := MoveToLabels(regions, ids, values);
  }

  /** The three dicts and the unmapped label list `refextract` returns. */
  datatype Extracted = Extracted(mapped: Dict, unmapped: Dict, unmappedIds: seq<string>, conflict: Dict)

  /** `refextract`: mapped and conflict rows are cut at their own
      coordinates, unmapped rows widened by `flanking` on both sides;
      conflict rows carry assembly (seq1) coordinates and are nevertheless
      cut from the reference (line 106). */
  method RefExtract(reference: string, mapped: seq<Interval>, unmapped: seq<Interval>,
                    conflict: seq<Interval>, prefix: string, flanking: int)
    returns (e: Extracted)
    ensures e.mapped == Collapse(Entries(reference, mapped, prefix, 0))
    ensures e.unmapped == Collapse(Entries(reference, unmapped, prefix, flanking))
    ensures e.unmappedIds == Labels(unmapped, prefix, flanking)
    ensures e.conflict == Collapse(Entries(reference, conflict, prefix, 0))
  {
    var mappedDict, _ := ExtractRegions(reference, mapped, prefix, 0);
    var unmappedDict, idunmap := ExtractRegions(reference, unmapped, prefix, flanking);
    var conflictDict, _ := ExtractRegions(reference, conflict, prefix, 0);
    e := Extracted(mappedDict, unmappedDict, idunmap, conflictDict);
  }
}
