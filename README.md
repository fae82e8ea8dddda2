# SASpector summary step, modelled in Dafny

SASpector compares a reference genome with a draft assembly. After the aligner
has written a *backbone* table (one row per aligned block, two coordinate
pairs: `seq0` on the reference, `seq1` on the assembly), the summary step in
`tool/summary.py` does the following:

1. `regions` sorts the backbone rows into four category tables by sign and
   zero tests: mapped, unmapped, conflict and reverse.
2. `refextract` cuts one substring of the reference per table row. It widens
   unmapped rows by `flanking` bases on each side and files every substring
   in a dict under the label `<prefix>_<start>:<end>`.
3. `unmapsum` describes every unmapped region by three things:
   - its GC content and length;
   - the frequency of the 20 amino acids and the stop symbol over the six
     reading frames (forward and reverse complement, offsets 0, 1 and 2,
     NCBI genetic code table 11).
4. `refstats` sums the interval spans of each category and sets the mapped
   and unmapped totals against the reference length.
5. `output` writes the three dicts as FASTA text. `extract_main` chains all
   of the above.

The model keeps the code's own shapes:
- The row filters of `regions` are functions.
- The loops of `refextract`, `unmapsum`, `refstats` and the FASTA writer are
  methods with loop invariants. Each is proved equal to a specification
  function, and the properties are proved about those functions.
- A Python dict is an insertion-ordered association list. `d[k] = v` and
  `d.pop(k)` are functions on it.
- Python's slicing and `str(int)` are written out, and so is the order in
  which exceptions are raised.
- Floating-point quotients are exact ratios (`Ratio(num, den)`).

Modules, one file each:
- `Wrappers`: `Option` and `Result`.
- `PyText`: slices, integer rendering, `str.count`, exceptions.
- `PyDict`: the dict.
- `Backbone`: `regions`.
- `Extract`: `refextract`.
- `Translation`: reverse complement, table 11, the six frames.
- `UnmapSum`: `unmapsum`.
- `RefStats`: `refstats`.
- `Pipeline`: the FASTA text of `output`, `extract_main`, and end-to-end
  properties with worked cases.

## Behaviour of the code worth knowing

- **The four categories overlap and leave rows out.**
  - An all-zero row passes both the unmapped test (line 30) and the
    conflict test (line 34).
  - A row whose `seq1` endpoints are negative is in no table unless its
    `seq0` endpoints are both zero.
  - See `Backbone.CategoriesOverlap` and `Backbone.RegionCounts`.
- **The reverse table filters the whole backbone** (lines 43-45). A row with
  positive `seq1` and negative `seq0` endpoints lands there. The reverse
  table never shares an interval with the mapped table
  (`Backbone.MappedReverseDisjoint`).
- **Flanked slices at the ends of the reference** (line 88,
  `Pipeline.FlankingAtTheEnds`). Take a 1000-base reference and a flanking
  of 10.
  - An end past the reference is clipped: row (990, 1000) holds the last
    20 bases.
  - A start below zero counts from the end, so the slice starts that many
    bases before the end. It is empty unless the region reaches into the
    reference's tail: (5, 20) comes out empty, while (5, 998) holds the
    last five bases.
- **A region shorter than three bases stops the run** with
  `ZeroDivisionError` at line 187, because `len_seq` is 0
  (`UnmapSum.RegionSummaryMeaning`, `Pipeline.ExtractionFails`).
- **A backbone without unmapped rows stops the run** with
  `UnboundLocalError` at line 230, because `codes` is only ever bound
  inside the region loop. The empty backbone is one such case
  (`Pipeline.EmptyBackbone`, `Pipeline.ExtractionFails`).
- **In the model, the 21 percentages total 100 less the share of uncounted
  residues.**
  - A region over A, C, G and T totals exactly 100.
  - In the model, a codon with any other letter reads as `X`, which is not
    counted (`UnmapSum.PercentagesTotal`, `UnmapSum.PercentagesTotal100`,
    `UnmapSum.NoBaseRegion`).
  - Biopython treats such codons differently; see `Translation.Codon`
    under "Left out".
- **On an empty reference, `refstats` divides by zero without always
  raising** (lines 244-268). Each span sum is a numpy int64 once its loop
  has run, and an int64 over 0 gives inf or nan. Only a sum that is still
  the Python int 0 raises `ZeroDivisionError`
  (`RefStats.ReferenceStatsOfRows`, `RefStats.EmptyReferenceInfinite`).
  `extract_main` never gets that far with an empty reference, because
  `unmapsum` fails first (`Pipeline.ExtractionFails`).
- **Two unmapped rows with the same label share one dict entry**, while
  `idunmap` keeps both labels. The `zip` at line 234 then pairs later labels
  with the wrong regions (`Pipeline.DuplicateLabelsShift`).
- **Conflict rows carry assembly coordinates.** They are nevertheless cut
  from the reference (line 106), and their spans count towards the
  reference's mapped fraction (line 256).

## Model

| member | source | states |
|---|---|---|
| Backbone.Where | tool/summary.py:25 | a boolean-mask selection keeps only rows of the input that pass the mask |
| Backbone.WhereColumns | tool/summary.py:25-27 | filtering on `seq1`, projecting to `seq0` and filtering again equals one filter on the combined test followed by the projection |
| Backbone.WhereEmpty | tool/summary.py:25 | a boolean mask selects nothing iff no row passes it |
| Backbone.RegionsExact | tool/summary.py:25-45 | each table holds exactly the rows that pass its category test, projected (to `seq1` for conflict, `seq0` otherwise), in input order; the repeated mapped computation of lines 38-40 is the same table |
| Backbone.RegionsOfRow | tool/summary.py:25-45 | one row lands in mapped iff all four endpoints are positive, unmapped iff both `seq1` endpoints are 0, conflict iff both `seq0` endpoints are 0, and reverse iff the `seq1` endpoints are positive and the `seq0` endpoints negative |
| Backbone.RegionsAppend | tool/summary.py:25-45 | classifying a concatenation concatenates the classifications, so input order is kept |
| Backbone.CategoriesOverlap | tool/summary.py:30-45 | mapped, reverse and conflict exclude each other; an all-zero row is unmapped and conflict; negative `seq1` rows are unclassified unless `seq0` is zero; a reverse row exists |
| Backbone.MappedReverseDisjoint | tool/summary.py:38-45 | no interval is in both the mapped and the reverse table |
| Backbone.RegionCounts | tool/summary.py:25-45 | the four table sizes plus the unclassified rows equal the row count plus the all-zero rows |
| PyText.Slice | tool/summary.py:88 | Python slicing: a negative bound counts from the end, then both are clamped; the result length and elements follow, and within bounds it is the plain subsequence |
| PyText.IntToString | tool/summary.py:75 | `str(n)` is a non-empty string of digits with an optional leading minus |
| PyText.IntRoundTrip | tool/summary.py:75 | `int(str(n)) == n` |
| PyText.IntToStringInjective | tool/summary.py:93 | distinct integers render differently |
| PyText.Count | tool/summary.py:164 | `s.count(c)` is at most `len(s)` |
| PyDict.Values | tool/summary.py:127 | `d.values()` lists entry i's value at position i |
| PyDict.StoreShape | tool/summary.py:79 | `d[k] = v` appends a new key and overwrites an existing key's value where it stands |
| PyDict.StoreGet | tool/summary.py:79 | after `d[k] = v`, `k` holds `v` and every other key holds what it held |
| PyDict.StoreKeys | tool/summary.py:79 | `d[k] = v` keeps keys distinct and adds `k` last only when it is new |
| PyDict.StoreValues | tool/summary.py:97 | `d[k] = v` adds no value other than `v` |
| PyDict.Pop | tool/summary.py:79 | `d.pop(k)` fails (KeyError) iff `k` is absent, and otherwise leaves one entry fewer |
| PyDict.PopRemoves | tool/summary.py:97 | `d.pop(k)` removes exactly `k`'s entry, keeps the others in order, and returns its value |
| Extract.LabelInjective | tool/summary.py:75 | under one prefix, a label `<prefix>_<start>:<end>` determines start and end |
| Extract.RegionLabelInjective | tool/summary.py:93 | two rows with the same flanked label have the same coordinates |
| Extract.CollapseKeys | tool/summary.py:96-97 | after rekeying, keys are distinct and are exactly the rows' labels; no integer key remains |
| Extract.CollapseSize | tool/summary.py:96-97 | the rekeyed dict has at most one entry per row, exactly one when labels are distinct |
| Extract.CollapseOrder | tool/summary.py:96-97 | the labels appear in the order the rows first produced them |
| Extract.CollapseGet | tool/summary.py:78-79 | each row's label finds that row's substring |
| Extract.CollapseValues | tool/summary.py:96-97 | the dict's values are exactly the rows' substrings |
| Extract.CollapseDistinct | tool/summary.py:114-115 | with distinct labels, entry i is row i's label and substring |
| Extract.EntriesConsistent | tool/summary.py:85-94 | rows with equal labels carry equal substrings |
| Extract.ExtractedRegion | tool/summary.py:85-97 | under each row's label the dict holds `reference[start-flanking:end+flanking]` |
| Extract.StoreByIndex | tool/summary.py:85-88 | the first loop stores row i's substring under key i, for every row, in order |
| Extract.LabelRows | tool/summary.py:90-94 | the second loop yields one label per row, `<prefix>_<start-flanking>:<end+flanking>`, in row order |
| Extract.MoveToLabels | tool/summary.py:96-97 | the pop-and-reinsert loop turns the index-keyed dict into the label-keyed one the pairs define |
| Extract.ExtractRegions | tool/summary.py:85-97 | one category block returns its labels and its rekeyed dict |
| Extract.RefExtract | tool/summary.py:51-117 | mapped and conflict rows are cut at their own coordinates, unmapped rows flanked; `idunmap` is the unmapped label list |
| Translation.ReverseComplement | tool/summary.py:131 | position i is the complement of position n-1-i |
| Translation.ReverseComplementInvolution | tool/summary.py:131 | reverse complementing twice gives the strand back |
| Translation.ReverseComplementDna | tool/summary.py:131 | the reverse complement of DNA is DNA |
| Translation.CountReverseComplement | tool/summary.py:131 | the reverse complement has as many of a base as the strand has of its partner |
| Translation.Codon | tool/summary.py:135 | table 11: a codon of A/C/G/T gives one of the 21 symbols, anything else `X`; stops are exactly TAA, TAG, TGA; M is ATG, W is TGG |
| Translation.Translate | tool/summary.py:135 | whole codons only: ⌊n/3⌋ residues |
| Translation.TranslateAt | tool/summary.py:135 | residue k is the codon at bases 3k..3k+2 |
| Translation.SixFrameLength | tool/summary.py:131-136 | frame f has ⌊(n-f)/3⌋ residues, `len_seq` is the sum over six frames, and it is 0 iff n < 3 |
| Translation.FramesReverseComplement | tool/summary.py:131-136 | the reverse complement's six frames hold the same residues and the same length |
| Translation.SymbolTotalSplit | tool/summary.py:161-185 | the 21 counts plus the uncounted residues equal `len_seq` |
| Translation.DnaTranslates | tool/summary.py:135 | DNA translates to the 21 counted symbols only |
| Translation.ResiduesCoverDna | tool/summary.py:161-185 | for DNA the 21 counts add up to `len_seq` |
| Translation.NoBaseFrames | tool/summary.py:131-136 | a region without A, C, G or T gives six frames with no counted symbol |
| UnmapSum.GcContent | tool/summary.py:128 | GC content is at most 100 and has the region length as denominator |
| UnmapSum.GcOfDna | tool/summary.py:128 | for DNA, GC content is 100 minus the A and T share |
| UnmapSum.GcReverseComplement | tool/summary.py:128 | a region and its reverse complement have equal GC content |
| UnmapSum.Percentages | tool/summary.py:187-229 | value k is 100 times symbol k's count over `len_seq` |
| UnmapSum.PercentagesSum | tool/summary.py:187-229 | the numerators total 100 times the symbols' summed count |
| UnmapSum.RegionSummaryMeaning | tool/summary.py:127-229 | a region fails (ZeroDivisionError) iff it is shorter than 3; otherwise length, GC and each percentage as above |
| UnmapSum.PercentagesTotal | tool/summary.py:161-229 | the 21 percentages total 100 less the share of uncounted residues |
| UnmapSum.PercentagesTotal100 | tool/summary.py:161-229 | for DNA of three bases or more the percentages total exactly 100 |
| UnmapSum.NoBaseRegion | tool/summary.py:161-229 | a region of three or more letters with no A, C, G or T has a summary whose percentages are all 0 |
| UnmapSum.StrandSymmetric | tool/summary.py:131-229 | a region and its reverse complement have the same summary |
| UnmapSum.StrandFrames | tool/summary.py:133-136 | one strand's loop yields its frames at offsets 0, 1, 2 |
| UnmapSum.SixFrames | tool/summary.py:131-136 | the six frames, forward strand first |
| UnmapSum.CountResidues | tool/summary.py:138-185 | the loop leaves each symbol's six-frame count and `len_seq` |
| UnmapSum.SummarizeRegion | tool/summary.py:127-229 | one pass of the region loop computes the region's summary or ZeroDivisionError |
| UnmapSum.MapAllMeaning | tool/summary.py:127 | a loop over all elements fails iff some element fails, and otherwise gives result i for element i |
| UnmapSum.SummariesMeaning | tool/summary.py:127-229 | the region loop fails iff some region is shorter than 3, with ZeroDivisionError; otherwise one summary per region, in order |
| UnmapSum.SummarizeAll | tool/summary.py:127-229 | the loop stops at the first failing region |
| UnmapSum.UnmapTableMeaning | tool/summary.py:119-239 | `unmapsum` fails iff there is no region (UnboundLocalError, line 230) or one shorter than 3; otherwise row i pairs label i with region i's summary, up to the shorter list |
| UnmapSum.UnmapSummary | tool/summary.py:119-239 | the method computes that table from the dict's values and `idunmap` |
| RefStats.SpanSumAppend | tool/summary.py:244-259 | span sums add over concatenation |
| RefStats.SumSpans | tool/summary.py:244-259 | each loop leaves the sum of abs(end - start) over its table |
| RefStats.ReferenceStatistics | tool/summary.py:241-268 | the summary: GC, length, counts mapped+reverse+conflict and unmapped, fractions 100·span/length; ZeroDivisionError iff the reference is empty and a fraction's sum is still the Python int 0 (its tables all empty), otherwise an int64 sum over 0 is inf or nan (denominator 0) |
| RefStats.CategorySpans | tool/summary.py:244-259 | the category span sums equal per-row sums over the backbone |
| RefStats.ReferenceStatsOfRows | tool/summary.py:244-268 | over backbone rows: fails iff the reference is empty and either no row is mapped, in conflict or reversed, or no row is unmapped; fractions are the rows' spans over the length; the counts cover every row but the unclassified, with all-zero rows counted twice |
| RefStats.FractionsNeedNotComplement | tool/summary.py:267-268 | one 9-base mapped row on a 10-base reference gives 90 and 0, which do not add to 100 |
| RefStats.EmptyReferenceInfinite | tool/summary.py:244-268 | on an empty reference, a mapped row and an unmapped row give fractions 400/0 and 1000/0 (numpy's inf) instead of an exception |
| Pipeline.WriteFasta | tool/summary.py:294-295 | the write loop produces one `>label` line and one sequence line per entry, in dict order |
| Pipeline.FastaTextAppend | tool/summary.py:294-295 | the text of two record lists is the concatenation of their texts |
| Pipeline.FastaRoundTrip | tool/summary.py:294-295 | reading the text back gives every record in order, when no header or sequence holds a line break |
| Pipeline.EntriesOneLine | tool/summary.py:93-94 | labels and substrings hold no line break when the prefix and reference hold none |
| Pipeline.FastaReadsBack | tool/summary.py:298-300 | each written FASTA file reads back as its dict's (label, substring) pairs |
| Pipeline.CollapseNamed | tool/summary.py:96-97 | the rekeyed dicts have string keys only |
| Pipeline.ExtractMain | tool/summary.py:310-316 | the composition returns the three FASTA texts and two tables, or the first exception |
| Pipeline.UnmappedValues | tool/summary.py:85-97 | the unmapped dict is empty iff there is no unmapped row, and holds a short region iff some flanked slice is short |
| Pipeline.ExtractionFails | tool/summary.py:310-316 | a run fails with UnboundLocalError iff there is no unmapped row, fails at all iff additionally some flanked slice is shorter than 3, and always fails on an empty reference |
| Pipeline.ExtractionUnmapSummary | tool/summary.py:313-314 | a successful run's unmapped table is `unmapsum`'s table |
| Pipeline.UnmapTableAligned | tool/summary.py:234 | with distinct labels, row i of the table is unmapped row i's label and summary |
| Pipeline.ExtractionAligned | tool/summary.py:310-316 | in a successful run with distinct labels, row i of the unmapped summary describes unmapped row i |
| Pipeline.CollapseRepeat | tool/summary.py:96-97 | storing labels a, a, b leaves two entries |
| Pipeline.DuplicateLabelsShift | tool/summary.py:234 | with rows a, a, b the table has two rows, and row 1 carries label a but the statistics of b |
| Pipeline.MappedRowCase | tool/summary.py:25-79 | a positive row (100, 200) yields mapped entry `<prefix>_100:200` holding 100 bases `reference[100:200]` with their GC content |
| Pipeline.UnmappedRowCase | tool/summary.py:30-97 | row (300, 400, 0, 0) with flanking 10 is unmapped, labelled `<prefix>_290:410`, holding `reference[290:410]` |
| Pipeline.EmptyBackbone | tool/summary.py:230 | no rows: empty tables, and the run fails with UnboundLocalError |
| Pipeline.FlankingAtTheEnds | tool/summary.py:88-93 | flanking past the end is clipped; a start below zero counts from the end, so (5, 20) gives label `<prefix>_-5:30` and an empty substring and the run fails, while (5, 998) keeps the last five bases |

## Left out

- File input is not modelled. The backbone rows (`pd.read_table`, line 22) and
  the reference sequence (`SeqIO.read`, lines 54 and 261) are passed in as a
  sequence of integer rows and a string.
- File output is not modelled: `os.makedirs`, the TSV writes and the FASTA
  file handles (lines 286-305). The model produces the text each FASTA file
  receives and the two tables as values.
- Floating-point arithmetic is replaced by exact ratios. Float rounding and
  the printed form of the numbers are not modelled.
- UnmapSum.GcContent: counts only upper-case `G` and `C`. Biopython's
  `SeqUtils.GC` also counts `S` and lower-case letters.
- Translation.Codon: the model reads any codon holding a letter other than
  upper-case A, C, G or T as `X`. Biopython handles such codons in four
  other ways, and the model does not capture them:
  - It upper-cases its input, so a lower-case region counts like an
    upper-case one.
  - It reads U as T, so `AUG` is M and `UUU` is F, where the model gives
    `X` for both.
  - It resolves IUPAC ambiguity codes whenever the amino acid is
    determined (`GGN` is G, `TAR` is the stop).
  - It raises `TranslationError` on a letter outside IUPAC, such as `-`.
    The model returns `X` there and the run goes on.
  - So a region whose percentages total 100 in Biopython can total less in
    the model. A run that Biopython stops, with `TranslationError` or with
    the `ValueError` described under `Translation.ReverseComplement`,
    completes in the model.
- Translation.ReverseComplement: complements only upper-case A, C, G and
  T, and never fails. Biopython differs in three ways the model does not
  capture:
  - It complements lower-case and other IUPAC letters (`R` to `Y`, `a` to
    `t`), which the model leaves as they are.
  - It complements a region holding U as RNA, so A becomes U. The model
    turns A into T and leaves U as it is.
  - It raises `ValueError` ("Mixed RNA/DNA found") on a region holding both
    T and U, which the model does not raise.
- Translation.Translate: a trailing partial codon is dropped without
  Biopython's warning.
- pandas table assembly is not modelled: the `amino` frame, `pd.concat`,
  `reset_index` and `sort_index` (lines 124 and 209-237).
  - The unmapped table is a sequence of rows whose statistics sit beside the
    label.
  - Extra `amino` rows are not modelled. They would exist if the labels were
    fewer than the regions, which `extract_main` never produces.
- Column dtypes are not modelled, except where `refstats` divides an int64
  sum by zero. Coordinates are unbounded integers, so int64 overflow is not
  modelled, and NaN cells are not considered.
- `prefix` and `out` are not modelled as file-name components. `prefix` is
  modelled only as the label prefix.
- The commented-out blocks (lines 57-61 and 276-280) and the unused seaborn
  import are not modelled.
- SASpector/mapper.py is not part of this model. It only launches the
  external aligners and moves their files.
- setup.py is not part of this model. It is packaging only.
