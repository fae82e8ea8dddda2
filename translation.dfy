/** Six-frame translation as `unmapsum` performs it (tool/summary.py:130-136):
    the region and its reverse complement, each read from offsets 0, 1 and
    2, translated codon by codon with NCBI genetic code table 11, and the
    residue counts of lines 161-185 over the six protein strings. */
module Translation {
  import opened PyText

  /** The 21 symbols the per-region table counts, in the order of its
      columns; `*` is the stop symbol. */
  const Residues: string := "ADEGFLYCWPHQIMTNSKRV*"

  predicate IsBase(c: char)
  {
    c == 'A' || c == 'C' || c == 'G' || c == 'T'
  }

  predicate IsDna(s: string)
  {
    forall i :: 0 <= i < |s| ==> IsBase(s[i])
  }

  function Complement(c: char): char
  {
    match c
    case 'A' => 'T'
    case 'T' => 'A'
    case 'C' => 'G'
    case 'G' => 'C'
    case _ => c
  }

  /** `Seq.reverse_complement()`. */
  function ReverseComplement(s: string): (r: string)
    ensures |r| == |s|
    ensures forall i :: 0 <= i < |s| ==> r[i] == Complement(s[|s| - 1 - i])
  {
    if s == [] then [] else ReverseComplement(s[1..]) + [Complement(s[0])]
  }

  /** The reverse complement of the reverse complement is the strand itself. */
  lemma ReverseComplementInvolution(s: string)
    ensures ReverseComplement(ReverseComplement(s)) == s
  {
    var r := ReverseComplement(s);
    var rr := ReverseComplement(r);
    forall i | 0 <= i < |s| ensures rr[i] == s[i] {
      assert rr[i] == Complement(r[|s| - 1 - i]);
      assert r[|s| - 1 - i] == Complement(s[i]);
    }
  }

  /** Reverse complementing trades each base's count for its partner's. */
  lemma {:induction false} CountReverseComplement(s: string, c: char)
    requires IsBase(c)
    ensures Count(ReverseComplement(s), c) == Count(s, Complement(c))
  {
    if s != [] {
      CountReverseComplement(s[1..], c);
      CountAppend(ReverseComplement(s[1..]), [Complement(s[0])], c);
      assert Count([Complement(s[0])], c) == if s[0] == Complement(c) then 1 else 0;
    }
  }

  /** The reverse complement of DNA is DNA. */
  lemma ReverseComplementDna(s: string)
    requires IsDna(s)
    ensures IsDna(ReverseComplement(s))
  {
    var r := ReverseComplement(s);
    forall i | 0 <= i < |r| ensures IsBase(r[i]) {
      assert IsBase(s[|s| - 1 - i]);
    }
  }

  /** NCBI table 11 (the bacterial, archaeal and plant plastid code) for one
      codon; a codon holding anything but A, C, G and T reads as `X`. */
  function Codon(a: char, b: char, c: char): (r: char)
    ensures r in Residues <==> IsBase(a) && IsBase(b) && IsBase(c)
    ensures !(IsBase(a) && IsBase(b) && IsBase(c)) ==> r == 'X'
    ensures r == '*' <==> a == 'T' && ((b == 'A' && (c == 'A' || c == 'G')) || (b == 'G' && c == 'A'))
    ensures r == 'M' <==> a == 'A' && b == 'T' && c == 'G'
    ensures r == 'W' <==> a == 'T' && b == 'G' && c == 'G'
  {
    if !(IsBase(a) && IsBase(b) && IsBase(c)) then 'X'
    else
      var pyrimidine := c == 'T' || c == 'C';
      match a
      case 'T' =>
        (match b
         case 'T' => if pyrimidine then 'F' else 'L'
         case 'C' => 'S'
         case 'A' => if pyrimidine then 'Y' else '*'
         case _ => if pyrimidine then 'C' else if c == 'A' then '*' else 'W')
      case 'C' =>
        (match b
         case 'T' => 'L'
         case 'C' => 'P'
         case 'A' => if pyrimidine then 'H' else 'Q'
         case _ => 'R')
      case 'A' =>
        (match b
         case 'T' => if c == 'G' then 'M' else 'I'
         case 'C' => 'T'
         case 'A' => if pyrimidine then 'N' else 'K'
         case _ => if pyrimidine then 'S' else 'R')
      case _ =>
        (match b
         case 'T' => 'V'
         case 'C' => 'A'
         case 'A' => if pyrimidine then 'D' else 'E'
         case _ => 'G')
  }

  /** `Seq.translate(table = 11)`: whole codons only, read through stops. */
  function Translate(s: string): (p: string)
    ensures |p| == |s| / 3
  {
    if |s| < 3 then [] else [Codon(s[0], s[1], s[2])] + Translate(s[3..])
  }

  /** Residue k is the translation of bases 3k, 3k + 1 and 3k + 2. */
  lemma {:induction false} TranslateAt(s: string)
    ensures forall k :: 0 <= k < |Translate(s)| ==>
      Translate(s)[k] == Codon(s[3 * k], s[3 * k + 1], s[3 * k + 2])
  {
    if |s| >= 3 {
      var rest := s[3..];
      TranslateAt(rest);
      var p := Translate(s);
      forall k | 0 < k < |p| ensures p[k] == Codon(s[3 * k], s[3 * k + 1], s[3 * k + 2]) {
        assert p[k] == Translate(rest)[k - 1];
        assert 3 * (k - 1) + 2 < |rest|;
        assert rest[3 * (k - 1)] == s[3 * k];
      }
    }
  }

  /** The translation of `strand[offset:]`. */
  function Frame(strand: string, offset: nat): string
  {
    Translate(Suffix(strand, offset))
  }

  /** The six protein strings of lines 131-136, forward frames first. */
  function Frames(s: string): seq<string>
  {
    var r := ReverseComplement(s);
    [Frame(s, 0), Frame(s, 1), Frame(s, 2), Frame(r, 0), Frame(r, 1), Frame(r, 2)]
  }

  /** Number of residues a frame at `offset` yields from `n` bases. */
  function FrameLength(n: nat, offset: nat): nat
  {
    if n < offset then 0 else (n - offset) / 3
  }

  /** `len_seq` after line 185: the lengths of the six protein strings. */
  function TotalLength(codes: seq<string>): nat
  {
    if codes == [] then 0 else TotalLength(codes[..|codes| - 1]) + |codes[|codes| - 1]|
  }

  /** One symbol's count summed over the protein strings (lines 164-184). */
  function ResidueCount(codes: seq<string>, c: char): nat
  {
    if codes == [] then 0 else ResidueCount(codes[..|codes| - 1], c) + Count(codes[|codes| - 1], c)
  }

  /** Frame at offset f of an n-base region has ⌊(n − f)/3⌋ residues, so
      `len_seq` is twice the three forward frame lengths, and it is zero
      exactly when the region is shorter than three bases. */
  lemma SixFrameLength(s: string)
    ensures forall f :: 0 <= f < 3 ==>
      |Frame(s, f)| == FrameLength(|s|, f) && |Frame(ReverseComplement(s), f)| == FrameLength(|s|, f)
    ensures var n := |s|;
      TotalLength(Frames(s)) == 2 * (FrameLength(n, 0) + FrameLength(n, 1) + FrameLength(n, 2))
    ensures TotalLength(Frames(s)) == 0 <==> |s| < 3
  {
    var r := ReverseComplement(s);
    forall f | 0 <= f < 3 ensures |Frame(s, f)| == FrameLength(|s|, f) && |Frame(r, f)| == FrameLength(|s|, f) {
    }
    SixLengths(Frame(s, 0), Frame(s, 1), Frame(s, 2), Frame(r, 0), Frame(r, 1), Frame(r, 2));
  }

  lemma SixLengths(a: string, b: string, c: string, d: string, e: string, f: string)
    ensures TotalLength([a, b, c, d, e, f]) == |a| + |b| + |c| + |d| + |e| + |f|
  {
    var codes := [a, b, c, d, e, f];
    assert codes[..1][..0] == [];
    assert TotalLength(codes[..1]) == |a|;
    assert codes[..2][..1] == codes[..1];
    assert TotalLength(codes[..2]) == |a| + |b|;
    assert codes[..3][..2] == codes[..2];
    assert TotalLength(codes[..3]) == |a| + |b| + |c|;
    assert codes[..4][..3] == codes[..3];
    assert TotalLength(codes[..4]) == |a| + |b| + |c| + |d|;
    assert codes[..5][..4] == codes[..4];
    assert TotalLength(codes[..5]) == |a| + |b| + |c| + |d| + |e|;
    assert codes[..5] == codes[..|codes| - 1];
  }

  lemma SixCounts(a: string, b: string, c: string, d: string, e: string, f: string, x: char)
    ensures ResidueCount([a, b, c, d, e, f], x)
      == Count(a, x) + Count(b, x) + Count(c, x) + Count(d, x) + Count(e, x) + Count(f, x)
  {
    var codes := [a, b, c, d, e, f];
    assert codes[..1][..0] == [];
    assert ResidueCount(codes[..1], x) == Count(a, x);
    assert codes[..2][..1] == codes[..1];
    assert ResidueCount(codes[..2], x) == Count(a, x) + Count(b, x);
    assert codes[..3][..2] == codes[..2];
    assert ResidueCount(codes[..3], x) == Count(a, x) + Count(b, x) + Count(c, x);
    assert codes[..4][..3] == codes[..3];
    assert ResidueCount(codes[..4], x) == Count(a, x) + Count(b, x) + Count(c, x) + Count(d, x);
    assert codes[..5][..4] == codes[..4];
    assert ResidueCount(codes[..5], x) == Count(a, x) + Count(b, x) + Count(c, x) + Count(d, x) + Count(e, x);
    assert codes[..5] == codes[..|codes| - 1];
  }

  /** The reverse complement's six frames are the region's own six, the
      two strands swapped: the same residues, counted the same. */
  lemma FramesReverseComplement(s: string)
    ensures TotalLength(Frames(ReverseComplement(s))) == TotalLength(Frames(s))
    ensures forall x :: ResidueCount(Frames(ReverseComplement(s)), x) == ResidueCount(Frames(s), x)
  {
    var r := ReverseComplement(s);
    ReverseComplementInvolution(s);
    assert Frames(r) == [Frame(r, 0), Frame(r, 1), Frame(r, 2), Frame(s, 0), Frame(s, 1), Frame(s, 2)];
    SwapHalves(Frame(s, 0), Frame(s, 1), Frame(s, 2), Frame(r, 0), Frame(r, 1), Frame(r, 2));
  }

  lemma SwapHalves(a: string, b: string, c: string, d: string, e: string, f: string)
    ensures TotalLength([d, e, f, a, b, c]) == TotalLength([a, b, c, d, e, f])
    ensures forall x :: ResidueCount([d, e, f, a, b, c], x) == ResidueCount([a, b, c, d, e, f], x)
  {
    SixLengths(a, b, c, d, e, f);
    SixLengths(d, e, f, a, b, c);
    forall x ensures ResidueCount([d, e, f, a, b, c], x) == ResidueCount([a, b, c, d, e, f], x) {
      SixCounts(a, b, c, d, e, f, x);
      SixCounts(d, e, f, a, b, c, x);
    }
  }

  /** Sum over the symbols `syms` of their counts in `codes`. */
  function SymbolTotal(codes: seq<string>, syms: string): nat
  {
    if syms == [] then 0 else ResidueCount(codes, syms[0]) + SymbolTotal(codes, syms[1..])
  }

  /** Sum over the symbols `syms` of their counts in one string. */
  function StringTotal(p: string, syms: string): nat
  {
    if syms == [] then 0 else Count(p, syms[0]) + StringTotal(p, syms[1..])
  }

  /** Every symbol of `p` is one of `syms`. */
  predicate Over(p: string, syms: string)
  {
    forall i :: 0 <= i < |p| ==> p[i] in syms
  }

  predicate Distinct(syms: string)
  {
    forall i, j :: 0 <= i < j < |syms| ==> syms[i] != syms[j]
  }

  /** Exactly one of a list of distinct symbols matches `x` when `x` is
      among them, none otherwise. */
  lemma {:induction false} Matches(x: char, syms: string)
    requires Distinct(syms)
    ensures StringTotal([x], syms) == if x in syms then 1 else 0
  {
    if syms != [] {
      assert [x][1..] == [];
      Matches(x, syms[1..]);
      assert x in syms <==> x == syms[0] || x in syms[1..];
    }
  }

  lemma {:induction false} SymbolTotalSnoc(codes: seq<string>, p: string, syms: string)
    ensures SymbolTotal(codes + [p], syms) == SymbolTotal(codes, syms) + StringTotal(p, syms)
  {
    if syms != [] {
      assert (codes + [p])[..|codes|] == codes;
      SymbolTotalSnoc(codes, p, syms[1..]);
    }
  }

  lemma {:induction false} StringTotalAppend(a: string, b: string, syms: string)
    ensures StringTotal(a + b, syms) == StringTotal(a, syms) + StringTotal(b, syms)
  {
    if syms != [] {
      CountAppend(a, b, syms[0]);
      StringTotalAppend(a, b, syms[1..]);
    }
  }

  /** The counts of distinct symbols in a string made of those symbols add
      up to its length. */
  lemma {:induction false} StringTotalIsLength(p: string, syms: string)
    requires Distinct(syms)
    requires Over(p, syms)
    ensures StringTotal(p, syms) == |p|
  {
    if p == [] {
      EmptyTotal(syms);
    } else {
      assert p == [p[0]] + p[1..];
      StringTotalAppend([p[0]], p[1..], syms);
      Matches(p[0], syms);
      StringTotalIsLength(p[1..], syms);
    }
  }

  lemma {:induction false} EmptyTotal(syms: string)
    ensures StringTotal("", syms) == 0
  {
    if syms != [] {
      EmptyTotal(syms[1..]);
    }
  }

  lemma {:induction false} NoCodes(syms: string)
    ensures SymbolTotal([], syms) == 0
  {
    if syms != [] {
      NoCodes(syms[1..]);
    }
  }

  /** Over protein strings made of the counted symbols, the symbol counts
      add up to `len_seq`. */
  lemma {:induction false} SymbolTotalIsLength(codes: seq<string>, syms: string)
    requires Distinct(syms)
    requires forall f :: 0 <= f < |codes| ==> Over(codes[f], syms)
    ensures SymbolTotal(codes, syms) == TotalLength(codes)
  {
    if codes == [] {
      NoCodes(syms);
    } else {
      var n := |codes| - 1;
      assert codes == codes[..n] + [codes[n]];
      SymbolTotalSnoc(codes[..n], codes[n], syms);
      SymbolTotalIsLength(codes[..n], syms);
      StringTotalIsLength(codes[n], syms);
    }
  }

  /** Number of symbols of `p` that are not among `syms`. */
  function Outside(p: string, syms: string): nat
  {
    if p == [] then 0 else (if p[0] in syms then 0 else 1) + Outside(p[1..], syms)
  }

  /** `Outside` summed over the protein strings. */
  function OutsideTotal(codes: seq<string>, syms: string): nat
  {
    if codes == [] then 0 else OutsideTotal(codes[..|codes| - 1], syms) + Outside(codes[|codes| - 1], syms)
  }

  /** Each symbol of a string is counted under exactly one of a list of
      distinct symbols, or is outside it. */
  lemma {:induction false} StringTotalSplit(p: string, syms: string)
    requires Distinct(syms)
    ensures StringTotal(p, syms) + Outside(p, syms) == |p|
  {
    if p == [] {
      EmptyTotal(syms);
    } else {
      assert p == [p[0]] + p[1..];
      StringTotalAppend([p[0]], p[1..], syms);
      Matches(p[0], syms);
      StringTotalSplit(p[1..], syms);
    }
  }

  /** Over all the protein strings, the counted symbols and the uncounted
      ones together make up `len_seq`. */
  lemma {:induction false} SymbolTotalSplit(codes: seq<string>, syms: string)
    requires Distinct(syms)
    ensures SymbolTotal(codes, syms) + OutsideTotal(codes, syms) == TotalLength(codes)
  {
    if codes == [] {
      NoCodes(syms);
    } else {
      var n := |codes| - 1;
      assert codes == codes[..n] + [codes[n]];
      SymbolTotalSnoc(codes[..n], codes[n], syms);
      SymbolTotalSplit(codes[..n], syms);
      StringTotalSplit(codes[n], syms);
    }
  }

  /** No symbol of any of the strings is among `syms`. */
  lemma {:induction false} OutsideTotalAll(codes: seq<string>, syms: string)
    requires forall f, i :: 0 <= f < |codes| && 0 <= i < |codes[f]| ==> codes[f][i] !in syms
    ensures OutsideTotal(codes, syms) == TotalLength(codes)
  {
    if codes != [] {
      var n := |codes| - 1;
      OutsideTotalAll(codes[..n], syms);
      OutsideAll(codes[n], syms);
    }
  }

  lemma {:induction false} OutsideAll(p: string, syms: string)
    requires forall i :: 0 <= i < |p| ==> p[i] !in syms
    ensures Outside(p, syms) == |p|
  {
    if p != [] {
      OutsideAll(p[1..], syms);
    }
  }

  /** Not one of A, C, G and T anywhere. */
  predicate NoBase(s: string)
  {
    forall i :: 0 <= i < |s| ==> !IsBase(s[i])
  }

  lemma NoBaseTranslates(s: string)
    requires NoBase(s)
    ensures forall k :: 0 <= k < |Translate(s)| ==> Translate(s)[k] == 'X'
  {
    TranslateAt(s);
  }

  lemma NoBaseFrame(strand: string, offset: nat)
    requires NoBase(strand)
    ensures forall k :: 0 <= k < |Frame(strand, offset)| ==> Frame(strand, offset)[k] !in Residues
  {
    var part := Suffix(strand, offset);
    assert NoBase(part);
    NoBaseTranslates(part);
    XUncounted();
  }

  lemma XUncounted()
    ensures 'X' !in Residues
  {
    forall k | 0 <= k < |Residues| ensures ResidueIndex(Residues[k]) == k {
    }
    assert ResidueIndex('X') == -1;
  }

  /** Every residue of the six frames of a region without A, C, G or T is
      outside the 21 counted symbols. */
  lemma NoBaseFrames(s: string)
    requires NoBase(s)
    ensures forall f, i :: 0 <= f < |Frames(s)| && 0 <= i < |Frames(s)[f]| ==> Frames(s)[f][i] !in Residues
  {
    var r := ReverseComplement(s);
    assert NoBase(r) by {
      forall i | 0 <= i < |r| ensures !IsBase(r[i]) {
        assert !IsBase(s[|s| - 1 - i]);
      }
    }
    NoBaseFrame(s, 0);
    NoBaseFrame(s, 1);
    NoBaseFrame(s, 2);
    NoBaseFrame(r, 0);
    NoBaseFrame(r, 1);
    NoBaseFrame(r, 2);
  }

  /** Translating DNA yields only the 21 counted symbols. */
  lemma DnaTranslates(s: string)
    requires IsDna(s)
    ensures Over(Translate(s), Residues)
  {
    TranslateAt(s);
  }

  lemma DnaFrame(strand: string, offset: nat)
    requires IsDna(strand)
    ensures Over(Frame(strand, offset), Residues)
  {
    var part := Suffix(strand, offset);
    assert IsDna(part);
    DnaTranslates(part);
  }

  lemma DnaFrames(s: string)
    requires IsDna(s)
    ensures forall f :: 0 <= f < |Frames(s)| ==> Over(Frames(s)[f], Residues)
  {
    ReverseComplementDna(s);
    var r := ReverseComplement(s);
    DnaFrame(s, 0);
    DnaFrame(s, 1);
    DnaFrame(s, 2);
    DnaFrame(r, 0);
    DnaFrame(r, 1);
    DnaFrame(r, 2);
    AllOver([Frame(s, 0), Frame(s, 1), Frame(s, 2), Frame(r, 0), Frame(r, 1), Frame(r, 2)], Residues);
  }

  lemma AllOver(codes: seq<string>, syms: string)
    requires |codes| == 6
    requires Over(codes[0], syms) && Over(codes[1], syms) && Over(codes[2], syms)
    requires Over(codes[3], syms) && Over(codes[4], syms) && Over(codes[5], syms)
    ensures forall f :: 0 <= f < |codes| ==> Over(codes[f], syms)
  {
  }

  /** Position of a symbol in `Residues`. */
  function ResidueIndex(c: char): int
  {
    match c
    case 'A' => 0 case 'D' => 1 case 'E' => 2 case 'G' => 3 case 'F' => 4
    case 'L' => 5 case 'Y' => 6 case 'C' => 7 case 'W' => 8 case 'P' => 9
    case 'H' => 10 case 'Q' => 11 case 'I' => 12 case 'M' => 13 case 'T' => 14
    case 'N' => 15 case 'S' => 16 case 'K' => 17 case 'R' => 18 case 'V' => 19
    case '*' => 20 case _ => -1
  }

  lemma ResiduesDistinct()
    ensures Distinct(Residues)
  {
    forall k | 0 <= k < |Residues| ensures ResidueIndex(Residues[k]) == k {
    }
  }

  /** For a region over A, C, G and T the 21 counts of lines 164-184 add up
      to `len_seq`: the per-region percentages total exactly 100. */
  lemma ResiduesCoverDna(s: string)
    requires IsDna(s)
    ensures SymbolTotal(Frames(s), Residues) == TotalLength(Frames(s))
  {
    DnaFrames(s);
    ResiduesDistinct();
    SymbolTotalIsLength(Frames(s), Residues);
  }
}
