/** The per-exon BED rows of `BEDGenerator.create_df_bedfile`: decode the comma-terminated
    exon boundary lists of each joined transcript, emit one row per exon with strand-aware
    exon numbers, drop duplicate rows and order the result by chromosome. */
module BedCoordinates {

  import opened Common
  import opened Text

  /** The chromosome categories, in sort order. */
  const CHROMOSOMES: seq<string> :=
    ["chr1", "chr2", "chr3", "chr4", "chr5", "chr6", "chr7", "chr8",
     "chr9", "chr10", "chr11", "chr12", "chr13", "chr14", "chr15",
     "chr16", "chr17", "chr18", "chr19", "chr20", "chr21", "chr22",
     "chrX", "chrY", "chrMT"]

  /** A transcript joined to its exon record: the refseq ID (the join key), and the
      `chrom`, `strand`, `exonStarts` and `exonEnds` columns of the exon table. */
  datatype Transcript = Transcript(refseq: string, chrom: string, strand: string, exonStarts: string, exonEnds: string)

  /** One line of the region file: 0-based half-open `[chromStart, chromEnd)`. */
  datatype BedRow = BedRow(chrom: string, chromStart: int, chromEnd: int, name: string, strand: string)

  /** What makes the BED stage raise (or, for an unknown chromosome, what the model rejects). */
  datatype BedError =
    | BadCoordinate(refseq: string, token: string)  // int() of a boundary token fails
    | LengthMismatch(refseq: string)                // exonStarts and exonEnds differ in length
    | NothingToConcatenate                          // pd.concat of an empty list of frames
    | UnknownChromosome(chrom: string)              // not one of CHROMOSOMES
    | NoTranscriptId(field: string)                 // a panel name field without an N[RM]_<digits> ID

  // ---------------------------------------------------------------- chromosome order

  function RankFrom(c: string, j: nat): (k: nat)
    requires j <= |CHROMOSOMES|
    ensures j <= k <= |CHROMOSOMES|
    ensures k < |CHROMOSOMES| ==> CHROMOSOMES[k] == c
    ensures forall i :: j <= i < k ==> CHROMOSOMES[i] != c
    decreases |CHROMOSOMES| - j
  {
    if j == |CHROMOSOMES| then j
    else if CHROMOSOMES[j] == c then j
    else RankFrom(c, j + 1)
  }

  /** The position of `c` in CHROMOSOMES; a name outside the enumeration ranks after all of them,
      as a missing category value sorts last. */
  function ChromRank(c: string): (k: nat)
    ensures k <= |CHROMOSOMES|
    ensures k < |CHROMOSOMES| <==> c in CHROMOSOMES
    ensures k < |CHROMOSOMES| ==> CHROMOSOMES[k] == c
  {
    RankFrom(c, 0)
  }

  /** Distinct chromosomes have distinct ranks, and each rank is the chromosome's place in the order. */
  lemma ChromRankOfEnumeration(k: nat)
    requires k < |CHROMOSOMES|
    ensures ChromRank(CHROMOSOMES[k]) == k
  {
    assert forall i, j :: 0 <= i < j < |CHROMOSOMES| ==> CHROMOSOMES[i] != CHROMOSOMES[j];
  }

  /** Non-decreasing by chromosome rank. */
  predicate SortedByChrom(rows: seq<BedRow>)
  {
    SortedBy(rows, ChromKey)
  }

  // ---------------------------------------------------------------- boundary lists

  /** `map(int, tokens)`, forced: the first token `int()` rejects is the error (`ParseTokensFirstBad`). */
  function ParseTokens(tokens: seq<string>): (r: Result<seq<int>, string>)
    ensures r.Ok? <==> forall i :: 0 <= i < |tokens| ==> ParseInt(tokens[i]).Some?
    ensures r.Ok? ==> |r.value| == |tokens|
    ensures r.Ok? ==> forall i :: 0 <= i < |tokens| ==> ParseInt(tokens[i]) == Some(r.value[i])
    ensures r.Err? ==> r.error in tokens && ParseInt(r.error).None?
  {
    if |tokens| == 0 then Ok([])
    else match ParseInt(tokens[0])
      case None => Err(tokens[0])
      case Some(x) =>
        match ParseTokens(tokens[1..])
        case Err(bad) => Err(bad)
        case Ok(xs) => Ok([x] + xs)
  }

  /** The error of `ParseTokens` is the first rejected token: every token before it parses. */
  lemma {:induction false} ParseTokensFirstBad(tokens: seq<string>)
    ensures ParseTokens(tokens).Err? ==>
      exists j :: 0 <= j < |tokens| && tokens[j] == ParseTokens(tokens).error &&
                  forall i :: 0 <= i < j ==> ParseInt(tokens[i]).Some?
  {
    if |tokens| > 0 && ParseInt(tokens[0]).Some? && ParseTokens(tokens).Err? {
      ParseTokensFirstBad(tokens[1..]);
      var j :| 0 <= j < |tokens[1..]| && tokens[1..][j] == ParseTokens(tokens).error &&
               forall i :: 0 <= i < j ==> ParseInt(tokens[1..][i]).Some?;
      assert tokens[j + 1] == ParseTokens(tokens).error;
    }
  }

  /** The tokens of a boundary list: `field.strip(',').split(',')`. */
  function Tokens(field: string): (tokens: seq<string>)
    ensures |tokens| >= 1
    ensures forall i :: 0 <= i < |tokens| ==> ',' !in tokens[i]
    ensures Join(tokens, ',') == Strip(field, ',')
  {
    JoinSplit(Strip(field, ','), ',');
    Split(Strip(field, ','), ',')
  }

  /** `map(int, field.strip(',').split(','))`: one number per comma-separated token of the stripped
      field, or the first token `int()` rejects. */
  function ParseCoordinates(field: string): (r: Result<seq<int>, string>)
    ensures r.Ok? <==> forall i :: 0 <= i < |Tokens(field)| ==> ParseInt(Tokens(field)[i]).Some?
    ensures r.Ok? ==> |r.value| == |Tokens(field)| >= 1
    ensures r.Ok? ==> forall i :: 0 <= i < |r.value| ==> ParseInt(Tokens(field)[i]) == Some(r.value[i])
    ensures r.Err? ==> r.error in Tokens(field) && ParseInt(r.error).None?
  {
    ParseTokens(Tokens(field))
  }

  /** The error of `ParseCoordinates` is the first token of the stripped field that `int()` rejects. */
  lemma ParseCoordinatesFirstBad(field: string)
    ensures ParseCoordinates(field).Err? ==>
      exists j :: 0 <= j < |Tokens(field)| && Tokens(field)[j] == ParseCoordinates(field).error &&
                  forall i :: 0 <= i < j ==> ParseInt(Tokens(field)[i]).Some?
  {
    ParseTokensFirstBad(Tokens(field));
  }

  /** The annotation tables' encoding of a boundary list: every number followed by a comma. */
  function FormatCoordinates(xs: seq<nat>): string
  {
    if |xs| == 0 then "" else NatToDecimal(xs[0]) + [','] + FormatCoordinates(xs[1..])
  }

  /** `str(x)` for every `x`, in order. */
  function Decimals(xs: seq<nat>): seq<string>
  {
    seq(|xs|, i requires 0 <= i < |xs| => NatToDecimal(xs[i]))
  }

  lemma {:induction false} FormatIsJoin(xs: seq<nat>)
    requires |xs| >= 1
    ensures FormatCoordinates(xs) == Join(Decimals(xs), ',') + [',']
    ensures |Join(Decimals(xs), ',')| >= 1
    ensures Join(Decimals(xs), ',')[0] == NatToDecimal(xs[0])[0]
    ensures IsDigit(Join(Decimals(xs), ',')[|Join(Decimals(xs), ',')| - 1])
  {
    var ds := Decimals(xs);
    if |xs| > 1 {
      FormatIsJoin(xs[1..]);
      assert Decimals(xs[1..]) == ds[1..];
    }
  }

  lemma {:induction false} ParsePrintedTokens(xs: seq<nat>)
    ensures ParseTokens(Decimals(xs)) == Ok(xs)
  {
    if |xs| > 0 {
      ParsePrinted(xs[0]);
      ParsePrintedTokens(xs[1..]);
      assert Decimals(xs)[0] == NatToDecimal(xs[0]);
      assert Decimals(xs)[1..] == Decimals(xs[1..]);
      assert xs == [xs[0]] + xs[1..];
    }
  }

  /** Printed numbers contain no comma. */
  lemma DecimalsCommaFree(xs: seq<nat>)
    ensures |Decimals(xs)| == |xs|
    ensures forall i :: 0 <= i < |Decimals(xs)| ==> ',' !in Decimals(xs)[i]
  {
    var ds := Decimals(xs);
    forall i | 0 <= i < |ds| ensures ',' !in ds[i] {
      assert ds[i] == NatToDecimal(xs[i]);
      assert AllDigits(ds[i]);
    }
  }

  /** The tokens of the encoding are the printed numbers. */
  lemma TokensOfFormat(xs: seq<nat>)
    requires |xs| >= 1
    ensures Tokens(FormatCoordinates(xs)) == Decimals(xs)
  {
    var ds := Decimals(xs);
    var joined := Join(ds, ',');
    calc {
      Tokens(FormatCoordinates(xs));
      Split(Strip(FormatCoordinates(xs), ','), ',');
      { FormatIsJoin(xs); }
      Split(Strip(joined + [','], ','), ',');
      { FormatIsJoin(xs);
        assert IsDigit(joined[0]) by {
          assert AllDigits(NatToDecimal(xs[0]));
        }
        StripTerminated(joined, ','); }
      Split(joined, ',');
      { DecimalsCommaFree(xs);
        SplitJoin(ds, ','); }
      ds;
    }
  }

  /** Decoding the comma-terminated encoding of a non-empty list gives back the list. */
  lemma CoordinatesRoundTrip(xs: seq<nat>)
    requires |xs| >= 1
    ensures ParseCoordinates(FormatCoordinates(xs)) == Ok(xs)
  {
    TokensOfFormat(xs);
    ParsePrintedTokens(xs);
  }

  /** An empty field is one empty token, which `int()` rejects, so a transcript needs at least one exon. */
  lemma EmptyFieldRejected()
    ensures ParseCoordinates("") == Err("")
    ensures ParseCoordinates(",") == Err("")
  {
    assert Tokens("") == [""];
    assert Strip(",", ',') == "";
    assert Tokens(",") == [""];
  }

  // ---------------------------------------------------------------- one transcript

  /** Exon number of the `i`-th boundary pair of a `k`-exon transcript: `i + 1` on the `+` strand,
      counted from the other end on any other strand. */
  function ExonNumber(strand: string, k: nat, i: nat): (n: nat)
    requires i < k
    ensures 1 <= n <= k
  {
    if strand == "+" then i + 1 else k - i
  }

  function ExonName(refseq: string, n: nat): string
  {
    refseq + "_exon" + NatToDecimal(n)
  }

  /** The exon numbers of a `k`-exon transcript, in boundary order. */
  function ExonNumbers(strand: string, k: nat): seq<nat>
  {
    seq(k, i requires 0 <= i < k => ExonNumber(strand, k, i))
  }

  /** Off the `+` strand the numbers are `range(k)[::-1]`: the `+` numbering read backwards. */
  lemma ExonNumbersReversed(strand: string, k: nat)
    ensures |ExonNumbers(strand, k)| == |ExonNumbers("+", k)| == k
    ensures strand != "+" ==> forall i :: 0 <= i < k ==> ExonNumbers(strand, k)[i] == ExonNumbers("+", k)[k - 1 - i]
  {
  }

  /** The exon numbers of a transcript are a permutation of 1..k, whatever the strand:
      k distinct numbers, and each of 1..k among them. */
  lemma ExonNumbersPermutation(strand: string, k: nat)
    ensures NoDuplicates(ExonNumbers(strand, k))
    ensures forall n :: n in ExonNumbers(strand, k) <==> 1 <= n <= k
  {
    var ns := ExonNumbers(strand, k);
    forall n | 1 <= n <= k ensures n in ns {
      var i := if strand == "+" then n - 1 else k - n;
      assert ns[i] == n;
    }
  }

  /** Numbering follows transcription: on `+` it rises with the boundary index (and so with the
      genomic start, the tables listing exons left to right); on any other strand it falls, so the
      leftmost exon is number `k` and the rightmost number 1. */
  lemma ExonNumbersFollowStrand(strand: string, k: nat)
    ensures strand == "+" ==> forall i, j :: 0 <= i < j < k ==> ExonNumber(strand, k, i) < ExonNumber(strand, k, j)
    ensures strand != "+" ==> forall i, j :: 0 <= i < j < k ==> ExonNumber(strand, k, i) > ExonNumber(strand, k, j)
    ensures strand != "+" && k > 0 ==> ExonNumber(strand, k, 0) == k && ExonNumber(strand, k, k - 1) == 1
  {
  }

  /** The rows of one joined transcript (one `pd.DataFrame(data={...})` of the comprehension). */
  function ExpandTranscript(t: Transcript): (r: Result<seq<BedRow>, BedError>)
    ensures r.Ok? <==> ParseCoordinates(t.exonStarts).Ok? && ParseCoordinates(t.exonEnds).Ok? &&
                       |ParseCoordinates(t.exonStarts).value| == |ParseCoordinates(t.exonEnds).value|
    ensures r.Ok? ==> |r.value| == |Tokens(t.exonStarts)| >= 1
    ensures r.Ok? ==> forall i :: 0 <= i < |r.value| ==>
      r.value[i].chrom == t.chrom && r.value[i].strand == t.strand &&
      r.value[i].chromStart == ParseCoordinates(t.exonStarts).value[i] &&
      r.value[i].chromEnd == ParseCoordinates(t.exonEnds).value[i] &&
      r.value[i].name == ExonName(t.refseq, ExonNumber(t.strand, |r.value|, i))
    ensures r.Err? ==> r.error.BadCoordinate? || r.error == LengthMismatch(t.refseq)
    ensures ParseCoordinates(t.exonStarts).Err? ==>
      r == Err(BadCoordinate(t.refseq, ParseCoordinates(t.exonStarts).error))
    ensures ParseCoordinates(t.exonStarts).Ok? && ParseCoordinates(t.exonEnds).Err? ==>
      r == Err(BadCoordinate(t.refseq, ParseCoordinates(t.exonEnds).error))
  {
    match ParseCoordinates(t.exonStarts)
    case Err(token) => Err(BadCoordinate(t.refseq, token))
    case Ok(starts) =>
      match ParseCoordinates(t.exonEnds)
      case Err(token) => Err(BadCoordinate(t.refseq, token))
      case Ok(ends) =>
        if |starts| != |ends| then Err(LengthMismatch(t.refseq))
        else
          Ok(seq(|starts|, i requires 0 <= i < |starts| =>
            BedRow(t.chrom, starts[i], ends[i], ExonName(t.refseq, ExonNumber(t.strand, |starts|, i)), t.strand)))
  }

  /** Rows named by exon number: the names are distinct and cover every number `1..k`. */
  lemma NumberedNamesArePermutation(rows: seq<BedRow>, refseq: string, strand: string)
    requires forall i :: 0 <= i < |rows| ==> rows[i].name == ExonName(refseq, ExonNumber(strand, |rows|, i))
    ensures forall i, j :: 0 <= i < j < |rows| ==> rows[i].name != rows[j].name
    ensures forall n :: 1 <= n <= |rows| ==> exists i :: 0 <= i < |rows| && rows[i].name == ExonName(refseq, n)
  {
    var k := |rows|;
    var ns := ExonNumbers(strand, k);
    ExonNumbersPermutation(strand, k);
    forall i, j | 0 <= i < j < k ensures rows[i].name != rows[j].name {
      if rows[i].name == rows[j].name {
        var p := refseq + "_exon";
        assert rows[i].name[|p|..] == NatToDecimal(ExonNumber(strand, k, i));
        assert rows[j].name[|p|..] == NatToDecimal(ExonNumber(strand, k, j));
        DecimalInjective(ExonNumber(strand, k, i), ExonNumber(strand, k, j));
      }
    }
    forall n | 1 <= n <= k ensures exists i :: 0 <= i < k && rows[i].name == ExonName(refseq, n) {
      assert n in ns;
      var i :| 0 <= i < k && ns[i] == n;
      assert rows[i].name == ExonName(refseq, n);
    }
  }

  /** Every exon number 1..k names exactly one row of the transcript, so its rows are pairwise distinct. */
  lemma ExpandedNamesArePermutation(t: Transcript)
    requires ExpandTranscript(t).Ok?
    ensures var rows := ExpandTranscript(t).value;
      (forall i, j :: 0 <= i < j < |rows| ==> rows[i].name != rows[j].name) &&
      (forall n :: 1 <= n <= |rows| ==> exists i :: 0 <= i < |rows| && rows[i].name == ExonName(t.refseq, n))
  {
    NumberedNamesArePermutation(ExpandTranscript(t).value, t.refseq, t.strand);
  }

  lemma ExampleStarts()
    ensures ParseCoordinates("100,200,") == Ok([100, 200])
  {
    assert NatToDecimal(100) == "100" && NatToDecimal(200) == "200";
    assert FormatCoordinates([100, 200]) == "100,200,";
    CoordinatesRoundTrip([100, 200]);
  }

  lemma ExampleEnds()
    ensures ParseCoordinates("150,250,") == Ok([150, 250])
  {
    assert NatToDecimal(150) == "150" && NatToDecimal(250) == "250";
    assert FormatCoordinates([150, 250]) == "150,250,";
    CoordinatesRoundTrip([150, 250]);
  }

  lemma ExampleNames()
    ensures ExonName("NM_000001", 1) == "NM_000001_exon1" && ExonName("NM_000001", 2) == "NM_000001_exon2"
  {
    assert NatToDecimal(1) == "1" && NatToDecimal(2) == "2";
  }

  /** Worked example: boundaries `"100,200,"` / `"150,250,"` of NM_000001 on chr1, `+` strand:
      the left exon is exon 1. */
  lemma TwoExonExampleForward(t: Transcript)
    requires t.refseq == "NM_000001" && t.chrom == "chr1" && t.strand == "+"
    requires t.exonStarts == "100,200," && t.exonEnds == "150,250,"
    ensures ExpandTranscript(t) ==
      Ok([BedRow("chr1", 100, 150, "NM_000001_exon1", "+"), BedRow("chr1", 200, 250, "NM_000001_exon2", "+")])
  {
    ExampleStarts();
    ExampleEnds();
    TwoExonRows(t, 100, 200, 150, 250);
    ExampleNames();
    assert ExonNumber(t.strand, 2, 0) == 1 && ExonNumber(t.strand, 2, 1) == 2;
  }

  /** The same transcript on the `-` strand: the numbering is reversed. */
  lemma TwoExonExampleReverse(t: Transcript)
    requires t.refseq == "NM_000001" && t.chrom == "chr1" && t.strand == "-"
    requires t.exonStarts == "100,200," && t.exonEnds == "150,250,"
    ensures ExpandTranscript(t) ==
      Ok([BedRow("chr1", 100, 150, "NM_000001_exon2", "-"), BedRow("chr1", 200, 250, "NM_000001_exon1", "-")])
  {
    ExampleStarts();
    ExampleEnds();
    TwoExonRows(t, 100, 200, 150, 250);
    ExampleNames();
    assert ExonNumber(t.strand, 2, 0) == 2 && ExonNumber(t.strand, 2, 1) == 1;
  }

  /** A transcript whose lists parse to two starts and two ends expands to two rows, named by the
      strand's numbering. */
  lemma TwoExonRows(t: Transcript, s0: int, s1: int, e0: int, e1: int)
    requires ParseCoordinates(t.exonStarts) == Ok([s0, s1]) && ParseCoordinates(t.exonEnds) == Ok([e0, e1])
    ensures ExpandTranscript(t) ==
      Ok([BedRow(t.chrom, s0, e0, ExonName(t.refseq, ExonNumber(t.strand, 2, 0)), t.strand),
          BedRow(t.chrom, s1, e1, ExonName(t.refseq, ExonNumber(t.strand, 2, 1)), t.strand)])
  {
    var rows := ExpandTranscript(t).value;
    assert |rows| == 2;
    assert rows[0].chromStart == s0 && rows[0].chromEnd == e0;
    assert rows[1].chromStart == s1 && rows[1].chromEnd == e1;
    assert rows == [rows[0], rows[1]];
  }

  // ---------------------------------------------------------------- all transcripts

  /** The comprehension over all joined transcripts, concatenated; the first failure raises. */
  function ExpandAll(ts: seq<Transcript>): (r: Result<seq<BedRow>, BedError>)
    ensures r.Ok? <==> forall j :: 0 <= j < |ts| ==> ExpandTranscript(ts[j]).Ok?
    ensures r.Ok? ==> forall row :: row in r.value <==>
      exists j :: 0 <= j < |ts| && ExpandTranscript(ts[j]).Ok? && row in ExpandTranscript(ts[j]).value
    ensures r.Err? ==> exists j :: 0 <= j < |ts| && ExpandTranscript(ts[j]) == Err(r.error) &&
                                  forall i :: 0 <= i < j ==> ExpandTranscript(ts[i]).Ok?
  {
    ConcatMap(ts, ExpandTranscript)
  }

  // ---------------------------------------------------------------- dedupe and sort

  function ChromKey(row: BedRow): nat
  {
    ChromRank(row.chrom)
  }

  /** Orders rows by chromosome; rows on one chromosome keep their relative order. */
  function SortByChrom(rows: seq<BedRow>): (r: seq<BedRow>)
    ensures multiset(r) == multiset(rows)
    ensures SortedByChrom(r)
  {
    SortBy(rows, ChromKey)
  }

  /** The first chromosome outside the enumeration, if any. */
  function FirstUnknownChrom(rows: seq<BedRow>): (r: Option<string>)
    ensures r.None? <==> forall row :: row in rows ==> row.chrom in CHROMOSOMES
    ensures r.Some? ==> r.value !in CHROMOSOMES && exists row :: row in rows && row.chrom == r.value
  {
    if |rows| == 0 then None
    else if rows[0].chrom !in CHROMOSOMES then Some(rows[0].chrom)
    else
      assert rows == [rows[0]] + rows[1..];
      FirstUnknownChrom(rows[1..])
  }

  /** `drop_duplicates()` followed by the sort on the chromosome category; a row on a chromosome
      outside the enumeration is rejected. */
  function DedupAndSort(rows: seq<BedRow>): (r: Result<seq<BedRow>, BedError>)
    ensures r.Ok? <==> forall row :: row in rows ==> row.chrom in CHROMOSOMES
    ensures r.Ok? ==> NoDuplicates(r.value) && SortedByChrom(r.value)
    ensures r.Ok? ==> multiset(r.value) == multiset(Dedup(rows))
    ensures r.Ok? ==> forall row :: row in r.value <==> row in rows
    ensures r.Err? ==> r.error.UnknownChromosome? && r.error.chrom !in CHROMOSOMES
  {
    var deduped := Dedup(rows);
    match FirstUnknownChrom(deduped)
    case Some(c) => Err(UnknownChromosome(c))
    case None =>
      var sorted := SortByChrom(deduped);
      PermutationKeepsDistinct(deduped, sorted);
      assert forall row :: row in sorted <==> row in multiset(deduped);
      Ok(sorted)
  }

  /** `create_df_bedfile`: expand, drop duplicate rows, then sort by chromosome category. */
  function CreateDfBedfile(ts: seq<Transcript>): (r: Result<seq<BedRow>, BedError>)
    ensures |ts| == 0 ==> r == Err(NothingToConcatenate)
    ensures r.Ok? <==> |ts| > 0 && ExpandAll(ts).Ok? &&
                       forall row :: row in ExpandAll(ts).value ==> row.chrom in CHROMOSOMES
    ensures r.Ok? ==> NoDuplicates(r.value) && SortedByChrom(r.value)
    ensures r.Ok? ==> multiset(r.value) == multiset(Dedup(ExpandAll(ts).value))
    ensures r.Ok? ==> forall row :: row in r.value <==> row in ExpandAll(ts).value
    ensures |ts| > 0 && ExpandAll(ts).Err? ==> r == Err(ExpandAll(ts).error)
    ensures r.Err? && |ts| > 0 && ExpandAll(ts).Ok? ==>
      r.error.UnknownChromosome? && r.error.chrom !in CHROMOSOMES
  {
    if |ts| == 0 then Err(NothingToConcatenate)
    else match ExpandAll(ts)
      case Err(e) => Err(e)
      case Ok(rows) => DedupAndSort(rows)
  }

  /** Every row of every transcript survives deduplication and sorting, and nothing else appears. */
  lemma ResolvedRowsComeFromTranscripts(ts: seq<Transcript>)
    ensures CreateDfBedfile(ts).Ok? ==> forall row :: row in CreateDfBedfile(ts).value <==>
      exists j :: 0 <= j < |ts| && ExpandTranscript(ts[j]).Ok? && row in ExpandTranscript(ts[j]).value
  {
  }
}
