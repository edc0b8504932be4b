/** `VCFGenerator`: one random single-nucleotide substitution per BED region. The reference
    lookup (`pysam.faidx`) is a parameter, and so are the random draws: the offsets
    `randrange(len(sequence))` would return, in order, and the index `random.choice` would pick. */
module VcfGenerator {

  import opened Common
  import opened Text
  import opened BedCoordinates

  // ---------------------------------------------------------------- substitution table

  /** The substitutes of each determinate base, lower case kept for soft-masked reference. */
  const VARIANT_OPTIONS: map<char, string> := map[
    'A' := "TCG", 'a' := "tcg",
    'T' := "ACG", 't' := "acg",
    'C' := "TAG", 'c' := "tag",
    'G' := "TCA", 'g' := "tca"
  ]

  predicate IsLower(c: char) { 'a' <= c <= 'z' }

  /** The four nucleotides in one case. */
  function Bases(lower: bool): (r: string)
    ensures forall k :: 0 <= k < |r| ==> IsLower(r[k]) == lower
  {
    if lower then "acgt" else "ACGT"
  }

  /** A base the table knows: `A`, `C`, `G`, `T` in either case (never `N` or another IUPAC code). */
  predicate IsDeterminate(b: char)
  {
    b in VARIANT_OPTIONS
  }

  /** Exactly the eight nucleotide letters are determinate. */
  lemma DeterminateBases(b: char)
    ensures IsDeterminate(b) <==> b in Bases(false) || b in Bases(true)
  {
  }

  /** `opts` is a well-formed table entry for `b`: three substitutes which, with `b`, are four distinct
      nucleotides of `b`'s case and include each of them (so none equals `b`, all share its case, and
      they differ from `b` even ignoring case). */
  predicate WellFormedEntry(b: char, opts: string)
  {
    |opts| == 3 && NoDuplicates(opts + [b]) &&
    (forall k :: 0 <= k < 4 ==> (opts + [b])[k] in Bases(IsLower(b))) &&
    forall k :: 0 <= k < 4 ==> Bases(IsLower(b))[k] in opts + [b]
  }

  lemma EntryOfA() ensures WellFormedEntry('A', "TCG") {}
  lemma EntryOfLowerA() ensures WellFormedEntry('a', "tcg") {}
  lemma EntryOfT() ensures WellFormedEntry('T', "ACG") {}
  lemma EntryOfLowerT() ensures WellFormedEntry('t', "acg") {}
  lemma EntryOfC() ensures WellFormedEntry('C', "TAG") {}
  lemma EntryOfLowerC() ensures WellFormedEntry('c', "tag") {}
  lemma EntryOfG() ensures WellFormedEntry('G', "TCA") {}
  lemma EntryOfLowerG() ensures WellFormedEntry('g', "tca") {}

  /** Every entry of the table is well formed. */
  lemma VariantOptionsWellFormed()
    ensures forall b :: b in VARIANT_OPTIONS ==> WellFormedEntry(b, VARIANT_OPTIONS[b])
  {
    EntryOfA();
    EntryOfLowerA();
    EntryOfT();
    EntryOfLowerT();
    EntryOfC();
    EntryOfLowerC();
    EntryOfG();
    EntryOfLowerG();
  }

  /** `random.choice(VARIANT_OPTIONS[ref])` with the choice index drawn as `choice`: another
      nucleotide of the reference's case. */
  function Alternate(ref: char, choice: nat): (alt: char)
    requires IsDeterminate(ref) && choice < 3
    ensures alt in Bases(IsLower(ref)) && alt != ref
    ensures IsDeterminate(alt) && IsLower(alt) == IsLower(ref)
  {
    VariantOptionsWellFormed();
    var opts := VARIANT_OPTIONS[ref];
    assert (opts + [ref])[choice] == opts[choice] && (opts + [ref])[3] == ref;
    DeterminateBases(opts[choice]);
    opts[choice]
  }

  /** Every other base of the reference's case is some choice's alternate. */
  lemma AlternatesCoverOtherBases(ref: char, b: char)
    requires IsDeterminate(ref)
    requires b in Bases(IsLower(ref)) && b != ref
    ensures exists choice :: 0 <= choice < 3 && Alternate(ref, choice) == b
  {
    VariantOptionsWellFormed();
    var opts := VARIANT_OPTIONS[ref];
    var bases := Bases(IsLower(ref));
    var i :| 0 <= i < 4 && bases[i] == b;
    var k :| 0 <= k < 4 && (opts + [ref])[k] == b;
    assert k < 3 && opts[k] == b;
    assert Alternate(ref, k) == b;
  }

  // ---------------------------------------------------------------- reference sequence

  /** `''.join(fasta.split('\n')[1:])`: the FASTA record without its header line. */
  function FastaBody(fasta: string): (sequence: string)
    ensures '\n' !in sequence
  {
    var lines := Split(fasta, '\n');
    ConcatWithout(lines[1..], '\n');
    Concat(lines[1..])
  }

  lemma {:induction false} ConcatWithout(parts: seq<string>, c: char)
    requires forall i :: 0 <= i < |parts| ==> c !in parts[i]
    ensures c !in Concat(parts)
  {
    if |parts| > 0 {
      ConcatWithout(parts[1..], c);
    }
  }

  /** The header is dropped and the sequence lines are glued together. */
  lemma FastaBodyOfRecord(header: string, lines: string)
    requires '\n' !in header
    ensures FastaBody(header + "\n" + lines) == Without(lines, '\n')
  {
    SplitCons(header, '\n', lines);
    assert Split(header + "\n" + lines, '\n')[1..] == Split(lines, '\n');
    ConcatSplit(lines, '\n');
  }

  /** A single line (a header without sequence) gives the empty sequence. */
  lemma FastaBodyOfHeaderOnly(header: string)
    requires '\n' !in header
    ensures FastaBody(header) == ""
  {
    SplitNoSeparator(header, '\n');
  }

  /** `lookup_sequence`: the reference bases of `region`, with `faidx` standing for
      `pysam.faidx(genome_file, "chrom:start-end")`. */
  function LookupSequence(faidx: (string, int, int) -> string, region: BedRow): (sequence: string)
    ensures '\n' !in sequence
  {
    FastaBody(faidx(region.chrom, region.chromStart, region.chromEnd))
  }

  // ---------------------------------------------------------------- variant record

  /** A VCF data line as the source's dict holds it (it has no ID column). */
  datatype Variant = Variant(chrom: string, pos: int, ref: char, alt: char,
                             qual: string, filter: string, info: string, format: string, sample: string)

  /** What creating one variant can raise. */
  datatype SynthesisError =
    | EmptySequence               // `randrange(0)` raises ValueError
    | NoDeterminateBase           // every drawn offset held an undeterminable base
    | UnknownBase(base: char)     // `VARIANT_OPTIONS[ref]` raises KeyError
    | MissingKey(key: RegionKey)  // `region[key]` raises KeyError

  /** The two lookups line 76 can make on a region record (a dict keyed by column name): the
      `chrom` column as intended, or an integer position as `region[0]` is written. */
  datatype RegionKey = ChromColumn | Position(index: int)

  /** `region[key]`: the `chrom` column holds the chromosome; an integer is no key of the dict and raises. */
  function RegionChrom(region: BedRow, key: RegionKey): (r: Result<string, SynthesisError>)
    ensures r.Ok? <==> key == ChromColumn
    ensures r.Ok? ==> r.value == region.chrom
    ensures r.Err? ==> r.error == MissingKey(key)
  {
    if key == ChromColumn then Ok(region.chrom) else Err(MissingKey(key))
  }

  /** The record with its fixed fields: unfiltered, unannotated, a heterozygous phased genotype. */
  function VariantRecord(chrom: string, pos: int, ref: char, alt: char): Variant
  {
    Variant(chrom, pos, ref, alt, ".", "PASS", ".", "GT", "0|1")
  }

  // ---------------------------------------------------------------- sampling loop

  /** The draws `randrange(len(sequence))` can return. */
  predicate ValidDraws(sequence: string, draws: seq<nat>)
  {
    forall j :: 0 <= j < |draws| ==> draws[j] < |sequence|
  }

  /** The loop of `create_random_variant`: while `resample(ref)` holds and draws remain, draw an
      offset and read its base. Gives the last base read and its offset (`None` before any draw). */
  function Drawn(resample: char -> bool, sequence: string, draws: seq<nat>, ref: char, offset: Option<nat>): (r: (char, Option<nat>))
    requires ValidDraws(sequence, draws)
    ensures r == (ref, offset) || (r.1.Some? && r.1.value in draws && r.0 == sequence[r.1.value])
    decreases |draws|
  {
    if resample(ref) && |draws| > 0 then
      assert forall x :: x in draws[1..] ==> x in draws;
      Drawn(resample, sequence, draws[1..], sequence[draws[0]], Some(draws[0]))
    else
      (ref, offset)
  }

  /** `create_random_variant` with its loop test and its chrom key as parameters, so the code as
      written and as intended are the same loop. */
  function Synthesised(resample: char -> bool, chromKey: RegionKey, region: BedRow, sequence: string,
                       draws: seq<nat>, altChoice: nat): (r: Result<Variant, SynthesisError>)
    requires ValidDraws(sequence, draws) && altChoice < 3
    ensures r.Ok? ==> chromKey == ChromColumn && r.value.chrom == region.chrom
    ensures r.Ok? ==> r.value.pos - region.chromStart in draws &&
                      r.value.ref == sequence[r.value.pos - region.chromStart]
    ensures r.Ok? ==> !resample(r.value.ref) && IsDeterminate(r.value.ref)
    ensures r.Ok? ==> r.value.alt in Bases(IsLower(r.value.ref)) && r.value.alt != r.value.ref
    ensures r.Ok? ==> r.value.qual == "." && r.value.filter == "PASS" && r.value.info == "." &&
                      r.value.format == "GT" && r.value.sample == "0|1"
    ensures r.Err? && r.error.UnknownBase? ==> !resample(r.error.base) && !IsDeterminate(r.error.base)
  {
    if resample('N') && |sequence| == 0 then Err(EmptySequence)
    else
      var (ref, offset) := Drawn(resample, sequence, draws, 'N', None);
      if resample(ref) then Err(NoDeterminateBase)
      else if !IsDeterminate(ref) then Err(UnknownBase(ref))
      else match RegionChrom(region, chromKey)
        case Err(e) => Err(e)
        case Ok(chrom) => Ok(VariantRecord(chrom, region.chromStart + offset.value, ref, Alternate(ref, altChoice)))
  }

  /** The loop runs its body once per draw, with `resample` read as the source writes it. */
  method DrawWhile(resample: char -> bool, sequence: string, draws: seq<nat>) returns (ref: char, offset: Option<nat>)
    requires ValidDraws(sequence, draws)
    ensures (ref, offset) == Drawn(resample, sequence, draws, 'N', None)
  {
    ref := 'N';
    offset := None;
    var i := 0;
    while resample(ref) && i < |draws|
      invariant 0 <= i <= |draws|
      invariant Drawn(resample, sequence, draws, 'N', None) == Drawn(resample, sequence, draws[i..], ref, offset)
      decreases |draws| - i
    {
      assert draws[i..][1..] == draws[i + 1..];
      var exonPos := draws[i];
      offset := Some(exonPos);
      ref := sequence[exonPos];
      i := i + 1;
    }
  }

  /** `create_random_variant` parameterised as `Synthesised` is. */
  method CreateWith(resample: char -> bool, chromKey: RegionKey, region: BedRow, sequence: string,
                    draws: seq<nat>, altChoice: nat) returns (r: Result<Variant, SynthesisError>)
    requires ValidDraws(sequence, draws) && altChoice < 3
    ensures r == Synthesised(resample, chromKey, region, sequence, draws, altChoice)
  {
    if resample('N') && |sequence| == 0 {
      return Err(EmptySequence);
    }
    var ref, offset := DrawWhile(resample, sequence, draws);
    if resample(ref) {
      return Err(NoDeterminateBase);
    }
    if !IsDeterminate(ref) {
      return Err(UnknownBase(ref));
    }
    var chrom := RegionChrom(region, chromKey);
    if chrom.Err? {
      return Err(chrom.error);
    }
    var alt := Alternate(ref, altChoice);
    r := Ok(VariantRecord(chrom.value, region.chromStart + offset.value, ref, alt));
  }

  // ---------------------------------------------------------------- as written and as intended

  /** The loop test as written: `while vcf_ref != 'N'`, false on entry. */
  predicate ResampleAsWritten(b: char) { b != 'N' }

  /** The loop test as intended: draw again while the base is not in the table. */
  predicate ResampleIntended(b: char) { !IsDeterminate(b) }

  /** The first drawn offset holding a determinate base: an independent reference for the loop. */
  function FirstDeterminate(sequence: string, draws: seq<nat>): (r: Option<nat>)
    requires ValidDraws(sequence, draws)
    ensures r.None? <==> forall j :: 0 <= j < |draws| ==> !IsDeterminate(sequence[draws[j]])
    ensures r.Some? ==> exists j :: 0 <= j < |draws| && draws[j] == r.value &&
                          IsDeterminate(sequence[draws[j]]) &&
                          forall i :: 0 <= i < j ==> !IsDeterminate(sequence[draws[i]])
  {
    if |draws| == 0 then None
    else if IsDeterminate(sequence[draws[0]]) then Some(draws[0])
    else
      var r := FirstDeterminate(sequence, draws[1..]);
      assert forall j :: 1 <= j < |draws| ==> draws[1..][j - 1] == draws[j];
      if r.Some? then
        var j :| 0 <= j < |draws[1..]| && draws[1..][j] == r.value && IsDeterminate(sequence[draws[1..][j]]) &&
                 forall i :: 0 <= i < j ==> !IsDeterminate(sequence[draws[1..][i]]);
        assert draws[j + 1] == r.value;
        r
      else r
  }

  /** The intended sampler: one substitution at the first drawn determinate base. */
  function SampleVariant(region: BedRow, sequence: string, draws: seq<nat>, altChoice: nat): (r: Result<Variant, SynthesisError>)
    requires ValidDraws(sequence, draws) && altChoice < 3
    ensures |sequence| == 0 ==> r == Err(EmptySequence)
    ensures |sequence| > 0 ==> (r.Ok? <==> exists j :: 0 <= j < |draws| && IsDeterminate(sequence[draws[j]]))
    ensures |sequence| > 0 && r.Err? ==> r == Err(NoDeterminateBase)
    ensures r.Ok? ==> r.value.chrom == region.chrom
    ensures r.Ok? ==> region.chromStart <= r.value.pos < region.chromStart + |sequence|
    ensures r.Ok? ==> r.value.ref == sequence[r.value.pos - region.chromStart] && IsDeterminate(r.value.ref)
    ensures r.Ok? ==> r.value.alt in Bases(IsLower(r.value.ref)) && r.value.alt != r.value.ref
    ensures r.Ok? ==> r.value.qual == "." && r.value.filter == "PASS" && r.value.info == "." &&
                      r.value.format == "GT" && r.value.sample == "0|1"
  {
    if |sequence| == 0 then Err(EmptySequence)
    else match FirstDeterminate(sequence, draws)
      case None => Err(NoDeterminateBase)
      case Some(k) => Ok(VariantRecord(region.chrom, region.chromStart + k, sequence[k], Alternate(sequence[k], altChoice)))
  }

  /** The reference sampler substitutes at the first drawn offset whose base is determinate. */
  lemma SampleAtFirstDeterminate(region: BedRow, sequence: string, draws: seq<nat>, altChoice: nat)
    requires ValidDraws(sequence, draws) && altChoice < 3
    ensures var r := SampleVariant(region, sequence, draws, altChoice);
      r.Ok? ==> exists j :: 0 <= j < |draws| && r.value.pos == region.chromStart + draws[j] &&
                  IsDeterminate(sequence[draws[j]]) &&
                  forall i :: 0 <= i < j ==> !IsDeterminate(sequence[draws[i]])
  {
  }

  /** The intended loop stops at the first determinate base, or reads undeterminable bases to the end. */
  lemma {:induction false} DrawnIntended(sequence: string, draws: seq<nat>, ref: char, offset: Option<nat>)
    requires ValidDraws(sequence, draws) && !IsDeterminate(ref)
    ensures var (b, k) := Drawn(ResampleIntended, sequence, draws, ref, offset);
      IsDeterminate(b) <==> FirstDeterminate(sequence, draws).Some?
    ensures FirstDeterminate(sequence, draws).Some? ==>
      var k := FirstDeterminate(sequence, draws).value;
      Drawn(ResampleIntended, sequence, draws, ref, offset) == (sequence[k], Some(k))
    decreases |draws|
  {
    if |draws| > 0 && !IsDeterminate(sequence[draws[0]]) {
      DrawnIntended(sequence, draws[1..], sequence[draws[0]], Some(draws[0]));
    }
  }

  /** With the loop test and the chrom key corrected, `create_random_variant` is the reference sampler. */
  lemma IntendedIsReference(region: BedRow, sequence: string, draws: seq<nat>, altChoice: nat)
    requires ValidDraws(sequence, draws) && altChoice < 3
    ensures Synthesised(ResampleIntended, ChromColumn, region, sequence, draws, altChoice) ==
            SampleVariant(region, sequence, draws, altChoice)
  {
    DrawnIntended(sequence, draws, 'N', None);
    var first := FirstDeterminate(sequence, draws);
    if |sequence| > 0 && first.Some? {
      assert Drawn(ResampleIntended, sequence, draws, 'N', None) == (sequence[first.value], Some(first.value));
    }
  }

  /** As written the loop never runs, so `VARIANT_OPTIONS['N']` raises on every region. */
  lemma AsWrittenAlwaysKeyError(chromKey: RegionKey, region: BedRow, sequence: string, draws: seq<nat>, altChoice: nat)
    requires ValidDraws(sequence, draws) && altChoice < 3
    ensures Synthesised(ResampleAsWritten, chromKey, region, sequence, draws, altChoice) == Err(UnknownBase('N'))
  {
  }

  /** With the loop fixed, `region[0]` on a record keyed by column name raises wherever a base was found. */
  lemma PositionalChromAlwaysKeyError(region: BedRow, sequence: string, draws: seq<nat>, altChoice: nat)
    requires ValidDraws(sequence, draws) && altChoice < 3
    requires SampleVariant(region, sequence, draws, altChoice).Ok?
    ensures Synthesised(ResampleIntended, Position(0), region, sequence, draws, altChoice) == Err(MissingKey(Position(0)))
  {
    DrawnIntended(sequence, draws, 'N', None);
  }

  /** `create_random_variant` as written (lines 64-86). */
  method CreateRandomVariantAsWritten(region: BedRow, sequence: string, draws: seq<nat>, altChoice: nat)
    returns (r: Result<Variant, SynthesisError>)
    requires ValidDraws(sequence, draws) && altChoice < 3
    ensures r == Err(UnknownBase('N'))
  {
    r := CreateWith(ResampleAsWritten, Position(0), region, sequence, draws, altChoice);
    AsWrittenAlwaysKeyError(Position(0), region, sequence, draws, altChoice);
  }

  /** `create_random_variant` as intended: resample until the base is determinate, then substitute it. */
  method CreateRandomVariant(region: BedRow, sequence: string, draws: seq<nat>, altChoice: nat)
    returns (r: Result<Variant, SynthesisError>)
    requires ValidDraws(sequence, draws) && altChoice < 3
    ensures r == SampleVariant(region, sequence, draws, altChoice)
  {
    r := CreateWith(ResampleIntended, ChromColumn, region, sequence, draws, altChoice);
    IntendedIsReference(region, sequence, draws, altChoice);
  }

  // ---------------------------------------------------------------- per region

  /** `create_variants` as intended: look the region up and return its variant. */
  function VariantFor(faidx: (string, int, int) -> string, region: BedRow, draws: seq<nat>, altChoice: nat): Result<Variant, SynthesisError>
    requires ValidDraws(LookupSequence(faidx, region), draws) && altChoice < 3
  {
    SampleVariant(region, LookupSequence(faidx, region), draws, altChoice)
  }

  method CreateVariants(faidx: (string, int, int) -> string, region: BedRow, draws: seq<nat>, altChoice: nat)
    returns (r: Result<Variant, SynthesisError>)
    requires ValidDraws(LookupSequence(faidx, region), draws) && altChoice < 3
    ensures r == VariantFor(faidx, region, draws, altChoice)
  {
    var sequence := LookupSequence(faidx, region);
    r := CreateRandomVariant(region, sequence, draws, altChoice);
  }

  /** `create_variants` as written: the variant is computed and dropped, so every region yields `None`
      (errors still propagate). */
  method CreateVariantsAsWritten(faidx: (string, int, int) -> string, region: BedRow, draws: seq<nat>, altChoice: nat)
    returns (r: Result<Option<Variant>, SynthesisError>)
    requires ValidDraws(LookupSequence(faidx, region), draws) && altChoice < 3
    ensures r.Ok? <==> VariantFor(faidx, region, draws, altChoice).Ok?
    ensures r.Ok? ==> r.value == None
  {
    var sequence := LookupSequence(faidx, region);
    var variant := CreateRandomVariant(region, sequence, draws, altChoice);
    if variant.Err? {
      return Err(variant.error);
    }
    r := Ok(None);
  }

  /** The randomness of region `i` is `draws[i]` and `altChoices[i]`. */
  predicate ValidRandomness(faidx: (string, int, int) -> string, regions: seq<BedRow>, draws: seq<seq<nat>>, altChoices: seq<nat>)
  {
    |draws| == |regions| && |altChoices| == |regions| &&
    forall i :: 0 <= i < |regions| ==> ValidDraws(LookupSequence(faidx, regions[i]), draws[i]) && altChoices[i] < 3
  }

  /** `run`: `create_variants` mapped over the region records in order. Like `pool.map`, the first
      failing region (in input order) makes the whole map fail with its error. */
  method Run(faidx: (string, int, int) -> string, regions: seq<BedRow>, draws: seq<seq<nat>>, altChoices: seq<nat>)
    returns (r: Result<seq<Variant>, SynthesisError>)
    requires ValidRandomness(faidx, regions, draws, altChoices)
    ensures r.Ok? <==> forall i :: 0 <= i < |regions| ==> VariantFor(faidx, regions[i], draws[i], altChoices[i]).Ok?
    ensures r.Ok? ==> |r.value| == |regions|
    ensures r.Ok? ==> forall i :: 0 <= i < |regions| ==> Ok(r.value[i]) == VariantFor(faidx, regions[i], draws[i], altChoices[i])
    ensures r.Err? ==> exists j :: (0 <= j < |regions| &&
      VariantFor(faidx, regions[j], draws[j], altChoices[j]) == Err(r.error) &&
      forall i :: 0 <= i < j ==> VariantFor(faidx, regions[i], draws[i], altChoices[i]).Ok?)
  {
    var variants: seq<Variant> := [];
    var i := 0;
    while i < |regions|
      invariant 0 <= i <= |regions|
      invariant |variants| == i
      invariant forall k :: 0 <= k < i ==> Ok(variants[k]) == VariantFor(faidx, regions[k], draws[k], altChoices[k])
    {
      var v := CreateVariants(faidx, regions[i], draws[i], altChoices[i]);
      if v.Err? {
        assert 0 <= i < |regions| && VariantFor(faidx, regions[i], draws[i], altChoices[i]) == Err(v.error);
        return Err(v.error);
      }
      ghost var before := variants;
      variants := variants + [v.value];
      assert forall k :: 0 <= k < i ==> variants[k] == before[k];
      i := i + 1;
    }
    r := Ok(variants);
  }
}
