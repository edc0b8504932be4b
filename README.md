# synthia: BED region resolution and per-region variant synthesis

This project models the two data-shaping stages of synthia. synthia generates synthetic test data
for a genomics pipeline.

- **BED generation** (`BEDGenerator`). It picks the RefSeq transcripts to cover. That is every
  canonical NM transcript, or, when a panel BED file is given, the NM transcripts named in the
  panel (NR IDs in the panel are reported missing).
  It joins them to their exon records from the UCSC `ncbiRefSeq` table and expands each
  transcript's comma-terminated `exonStarts`/`exonEnds` lists into one BED row per exon. Each row is
  named `<refseq>_exon<n>`, numbered 5'→3' (reversed on the `-` strand). The stage then drops
  duplicate rows, sorts by chromosome in `chr1 … chr22, chrX, chrY, chrMT` order, and reports the
  panel transcripts that produced no row.
- **VCF generation** (`VCFGenerator`). What follows is the behaviour the code evidently intends.
  It looks up the reference bases of each region, draws a determinate base at a random offset,
  substitutes one of the three other nucleotides of the same case, and builds the VCF data record.
  It does this once per region. The code as written does not do this. The sampling loop never runs,
  so every region raises `KeyError('N')`. `region[0]` would raise `KeyError(0)`. `create_variants`
  returns nothing. "## Findings" lists each defect, and the model keeps both the as-written and the
  corrected procedure.

Modules:

- `Common` (common.dfy): `Option`/`Result`, order-keeping filter, `drop_duplicates` (first
  occurrence kept), flatten, a stable sort by key, and the map-then-concatenate that fails at the
  first failing item.
- `Text` (text.dfy): the Python string primitives used, `str.split`, `sep.join`, `''.join`,
  `str.strip(c)`, `str(n)` and `int(token)`, with their round trips.
- `BedCoordinates` (bed_coordinates.dfy): `CHROMOSOMES`, the coordinate-list parser, exon numbering,
  the per-transcript expansion and `create_df_bedfile`.
- `BedGenerator` (bed_generator.dfy): the version-stripped join key, panel ID extraction
  (`N[RM]_\d+`), `filter_bedfile_regions`, the NM filter, the join with `dropna`, the completeness
  report and `run`.
- `VcfGenerator` (vcf_generator.dfy): `VARIANT_OPTIONS`, the alternate choice, `lookup_sequence`'s
  header strip, the sampling loop (imperative, with the draws as parameters), the record, and
  `run` as a sequential per-region loop.

Database queries, file reads and the reference lookup are replaced by their results.

- `BedGenerator.Run` receives the `refseq` column of the canonical (or known-gene) query, the rows
  of the `ncbiRefSeq` table, and the name fields of the panel's records.
- `VcfGenerator.Run` receives `faidx`, a function `(chrom, start, end) -> FASTA text` standing for
  `pysam.faidx`.
- The random draws are inputs: the offsets `randrange(len(sequence))` returns, in order, and the
  index `random.choice` picks.

Errors and deviations:

- A malformed coordinate list, a length mismatch, an empty transcript table and a panel name with
  no transcript ID all raise in the code, so the model fails the whole stage with `Err`.
- The code's variant record has no `ID` column, and the model has none.
- `pool.map` fails as a whole when any region fails. `VcfGenerator.Run` returns the error of the
  first failing region in input order.
- A chromosome outside `CHROMOSOMES` becomes a missing category in the code and sorts last. The
  model rejects it with `UnknownChromosome` instead. Its sort key ranks such a name after every
  listed chromosome, as the code orders it.

## Model

| member | source | states |
|---|---|---|
| Common.Filter | generate_fastq/bed_generator.py:80 | a boolean-mask selection keeps exactly the elements satisfying the test, each as often as before |
| Common.FilterAppend | generate_fastq/bed_generator.py:80 | the selection distributes over concatenation, so the kept elements stay in input order |
| Common.Dedup | generate_fastq/bed_generator.py:186 | `drop_duplicates` leaves no duplicates and the same set of rows |
| Common.DedupOfDistinct | generate_fastq/bed_generator.py:186 | rows that are already distinct are left exactly as they are |
| Common.Flatten | generate_fastq/bed_generator.py:105-108 | an element is in the flattened list iff it is in one of the sub-lists |
| Common.SortBy | generate_fastq/bed_generator.py:189-194 | sorting by key yields a permutation of the input that is ordered by the key |
| Common.PermutationKeepsDistinct | generate_fastq/bed_generator.py:186-194 | sorting distinct rows keeps them distinct |
| Common.ConcatMap | generate_fastq/bed_generator.py:155-185 | the concatenation of per-item frames succeeds iff every item succeeds, holds exactly the items' rows, and otherwise fails with the first failing item's error |
| Text.Split | generate_fastq/bed_generator.py:162 | `str.split` gives at least one part and no part contains the separator |
| Text.JoinSplit | generate_fastq/bed_generator.py:203 | joining the parts of a split with the separator gives back the string |
| Text.SplitJoin | generate_fastq/bed_generator.py:203 | splitting the join of separator-free parts gives back the parts |
| Text.ConcatSplit | generate_vcf/vcf_generator.py:61 | `''.join(s.split(c))` deletes every `c` and nothing else |
| Text.StripSlice | generate_fastq/bed_generator.py:162 | `strip(c)` (`Text.Strip`) returns a slice that neither starts nor ends with `c`, and everything cut off is `c` |
| Text.StripTerminated | generate_fastq/bed_generator.py:162 | a comma-terminated list strips back to the list without its trailing comma |
| Text.DecimalRoundTrip | generate_fastq/bed_generator.py:171 | the digits `str(n)` prints read back as `n` |
| Text.DecimalInjective | generate_fastq/bed_generator.py:171 | distinct exon numbers print differently |
| Text.ParseInt | generate_fastq/bed_generator.py:160-167 | `int(token)` succeeds iff the token is digits with an optional sign, and is non-negative without `-` |
| Text.ParsePrinted | generate_fastq/bed_generator.py:160-167 | `int(str(n)) == n` |
| BedCoordinates.ChromRank | generate_fastq/bed_generator.py:189-193 | a chromosome's rank is its position in `CHROMOSOMES`, and a name outside the list ranks after all of them |
| BedCoordinates.ChromRankOfEnumeration | generate_fastq/bed_generator.py:19-22 | the k-th listed chromosome has rank k, so the categories are ordered as listed |
| BedCoordinates.ParseTokens | generate_fastq/bed_generator.py:160-167 | `map(int, tokens)` succeeds iff every token parses, gives each token's value in order, and otherwise names a token that does not parse |
| BedCoordinates.ParseTokensFirstBad | generate_fastq/bed_generator.py:160-167 | the error is the first token `int()` rejects, since every token before it parses, as forcing `map(int, tokens)` in order raises there |
| BedCoordinates.Tokens | generate_fastq/bed_generator.py:162 | `field.strip(',').split(',')` gives at least one comma-free token, and the tokens joined with commas are the stripped field |
| BedCoordinates.ParseCoordinates | generate_fastq/bed_generator.py:160-167 | a boundary list parses iff every token of the stripped field does; then it has one number per token, at least one, in token order; otherwise it fails on a token `int()` rejects |
| BedCoordinates.ParseCoordinatesFirstBad | generate_fastq/bed_generator.py:160-167 | a failing boundary list fails on the first token of the stripped field that `int()` rejects |
| BedCoordinates.CoordinatesRoundTrip | generate_fastq/bed_generator.py:160-167 | parsing a printed comma-terminated list gives back the coordinates |
| BedCoordinates.EmptyFieldRejected | generate_fastq/bed_generator.py:160-162 | an empty list, or one made of just `,`, raises on the empty token |
| BedCoordinates.ExonNumber | generate_fastq/bed_generator.py:168-178 | exon numbers lie in `1..k` |
| BedCoordinates.ExonNumbersReversed | generate_fastq/bed_generator.py:174-177 | off the `+` strand the exon numbers are the `+` numbers read backwards, as `range(k)[::-1]` gives |
| BedCoordinates.ExonNumbersPermutation | generate_fastq/bed_generator.py:168-178 | a transcript's exon numbers are exactly `1..k`, each once |
| BedCoordinates.ExonNumbersFollowStrand | generate_fastq/bed_generator.py:173-178 | numbering increases along `+` and decreases along `-`, the last exon being number 1 |
| BedCoordinates.ExpandTranscript | generate_fastq/bed_generator.py:157-183 | a transcript expands iff both lists parse and have equal length; row i copies chrom and strand, takes the i-th start and end, and is named after the strand-dependent exon number; otherwise a bad `exonStarts` token raises first, then a bad `exonEnds` token, and only when both lists parse does a length mismatch raise |
| BedCoordinates.ExpandedNamesArePermutation | generate_fastq/bed_generator.py:168-179 | a transcript's row names are distinct and name every exon number `1..k` |
| BedCoordinates.ExpandAll | generate_fastq/bed_generator.py:155-185 | the comprehension over all joined transcripts succeeds iff every transcript expands; a row is in it iff it is a row of one of them; otherwise the first failing transcript's error |
| BedCoordinates.SortByChrom | generate_fastq/bed_generator.py:189-194 | sorting by the chromosome category gives a permutation of the rows in non-decreasing `CHROMOSOMES` order |
| BedCoordinates.TwoExonExampleForward | generate_fastq/bed_generator.py:157-183 | a two-exon transcript on `+` gives rows `exon1, exon2` with the boundaries in list order |
| BedCoordinates.TwoExonExampleReverse | generate_fastq/bed_generator.py:157-183 | the same transcript on `-` gives rows `exon2, exon1`, the boundaries still in list order |
| BedCoordinates.FirstUnknownChrom | generate_fastq/bed_generator.py:189-193 | finds a chromosome outside the categories iff there is one |
| BedCoordinates.DedupAndSort | generate_fastq/bed_generator.py:186-194 | `drop_duplicates()` then the category sort: succeeds iff every row's chromosome is listed, and then gives distinct rows, sorted by chromosome, a permutation of the deduplicated rows with the same members; otherwise an unlisted chromosome |
| BedCoordinates.CreateDfBedfile | generate_fastq/bed_generator.py:145-194 | no transcripts raises; a failing expansion raises the first failing transcript's error; otherwise the result is the distinct expanded rows, sorted by chromosome, as a permutation of the deduplicated expansion; an unknown chromosome is rejected |
| BedCoordinates.ResolvedRowsComeFromTranscripts | generate_fastq/bed_generator.py:155-186 | when the region file is built, a row is in it iff it comes from one of the joined transcripts |
| BedGenerator.StripVersion | generate_fastq/bed_generator.py:121 | `name.split('.')[0]` has no dot and is the name or its prefix before `.` |
| BedGenerator.StripVersionOf | generate_fastq/bed_generator.py:121 | an unversioned ID keeps itself and a versioned one loses exactly its version |
| BedGenerator.MatchAtIsId | generate_fastq/bed_generator.py:104 | the greedy match of `N[RM]_\d+` at a position is a full ID ending before a non-digit, and there is none exactly where no ID starts there |
| Common.FirstWhere | generate_fastq/bed_generator.py:104 | the search finds the first position satisfying the test, or none iff no position does |
| BedGenerator.ExtractId | generate_fastq/bed_generator.py:104 | the first item of `re.findall(...)` is a RefSeq ID occurring in the field at a position before which no ID starts, taken whole up to a non-digit or the end |
| BedGenerator.NoIdFound | generate_fastq/bed_generator.py:104 | `re.findall(...)` is empty (and `[0]` raises) exactly when no ID occurs in the field |
| BedGenerator.ExtractIdOfId | generate_fastq/bed_generator.py:104 | an ID followed by a version or nothing is extracted as the ID itself |
| BedGenerator.NamePieces | generate_fastq/bed_generator.py:105-108 | the pieces are exactly the comma-separated parts of the name fields |
| BedGenerator.GetBedfileTranscripts | generate_fastq/bed_generator.py:100-110 | succeeds iff every piece contains an ID; the result is the distinct IDs, each one found in some piece; otherwise raises on a piece without one |
| BedGenerator.FilterBedfileRegions | generate_fastq/bed_generator.py:86-98 | the result names exactly the panel's transcripts |
| BedGenerator.FilterBedfileRegionsCounts | generate_fastq/bed_generator.py:86-98 | a panel ID known to UCSC keeps its UCSC multiplicity, an unknown one is added once, and nothing outside the panel remains |
| BedGenerator.GetCanonical | generate_fastq/bed_generator.py:51-84 | the selected refseqs are the NM ones of the panel (with a panel) or of the canonical table (without) |
| BedGenerator.MrnaIds | generate_fastq/bed_generator.py:80 | on a RefSeq ID, `startswith('NM')` keeps exactly the `NM_` IDs and drops exactly the `NR_` ones |
| BedGenerator.JoinOne | generate_fastq/bed_generator.py:135-143 | one transcript joins to exactly the exon records whose unversioned name is its ID |
| BedGenerator.CreateCanonicalExons | generate_fastq/bed_generator.py:135-143 | the join with `dropna` holds exactly the selected transcripts paired with each of their exon records |
| BedGenerator.TranscriptOf | generate_fastq/bed_generator.py:203 | `'_'.join(nm.split('_')[:2])` is the prefix of the name before its second `_` (all of it when there is none): a prefix with at most one `_`, followed in the name by `_` when shorter |
| BedGenerator.TranscriptOfExonName | generate_fastq/bed_generator.py:202-204 | `'_'.join(name.split('_')[:2])` recovers the transcript ID from an exon name |
| BedGenerator.MissingWhenFoundExactly | generate_fastq/bed_generator.py:202-206 | `desired - found` holds the panel IDs not found, so once the found ones are known the missing set follows |
| BedGenerator.Run | generate_fastq/bed_generator.py:36-49 | a panel name without a transcript ID raises that error; otherwise the stage succeeds exactly when `create_df_bedfile` on the selected transcripts does, and raises its error when not; the region file is distinct and chromosome-sorted, and a missing-transcript report exists iff a panel was given |
| BedGenerator.RunRows | generate_fastq/bed_generator.py:36-49 | a row is in the returned region file iff it is a row of one of the selected transcripts joined to its exon records, the selection being the canonical NM transcripts or those of the parsed panel |
| BedGenerator.RowNamedAfterTranscript | generate_fastq/bed_generator.py:168-171 | every row of a transcript is named after that transcript |
| BedGenerator.FoundExactlyJoined | generate_fastq/bed_generator.py:199-206 | when the region file is built, a transcript is found among its row names iff it was selected and has an exon record |
| BedGenerator.PanelCompleteness | generate_fastq/bed_generator.py:199-212 | when a run with a panel succeeds, the panel parses and the reported missing transcripts are exactly the panel IDs that are not NM or have no exon record |
| VcfGenerator.VariantOptionsWellFormed | generate_vcf/vcf_generator.py:17-22 | every key maps to three substitutes which, with the key, are four distinct nucleotides of the key's case covering all four (so none equals the key or differs from it only in case) |
| VcfGenerator.DeterminateBases | generate_vcf/vcf_generator.py:17-22 | exactly `ACGTacgt` have table entries |
| VcfGenerator.Alternate | generate_vcf/vcf_generator.py:72-73 | the alternate is another nucleotide of the reference's case, itself determinate |
| VcfGenerator.AlternatesCoverOtherBases | generate_vcf/vcf_generator.py:72-73 | every other nucleotide of that case can be drawn |
| VcfGenerator.FastaBody | generate_vcf/vcf_generator.py:61-62 | the looked-up sequence has no newline |
| VcfGenerator.FastaBodyOfRecord | generate_vcf/vcf_generator.py:61-62 | a FASTA record gives its lines after the header, newlines removed |
| VcfGenerator.FastaBodyOfHeaderOnly | generate_vcf/vcf_generator.py:61-62 | a header without sequence lines gives the empty sequence |
| VcfGenerator.LookupSequence | generate_vcf/vcf_generator.py:55-62 | the region's looked-up sequence has no newline |
| VcfGenerator.RegionChrom | generate_vcf/vcf_generator.py:76 | of the two lookups line 76 can make, `region['chrom']` yields the chromosome and an integer key such as `region[0]` raises `KeyError` |
| VcfGenerator.Drawn | generate_vcf/vcf_generator.py:67-70 | the loop ends in its entry state or at a drawn offset holding the base it read |
| VcfGenerator.DrawWhile | generate_vcf/vcf_generator.py:66-70 | the sampling loop computes `Drawn` |
| VcfGenerator.CreateWith | generate_vcf/vcf_generator.py:64-86 | the procedure computes `Synthesised`, for either loop test and either chrom key |
| VcfGenerator.Synthesised | generate_vcf/vcf_generator.py:64-86 | whatever the loop test, a variant is produced only with the `chrom` key, at a drawn offset whose base ends the loop and has a table entry, with an alternate of the same case and the fixed fields; a `KeyError` on a base names one without entry |
| VcfGenerator.FirstDeterminate | generate_vcf/vcf_generator.py:65-70 | finds no offset iff every draw holds an undeterminable base, and otherwise the first draw holding a determinate one |
| VcfGenerator.SampleVariant | generate_vcf/vcf_generator.py:64-86 | the reference sampler: an empty sequence raises; otherwise it succeeds iff some draw holds a determinate base; the record (`VariantRecord`, lines 75-85) carries the region's chromosome, a position in the region holding the reference base, an alternate of the reference's case other than it, and the fixed fields `. PASS . GT 0\|1` |
| VcfGenerator.SampleAtFirstDeterminate | generate_vcf/vcf_generator.py:65-70 | the reference sampler substitutes at the first drawn offset holding a determinate base |
| VcfGenerator.DrawnIntended | generate_vcf/vcf_generator.py:65-70 | the intended loop stops at the first determinate base, if any draw holds one |
| VcfGenerator.IntendedIsReference | generate_vcf/vcf_generator.py:64-86 | with the loop test and the chrom key corrected, the procedure is the reference sampler |
| VcfGenerator.AsWrittenAlwaysKeyError | generate_vcf/vcf_generator.py:66-73 | as written the loop never runs and the table lookup raises `KeyError('N')` for every input |
| VcfGenerator.PositionalChromAlwaysKeyError | generate_vcf/vcf_generator.py:76 | with the loop fixed, `region[0]` raises `KeyError(0)` whenever a base was found |
| VcfGenerator.CreateRandomVariantAsWritten | generate_vcf/vcf_generator.py:64-86 | as written, every call fails with `KeyError('N')` |
| VcfGenerator.CreateRandomVariant | generate_vcf/vcf_generator.py:64-86 | the method computes the reference sampler `SampleVariant`, whose contract gives the error cases, the position, the reference and alternate bases and the fixed fields |
| VcfGenerator.CreateVariants | generate_vcf/vcf_generator.py:50-52 | a region's variant is the reference sampler applied to its looked-up sequence |
| VcfGenerator.CreateVariantsAsWritten | generate_vcf/vcf_generator.py:50-53 | as written the variant is dropped: the result is `None` whenever sampling succeeds |
| VcfGenerator.Run | generate_vcf/vcf_generator.py:37-48 | succeeds iff every region succeeds, then one variant per region in input order; otherwise fails with the first failing region's error |

## Left out

- Database access (`set_up_db_conn`, the SQL queries, `pd.read_sql`): the query results are inputs.
- Writing the BED file (`to_csv`), all progress output, and the `print` of the variants.
- Reading the panel file with `pybedtools`: its records' name fields are an input.
- The `bytes.decode('utf-8')` of the coordinate columns: the columns are already text in the model.
- `pysam.faidx` is a function parameter. The model does not capture its 1-based inclusive region
  (`chromStart` is used as given, as the code passes it) or its errors.
- `multiprocessing.Pool` and `generate_vcf/utils.py` (`MultiprocessCounter`), whose only point is
  concurrency: the regions are processed one after another in input order.
- Randomness: the offsets and the alternate index are inputs. A bounded list of offsets stands for
  the unbounded loop, and running out of offsets is the explicit `NoDeterminateBase` failure.
- `synthia.py`, `generate_fastq/fastq_generator.py` (a stub) and the two `generate_vcf.py` drafts.
  The drafts are not runnable, and `bed_generator.py` supersedes them.
- Text.ParseInt: does not accept the surrounding whitespace, underscores or non-ASCII digits that
  Python's `int` also accepts. UCSC coordinate lists contain none of these.
- BedGenerator.IsRefSeqId: the digits of `N[RM]_\d+` are ASCII only, while Python 3's `\d` on `str`
  matches any Unicode decimal digit. RefSeq IDs contain ASCII digits only.
- Missing `refseq` values of the UCSC cross-reference (`NULL` from the left join): the model assumes
  the refseq column has no NULLs; in the code a NULL raises on the no-panel path.
- BedCoordinates.CreateDfBedfile: the order of rows within one chromosome is not stated, because
  the code's `sort_values` does not promise one. The model's sort keeps input order within a
  chromosome.
- The order of `list(set(...))` in `get_bedfile_transcripts` and `filter_bedfile_regions` is
  unspecified in Python. The model uses first-occurrence order and panel order.

## Findings

| source | as written | input that shows it | evidently intended | confidence | as-written member | corrected member |
|---|---|---|---|---|---|---|
| generate_vcf/vcf_generator.py:66-67 | `vcf_ref = 'N'` then `while vcf_ref != 'N'`: the loop never runs, so `VARIANT_OPTIONS['N']` raises `KeyError` | any region, e.g. sequence `"ACGT"` with any draws | draw again while the base has no table entry | not executed | VcfGenerator.CreateRandomVariantAsWritten | VcfGenerator.CreateRandomVariant |
| generate_vcf/vcf_generator.py:76 | `region[0]` on a record that is a dict keyed by column name raises `KeyError(0)` | any region once the loop is fixed, e.g. sequence `"A"` with draws `[0]` | `region['chrom']` | not executed | VcfGenerator.PositionalChromAlwaysKeyError | VcfGenerator.IntendedIsReference |
| generate_vcf/vcf_generator.py:50-52 | `create_variants` computes the variant and returns nothing, so `run` collects `None` for every region | any region whose sampling succeeds | `return variant` | not executed | VcfGenerator.CreateVariantsAsWritten | VcfGenerator.CreateVariants |
