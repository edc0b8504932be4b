/** `BEDGenerator`: which transcripts are resolved (all NM transcripts, or those of a panel),
    how they are joined to their exon records, and which panel transcripts the region file
    ends up missing. The database queries are replaced by their result rows. */
module BedGenerator {

  import opened Common
  import opened Text
  import opened BedCoordinates

  /** A row of the RefSeq exon table: `name` carries a version suffix (`NM_000014.6`). */
  datatype ExonRecord = ExonRecord(name: string, chrom: string, strand: string, exonStarts: string, exonEnds: string)

  /** The BED rows and, when a panel was given, the panel transcripts absent from them. */
  datatype BedResult = BedResult(rows: seq<BedRow>, missing: Option<set<string>>)

  // ---------------------------------------------------------------- exon table keys

  /** `name.split('.')[0]`: the RefSeq ID without its version. */
  function StripVersion(name: string): (id: string)
    ensures '.' !in id
    ensures id == name || StartsWith(name, id + ".")
  {
    var parts := Split(name, '.');
    JoinSplit(name, '.');
    assert |parts| > 1 ==> name == parts[0] + "." + Join(parts[1..], '.');
    parts[0]
  }

  /** An unversioned ID keeps itself, and a version suffix is removed whatever it is. */
  lemma StripVersionOf(id: string, version: string)
    requires '.' !in id
    ensures StripVersion(id) == id
    ensures StripVersion(id + "." + version) == id
  {
    SplitNoSeparator(id, '.');
    SplitCons(id, '.', version);
  }

  function JoinKey(e: ExonRecord): string
  {
    StripVersion(e.name)
  }

  /** The messenger-RNA transcripts: `refseq.str.startswith('NM')`. */
  predicate IsMrna(refseq: string)
  {
    StartsWith(refseq, "NM")
  }

  // ---------------------------------------------------------------- panel transcript IDs

  /** A full match of the pattern `N[RM]_\d+`. */
  predicate IsRefSeqId(s: string)
  {
    |s| >= 4 && s[0] == 'N' && (s[1] == 'R' || s[1] == 'M') && s[2] == '_' && AllDigits(s[3..])
  }

  /** Among RefSeq IDs the NM filter keeps the messenger RNAs (`NM_`) and drops the non-coding
      RNAs (`NR_`). */
  lemma MrnaIds(id: string)
    requires IsRefSeqId(id)
    ensures IsMrna(id) <==> id[1] == 'M'
    ensures !IsMrna(id) <==> id[1] == 'R'
  {
    assert id[..2] == [id[0], id[1]];
  }

  function DigitRun(s: string, i: nat): (n: nat)
    requires i <= |s|
    ensures i + n <= |s|
    ensures forall k :: i <= k < i + n ==> IsDigit(s[k])
    ensures i + n == |s| || !IsDigit(s[i + n])
    decreases |s| - i
  {
    if i < |s| && IsDigit(s[i]) then 1 + DigitRun(s, i + 1) else 0
  }

  /** A run of digits ending at `j` (at a non-digit or the end) has length `j - i`. */
  lemma {:induction false} DigitRunStops(s: string, i: nat, j: nat)
    requires i <= j <= |s|
    requires forall k :: i <= k < j ==> IsDigit(s[k])
    requires j == |s| || !IsDigit(s[j])
    ensures DigitRun(s, i) == j - i
    decreases j - i
  {
    if i < j {
      DigitRunStops(s, i + 1, j);
    }
  }

  /** The slice `s[j..j + m]` is a RefSeq ID. */
  predicate IdSpan(s: string, j: int, m: int)
  {
    0 <= j && 0 <= m && j + m <= |s| && IsRefSeqId(s[j..j + m])
  }

  /** The pattern's first four characters `N`, `R` or `M`, `_`, digit start at `i`. */
  predicate StartsId(s: string, i: nat)
  {
    i + 4 <= |s| && s[i] == 'N' && (s[i + 1] == 'R' || s[i + 1] == 'M') && s[i + 2] == '_' && IsDigit(s[i + 3])
  }

  lemma SpanStartsId(s: string, i: nat)
    ensures forall m :: IdSpan(s, i, m) ==> StartsId(s, i)
  {
    forall m | IdSpan(s, i, m) ensures StartsId(s, i) {
      var t := s[i..i + m];
      assert t[0] == s[i] && t[1] == s[i + 1] && t[2] == s[i + 2] && t[3] == s[i + 3];
      assert t[3..][0] == t[3];
    }
  }

  /** Length of the (greedy) match of `N[RM]_\d+` starting at `i`, or 0 when none starts there. */
  function MatchAt(s: string, i: nat): (n: nat)
    requires i <= |s|
    ensures n == 0 || (n >= 4 && i + n <= |s|)
  {
    if StartsId(s, i) then 3 + DigitRun(s, i + 3) else 0
  }

  /** A match is a full RefSeq ID that ends before a non-digit, and there is one exactly where some
      prefix of the rest of the string is an ID. */
  lemma MatchAtIsId(s: string, i: nat)
    requires i <= |s|
    ensures MatchAt(s, i) > 0 ==> IdSpan(s, i, MatchAt(s, i))
    ensures MatchAt(s, i) > 0 ==> i + MatchAt(s, i) == |s| || !IsDigit(s[i + MatchAt(s, i)])
    ensures MatchAt(s, i) == 0 <==> forall m :: !IdSpan(s, i, m)
  {
    SpanStartsId(s, i);
    if StartsId(s, i) {
      var n := MatchAt(s, i);
      var t := s[i..i + n];
      assert forall k :: 0 <= k < |t[3..]| ==> t[3..][k] == s[i + 3 + k];
      assert IdSpan(s, i, n);
    }
  }

  /** The positions where a match starts. */
  function MatchStarts(s: string): nat -> bool
  {
    (j: nat) => j <= |s| && MatchAt(s, j) > 0
  }

  /** `id` occurs in `s` at `j` as a whole match of `N[RM]_\d+`: its digits run up to a non-digit or the
      end, and no ID starts anywhere before `j`. */
  ghost predicate LeftmostMatch(s: string, j: int, id: string)
  {
    IdSpan(s, j, |id|) && id == s[j..j + |id|] &&
    (j + |id| == |s| || !IsDigit(s[j + |id|])) &&
    forall k, m :: 0 <= k < j ==> !IdSpan(s, k, m)
  }

  /** `re.findall(r'N[RM]_\d+', field)[0]`, with `None` where the list is empty (and `[0]` raises):
      the leftmost greedy match, always a RefSeq ID taken from the field. */
  function ExtractId(field: string): (r: Option<string>)
    ensures r.Some? ==> IsRefSeqId(r.value)
    ensures r.Some? ==> exists j :: LeftmostMatch(field, j, r.value)
  {
    match FirstWhere(0, |field|, MatchStarts(field))
    case None => None
    case Some(j) =>
      FirstMatchIsLeftmost(field, j);
      Some(field[j..j + MatchAt(field, j)])
  }

  /** The first position where a match starts holds the leftmost ID of the field, in full. */
  lemma FirstMatchIsLeftmost(field: string, j: nat)
    requires j <= |field| && MatchStarts(field)(j)
    requires forall k :: 0 <= k < j ==> !MatchStarts(field)(k)
    ensures j + MatchAt(field, j) <= |field|
    ensures LeftmostMatch(field, j, field[j..j + MatchAt(field, j)])
  {
    MatchAtIsId(field, j);
    forall k, m | 0 <= k < j ensures !IdSpan(field, k, m) {
      assert !MatchStarts(field)(k);
      MatchAtIsId(field, k);
    }
  }

  /** The search finds nothing exactly when no RefSeq ID occurs anywhere in the field. */
  lemma NoIdFound(field: string)
    ensures ExtractId(field).None? <==> forall j, m :: !IdSpan(field, j, m)
  {
    if ExtractId(field).None? {
      forall j, m ensures !IdSpan(field, j, m) {
        if 0 <= j <= |field| {
          assert !MatchStarts(field)(j);
          MatchAtIsId(field, j);
        }
      }
    } else {
      var j := FirstWhere(0, |field|, MatchStarts(field)).value;
      MatchAtIsId(field, j);
    }
  }

  /** A RefSeq ID followed by anything not starting with a digit (a version `.6`, nothing) is found as it is. */
  lemma ExtractIdOfId(id: string, rest: string)
    requires IsRefSeqId(id)
    requires rest == "" || !IsDigit(rest[0])
    ensures ExtractId(id + rest) == Some(id)
  {
    var s := id + rest;
    assert s[..|id|] == id;
    assert forall k :: 3 <= k < |id| ==> IsDigit(s[k]) by {
      assert forall k :: 3 <= k < |id| ==> s[k] == id[3..][k - 3];
    }
    DigitRunStops(s, 3, |id|);
    assert StartsId(s, 0);
  }

  /** One name field piece: its ID, or the error `[0]` raises on an empty match list. */
  function ExtractOne(piece: string): (r: Result<seq<string>, BedError>)
  {
    match ExtractId(piece)
    case Some(id) => Ok([id])
    case None => Err(NoTranscriptId(piece))
  }

  /** The pieces of the panel's name fields, split on commas. */
  function NamePieces(nameFields: seq<string>): (pieces: seq<string>)
    ensures forall p :: p in pieces <==> exists i :: 0 <= i < |nameFields| && p in Split(nameFields[i], ',')
  {
    var split := seq(|nameFields|, i requires 0 <= i < |nameFields| => Split(nameFields[i], ','));
    assert forall i :: 0 <= i < |nameFields| ==> split[i] == Split(nameFields[i], ',');
    Flatten(split)
  }

  /** What mapping `ExtractOne` over the pieces gives, stated per piece. */
  lemma ExtractAll(pieces: seq<string>)
    ensures ConcatMap(pieces, ExtractOne).Ok? <==> forall p :: p in pieces ==> ExtractId(p).Some?
    ensures ConcatMap(pieces, ExtractOne).Ok? ==> forall id :: id in ConcatMap(pieces, ExtractOne).value <==>
      exists p :: p in pieces && ExtractId(p) == Some(id)
    ensures ConcatMap(pieces, ExtractOne).Err? ==>
      exists p :: p in pieces && ExtractId(p).None? && ConcatMap(pieces, ExtractOne).error == NoTranscriptId(p)
  {
    var r := ConcatMap(pieces, ExtractOne);
    if r.Ok? {
      var ids := r.value;
      forall id ensures id in ids <==> exists p :: p in pieces && ExtractId(p) == Some(id) {
        if id in ids {
          var j :| 0 <= j < |pieces| && ExtractOne(pieces[j]).Ok? && id in ExtractOne(pieces[j]).value;
          assert ExtractId(pieces[j]) == Some(id);
        }
        if exists p :: p in pieces && ExtractId(p) == Some(id) {
          var p :| p in pieces && ExtractId(p) == Some(id);
          var j :| 0 <= j < |pieces| && pieces[j] == p;
          assert id in ExtractOne(pieces[j]).value;
        }
      }
    } else {
      var j :| 0 <= j < |pieces| && ExtractOne(pieces[j]) == Err(r.error);
      assert pieces[j] in pieces;
    }
    if forall p :: p in pieces ==> ExtractId(p).Some? {
      assert forall j :: 0 <= j < |pieces| ==> ExtractOne(pieces[j]).Ok? by {
        forall j | 0 <= j < |pieces| ensures ExtractOne(pieces[j]).Ok? {
          assert pieces[j] in pieces;
        }
      }
    }
  }

  /** `get_bedfile_transcripts`: the distinct transcript IDs named by the panel. */
  function GetBedfileTranscripts(nameFields: seq<string>): (r: Result<seq<string>, BedError>)
    ensures r.Ok? <==> forall p :: p in NamePieces(nameFields) ==> ExtractId(p).Some?
    ensures r.Ok? ==> NoDuplicates(r.value)
    ensures r.Ok? ==> forall id :: id in r.value ==> IsRefSeqId(id)
    ensures r.Ok? ==> forall id :: id in r.value <==> exists p :: p in NamePieces(nameFields) && ExtractId(p) == Some(id)
    ensures r.Err? ==> exists p :: p in NamePieces(nameFields) && ExtractId(p).None? && r.error == NoTranscriptId(p)
  {
    var pieces := NamePieces(nameFields);
    ExtractAll(pieces);
    match ConcatMap(pieces, ExtractOne)
    case Err(e) => Err(e)
    case Ok(ids) => Ok(Dedup(ids))
  }

  // ---------------------------------------------------------------- transcript selection

  /** `filter_bedfile_regions`: the UCSC refseqs in the panel, then one placeholder per panel ID
      UCSC does not have. */
  function FilterBedfileRegions(refseqs: seq<string>, panel: seq<string>): (r: seq<string>)
    ensures forall x :: x in r <==> x in panel
  {
    Filter(refseqs, x => x in panel) + Filter(panel, p => p !in refseqs)
  }

  /** Each panel ID occurs as often as UCSC lists it, or exactly once as a placeholder; nothing else occurs. */
  lemma FilterBedfileRegionsCounts(refseqs: seq<string>, panel: seq<string>)
    requires NoDuplicates(panel)
    ensures forall p :: multiset(FilterBedfileRegions(refseqs, panel))[p] ==
                       (if p !in panel then 0 else if p in refseqs then multiset(refseqs)[p] else 1)
  {
    forall p | p in panel && p !in refseqs
      ensures multiset(FilterBedfileRegions(refseqs, panel))[p] == 1
    {
      DistinctCount(panel, p);
    }
  }

  /** The refseq IDs `get_canonical_df` returns: panel-filtered when a panel is given, then NM only. */
  function GetCanonical(refseqs: seq<string>, panel: Option<seq<string>>): (r: seq<string>)
    ensures forall x :: x in r <==> IsMrna(x) && (if panel.Some? then x in panel.value else x in refseqs)
  {
    var base := if panel.Some? then FilterBedfileRegions(refseqs, panel.value) else refseqs;
    Filter(base, IsMrna)
  }

  // ---------------------------------------------------------------- join

  function Joined(refseq: string, e: ExonRecord): Transcript
  {
    Transcript(refseq, e.chrom, e.strand, e.exonStarts, e.exonEnds)
  }

  /** The exon records whose unversioned name is `refseq`, joined to it. */
  function JoinOne(refseq: string, exons: seq<ExonRecord>): (r: seq<Transcript>)
    ensures forall t :: t in r <==> exists e :: e in exons && JoinKey(e) == refseq && t == Joined(refseq, e)
  {
    if |exons| == 0 then []
    else
      var rest := JoinOne(refseq, exons[1..]);
      assert exons == [exons[0]] + exons[1..];
      if JoinKey(exons[0]) == refseq then [Joined(refseq, exons[0])] + rest else rest
  }

  /** `create_canonical_exons_df`: the left join on the refseq key followed by `dropna`, i.e. the
      transcripts that have exon records, once per matching record. */
  function CreateCanonicalExons(canonical: seq<string>, exons: seq<ExonRecord>): (r: seq<Transcript>)
    ensures forall t :: t in r <==>
      t.refseq in canonical && exists e :: e in exons && JoinKey(e) == t.refseq && t == Joined(t.refseq, e)
  {
    var perId := seq(|canonical|, i requires 0 <= i < |canonical| => JoinOne(canonical[i], exons));
    var r := Flatten(perId);
    assert forall t :: t in r ==> t.refseq in canonical by {
      forall t | t in r ensures t.refseq in canonical {
        var i :| 0 <= i < |perId| && t in perId[i];
        assert t.refseq == canonical[i];
      }
    }
    assert forall t: Transcript :: t in r <== t.refseq in canonical && (exists e :: e in exons && JoinKey(e) == t.refseq && t == Joined(t.refseq, e)) by {
      forall t: Transcript | t.refseq in canonical && exists e :: e in exons && JoinKey(e) == t.refseq && t == Joined(t.refseq, e)
        ensures t in r
      {
        var i :| 0 <= i < |canonical| && canonical[i] == t.refseq;
        assert t in perId[i];
      }
    }
    r
  }

  // ---------------------------------------------------------------- completeness

  /** `'_'.join(name.split('_')[:2])`: the prefix of `name` before its second `_`, or all of it when
      it has fewer than two. */
  function TranscriptOf(name: string): (r: string)
    ensures |r| <= |name| && r == name[..|r|]
    ensures forall i, j :: 0 <= i < j < |r| ==> r[i] != '_' || r[j] != '_'
    ensures r != name ==> name[|r|] == '_' && '_' in r
  {
    var parts := Split(name, '_');
    PrefixOfTwoParts(name, parts);
    Join(parts[..if |parts| < 2 then |parts| else 2], '_')
  }

  /** The join of the first two `_`-parts, as a prefix of the name. */
  lemma PrefixOfTwoParts(name: string, parts: seq<string>)
    requires parts == Split(name, '_')
    ensures var r := Join(parts[..if |parts| < 2 then |parts| else 2], '_');
      |r| <= |name| && r == name[..|r|] &&
      (forall i, j :: 0 <= i < j < |r| ==> r[i] != '_' || r[j] != '_') &&
      (r != name ==> name[|r|] == '_' && '_' in r)
  {
    JoinSplit(name, '_');
    FirstTwoJoined(parts, '_');
  }

  /** For separator-free parts, the first two joined are a prefix of the whole join holding at most
      one separator, followed by a separator when they are not all of it. */
  lemma FirstTwoJoined(parts: seq<string>, sep: char)
    requires |parts| >= 1
    requires forall i :: 0 <= i < |parts| ==> sep !in parts[i]
    ensures var r, s := Join(parts[..if |parts| < 2 then |parts| else 2], sep), Join(parts, sep);
      |r| <= |s| && r == s[..|r|] &&
      (forall i, j :: 0 <= i < j < |r| ==> r[i] != sep || r[j] != sep) &&
      (r != s ==> s[|r|] == sep && sep in r)
  {
    if |parts| == 1 {
      assert parts[..1] == parts;
    } else {
      var a, b := parts[0], parts[1];
      var r := a + [sep] + b;
      assert Join(parts[..2], sep) == r by {
        assert parts[..2] == [a, b];
        assert [a, b][1..] == [b];
      }
      OneSeparator(a, b, sep);
      if |parts| == 2 {
        assert parts[..2] == parts;
      } else {
        TwoPartsPrefix(parts, sep);
        SeparatedPrefix(r, sep, Join(parts[2..], sep));
      }
    }
  }

  /** `a + sep + b` holds `sep` once when neither part does. */
  lemma OneSeparator(a: string, b: string, sep: char)
    requires sep !in a && sep !in b
    ensures var r := a + [sep] + b;
      sep in r && forall i, j :: 0 <= i < j < |r| ==> r[i] != sep || r[j] != sep
  {
    var r := a + [sep] + b;
    assert r[|a|] == sep;
    assert forall k :: 0 <= k < |a| ==> r[k] == a[k];
    assert forall k :: |a| < k < |r| ==> r[k] == b[k - |a| - 1];
  }

  lemma SeparatedPrefix(r: string, sep: char, rest: string)
    ensures var s := r + [sep] + rest; |r| < |s| && s[..|r|] == r && s[|r|] == sep
  {
  }

  /** With three or more parts, the first two joined are followed in the whole join by `sep`. */
  lemma TwoPartsPrefix(parts: seq<string>, sep: char)
    requires |parts| >= 3
    ensures Join(parts, sep) == parts[0] + [sep] + parts[1] + [sep] + Join(parts[2..], sep)
  {
    assert parts[1..][1..] == parts[2..];
    assert Join(parts[1..], sep) == parts[1] + [sep] + Join(parts[2..], sep);
  }

  /** The transcript ID of an exon name of a RefSeq transcript is that transcript's ID. */
  lemma TranscriptOfExonName(id: string, n: nat)
    requires IsRefSeqId(id)
    ensures TranscriptOf(ExonName(id, n)) == id
  {
    var a, b, c := id[..2], id[3..], "exon" + NatToDecimal(n);
    assert '_' !in a;
    assert '_' !in b by {
      assert forall k :: 0 <= k < |b| ==> IsDigit(b[k]);
    }
    assert '_' !in c by {
      assert forall k :: 4 <= k < |c| ==> IsDigit(c[k]);
    }
    assert id == a + "_" + b;
    assert ExonName(id, n) == a + ['_'] + (b + ['_'] + c);
    SplitCons(a, '_', b + ['_'] + c);
    SplitCons(b, '_', c);
    SplitNoSeparator(c, '_');
    assert Split(ExonName(id, n), '_') == [a, b, c];
    var parts := Split(ExonName(id, n), '_');
    assert parts[..2] == [a, b];
    assert [a, b][1..] == [b];
    assert Join([b], '_') == b;
    assert Join([a, b], '_') == a + ['_'] + b;
    assert TranscriptOf(ExonName(id, n)) == Join([a, b], '_');
  }

  function FoundTranscripts(rows: seq<BedRow>): set<string>
  {
    set row | row in rows :: TranscriptOf(row.name)
  }

  /** The panel IDs no output row was named after (`desired_transcripts - found_transcripts`). */
  function MissingTranscripts(rows: seq<BedRow>, panel: seq<string>): set<string>
  {
    set p | p in panel && p !in FoundTranscripts(rows)
  }

  // ---------------------------------------------------------------- the whole stage

  /** `BEDGenerator.run` on the query results: `refseqs` is the refseq column of the canonical
      (or, with a panel, the known-gene) table, `exons` the RefSeq exon table, `panelNames` the
      name fields of the panel's BED records when a panel is given. */
  function Run(refseqs: seq<string>, exons: seq<ExonRecord>, panelNames: Option<seq<string>>): (r: Result<BedResult, BedError>)
    ensures r.Ok? ==> NoDuplicates(r.value.rows) && SortedByChrom(r.value.rows)
    ensures r.Ok? ==> (r.value.missing.Some? <==> panelNames.Some?)
    ensures panelNames.Some? && GetBedfileTranscripts(panelNames.value).Err? ==>
      r == Err(GetBedfileTranscripts(panelNames.value).error)
    ensures panelNames.None? || GetBedfileTranscripts(panelNames.value).Ok? ==>
      var selection := if panelNames.None? then None else Some(GetBedfileTranscripts(panelNames.value).value);
      var d := CreateDfBedfile(CreateCanonicalExons(GetCanonical(refseqs, selection), exons));
      (r.Ok? <==> d.Ok?) && (d.Err? ==> r == Err(d.error))
  {
    match panelNames
    case None =>
      (match CreateDfBedfile(CreateCanonicalExons(GetCanonical(refseqs, None), exons))
       case Err(e) => Err(e)
       case Ok(rows) => Ok(BedResult(rows, None)))
    case Some(names) =>
      match GetBedfileTranscripts(names)
      case Err(e) => Err(e)
      case Ok(panel) =>
        match CreateDfBedfile(CreateCanonicalExons(GetCanonical(refseqs, Some(panel)), exons))
        case Err(e) => Err(e)
        case Ok(rows) => Ok(BedResult(rows, Some(MissingTranscripts(rows, panel))))
  }

  /** Which rows the region file holds: a row is in it exactly when it is a row of one of the
      selected transcripts joined to their exon records (the canonical NM transcripts, or the NM
      transcripts of the parsed panel). */
  lemma RunRows(refseqs: seq<string>, exons: seq<ExonRecord>, panelNames: Option<seq<string>>)
    ensures Run(refseqs, exons, panelNames).Ok? && panelNames.Some? ==> GetBedfileTranscripts(panelNames.value).Ok?
    ensures Run(refseqs, exons, panelNames).Ok? ==>
      var selection := if panelNames.None? then None else Some(GetBedfileTranscripts(panelNames.value).value);
      var ts := CreateCanonicalExons(GetCanonical(refseqs, selection), exons);
      forall row :: row in Run(refseqs, exons, panelNames).value.rows <==>
        exists j :: 0 <= j < |ts| && ExpandTranscript(ts[j]).Ok? && row in ExpandTranscript(ts[j]).value
  {
    if Run(refseqs, exons, panelNames).Ok? {
      var selection := if panelNames.None? then None else Some(GetBedfileTranscripts(panelNames.value).value);
      ResolvedRowsComeFromTranscripts(CreateCanonicalExons(GetCanonical(refseqs, selection), exons));
    }
  }

  /** The name of every row of a transcript starts with that transcript's ID. */
  lemma RowNamedAfterTranscript(t: Transcript, row: BedRow)
    requires ExpandTranscript(t).Ok? && row in ExpandTranscript(t).value
    requires IsRefSeqId(t.refseq)
    ensures TranscriptOf(row.name) == t.refseq
  {
    var rows := ExpandTranscript(t).value;
    var i :| 0 <= i < |rows| && rows[i] == row;
    TranscriptOfExonName(t.refseq, ExonNumber(t.strand, |rows|, i));
  }

  /** A transcript ID is found among the region names exactly when it was selected and has an exon record. */
  lemma FoundExactlyJoined(canonical: seq<string>, exons: seq<ExonRecord>, p: string)
    requires forall c :: c in canonical ==> IsRefSeqId(c)
    ensures CreateDfBedfile(CreateCanonicalExons(canonical, exons)).Ok? ==>
      (p in FoundTranscripts(CreateDfBedfile(CreateCanonicalExons(canonical, exons)).value) <==>
       p in canonical && exists e :: e in exons && JoinKey(e) == p)
  {
    var ts := CreateCanonicalExons(canonical, exons);
    if CreateDfBedfile(ts).Err? {
      return;
    }
    var rows := CreateDfBedfile(ts).value;
    ResolvedRowsComeFromTranscripts(ts);
    if p in FoundTranscripts(rows) {
      var row :| row in rows && TranscriptOf(row.name) == p;
      var j :| 0 <= j < |ts| && ExpandTranscript(ts[j]).Ok? && row in ExpandTranscript(ts[j]).value;
      assert ts[j] in ts;
      RowNamedAfterTranscript(ts[j], row);
    }
    if p in canonical && exists e :: e in exons && JoinKey(e) == p {
      var e :| e in exons && JoinKey(e) == p;
      var t := Joined(p, e);
      assert t in ts;
      var j :| 0 <= j < |ts| && ts[j] == t;
      assert ExpandTranscript(t).Ok?;
      var row := ExpandTranscript(t).value[0];
      RowNamedAfterTranscript(t, row);
      assert row in rows;
    }
  }

  /** With a panel, `run` reports as missing the panel IDs absent from its own region names. */
  lemma RunReportsMissing(refseqs: seq<string>, exons: seq<ExonRecord>, names: seq<string>)
    ensures Run(refseqs, exons, Some(names)).Ok? ==> GetBedfileTranscripts(names).Ok?
    ensures Run(refseqs, exons, Some(names)).Ok? ==>
      var panel := GetBedfileTranscripts(names).value;
      var rows := CreateDfBedfile(CreateCanonicalExons(GetCanonical(refseqs, Some(panel)), exons));
      rows.Ok? && Run(refseqs, exons, Some(names)).value.missing == Some(MissingTranscripts(rows.value, panel))
  {
  }

  /** The missing set, given which panel IDs were found. */
  lemma MissingWhenFoundExactly(rows: seq<BedRow>, panel: seq<string>, exons: seq<ExonRecord>)
    requires forall p :: p in panel ==>
      (p in FoundTranscripts(rows) <==> IsMrna(p) && exists e :: e in exons && JoinKey(e) == p)
    ensures MissingTranscripts(rows, panel) ==
      set p | p in panel && !(IsMrna(p) && exists e :: e in exons && JoinKey(e) == p)
  {
  }

  /** The completeness report: a panel transcript is reported missing exactly when it is not an
      NM transcript or the exon table has no record for it. */
  lemma PanelCompleteness(refseqs: seq<string>, exons: seq<ExonRecord>, names: seq<string>)
    ensures Run(refseqs, exons, Some(names)).Ok? ==> GetBedfileTranscripts(names).Ok?
    ensures Run(refseqs, exons, Some(names)).Ok? ==> Run(refseqs, exons, Some(names)).value.missing == Some(
      set p | p in GetBedfileTranscripts(names).value &&
              !(IsMrna(p) && exists e :: e in exons && JoinKey(e) == p))
  {
    RunReportsMissing(refseqs, exons, names);
    if Run(refseqs, exons, Some(names)).Err? {
      return;
    }
    var panel := GetBedfileTranscripts(names).value;
    var canonical := GetCanonical(refseqs, Some(panel));
    assert forall c :: c in canonical ==> IsRefSeqId(c);
    var rows := CreateDfBedfile(CreateCanonicalExons(canonical, exons)).value;
    forall p | p in panel
      ensures p in FoundTranscripts(rows) <==> IsMrna(p) && exists e :: e in exons && JoinKey(e) == p
    {
      FoundExactlyJoined(canonical, exons, p);
    }
    MissingWhenFoundExactly(rows, panel, exons);
  }
}
