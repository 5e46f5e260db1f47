/**
 * One match row of the output file: the candidate's fields and its score
 * against the searched name, `;`-separated, behind an optional country filter.
 */
module CsvOutput {
  import opened JavaLang
  import opened Normalizer
  import opened Levenshtein

  /** The fields of a registry company record that a match row reads; any of
      them may be missing (null) in the provider's response. */
  datatype Company = Company(
    name: Nullable<string>,
    company_number: Nullable<string>,
    jurisdiction_code: Nullable<string>,
    company_type: Nullable<string>,
    registry_url: Nullable<string>,
    branch_status: Nullable<string>,
    created_at: Nullable<string>,
    opencorporates_url: Nullable<string>)

  /** How string concatenation renders a possibly-null string. */
  function Text(v: Nullable<string>): (r: string)
    ensures v.NonNull? ==> r == v.value
  {
    match v
    case Null => "null"
    case NonNull(s) => s
  }

  /** The matching score of a candidate name against the searched name: the
      distance between their normalised forms. */
  function Score(candidate: string, reference: string): (r: nat)
    ensures r <= Max(|NormalizeName(candidate)|, |NormalizeName(reference)|)
  {
    Distance(NormalizeName(candidate), NormalizeName(reference))
  }

  /** The nine fields of a match row, in output order. */
  function MatchFields(c: Company, score: nat): (fields: seq<string>)
    ensures |fields| == 9
  {
    [Text(c.company_number), Text(c.jurisdiction_code), Text(c.branch_status),
     Text(c.company_type), Text(c.name), DecimalString(score), Text(c.created_at),
     Text(c.registry_url), Text(c.opencorporates_url)]
  }

  /** Each field preceded by `;`. */
  function JoinFields(fields: seq<string>): (r: string)
    ensures |r| >= |fields|
    ensures fields != [] ==> r[0] == ';'
  {
    if fields == [] then [] else ";" + fields[0] + JoinFields(fields[1..])
  }

  /** The pieces of `s` between `;` separators, empty pieces included. */
  function Segments(s: string): (r: seq<string>)
    ensures |r| >= 1
    decreases |s|
  {
    var i := IndexOf(s, ';');
    if i < 0 then [s] else [s[..i]] + Segments(s[i + 1..])
  }

  predicate NoSeparator(f: string) {
    forall k :: 0 <= k < |f| ==> f[k] != ';'
  }

  /** Splitting a field followed by joined fields gives back all of them, as
      long as no field holds a `;`. */
  lemma {:induction false} SegmentsOfJoin(f: string, fields: seq<string>)
    requires NoSeparator(f)
    requires forall k :: 0 <= k < |fields| ==> NoSeparator(fields[k])
    ensures Segments(f + JoinFields(fields)) == [f] + fields
    decreases |fields|
  {
    if fields == [] {
      assert f + JoinFields(fields) == f;
      assert IndexOf(f, ';') < 0;
    } else {
      var g, rest := fields[0], fields[1..];
      var tail := g + JoinFields(rest);
      assert f + JoinFields(fields) == f + ";" + tail by {
        assert JoinFields(fields) == ";" + g + JoinFields(rest);
      }
      assert Segments(f + ";" + tail) == [f] + Segments(tail) by {
        SegmentsAfter(f, tail);
      }
      assert Segments(tail) == [g] + rest by {
        assert NoSeparator(g);
        assert forall k :: 0 <= k < |rest| ==> NoSeparator(rest[k]) by {
          forall k | 0 <= k < |rest|
            ensures NoSeparator(rest[k])
          {
            assert rest[k] == fields[k + 1];
          }
        }
        SegmentsOfJoin(g, rest);
      }
      assert [f] + ([g] + rest) == [f] + fields;
    }
  }

  /** The first `;` after a separator-free field ends that field. */
  lemma SegmentsAfter(f: string, tail: string)
    requires NoSeparator(f)
    ensures Segments(f + ";" + tail) == [f] + Segments(tail)
  {
    var s := f + ";" + tail;
    forall k | 0 <= k < |f|
      ensures s[k] != ';'
    {
      assert s[k] == f[k];
    }
    IndexOfIs(s, ';', |f|);
    assert s[..|f|] == f;
    assert s[|f| + 1..] == tail;
  }

  /** The line written for a company with the given score. */
  function MatchLine(c: Company, score: nat): (line: string)
    ensures line != [] && line[0] == ';' && line[|line| - 1] == '\n'
  {
    JoinFields(MatchFields(c, score)) + "\n"
  }

  /**
   * Reading a match row back: an empty piece before the leading `;`, then the
   * nine fields in order, the sixth of which is the score in decimal, provided
   * no field holds a `;`.
   */
  lemma MatchLineFields(c: Company, score: nat)
    requires forall k :: 0 <= k < 9 ==> NoSeparator(MatchFields(c, score)[k])
    ensures var line := MatchLine(c, score);
            Segments(line[..|line| - 1]) == [""] + MatchFields(c, score)
    ensures DecimalValue(MatchFields(c, score)[5]) == score
  {
    var fields := MatchFields(c, score);
    var line := MatchLine(c, score);
    assert line[..|line| - 1] == "" + JoinFields(fields);
    SegmentsOfJoin("", fields);
    DecimalRoundTrip(score);
  }

  /** The country filter. The source compares the two references; this model
      compares the strings. */
  predicate PassesFilter(c: Company, filter: Nullable<string>) {
    filter.Null? || c.jurisdiction_code == filter
  }

  /** What `toCsv` does for one candidate. */
  datatype RowResult =
    | Filtered                 // the country filter rejected the candidate
    | Row(line: string)        // the line written
    | NullDereference          // a null company or a null name was dereferenced

  /** The lines a `RowResult` adds to the output. */
  function RowLines(r: RowResult): seq<string>
  {
    if r.Row? then [r.line] else []
  }

  /** `toCsv(writer, company, company_name_ref, country_filter)` as a value. */
  function CsvRow(entry: Nullable<Company>, reference: string, filter: Nullable<string>): (r: RowResult)
    ensures r.Row? <==> entry.NonNull? && PassesFilter(entry.value, filter) && entry.value.name.NonNull?
    ensures r.Row? ==> entry.NonNull? && PassesFilter(entry.value, filter)
    ensures r.Filtered? ==> entry.NonNull? && !PassesFilter(entry.value, filter)
  {
    match entry
    case Null => NullDereference
    case NonNull(c) =>
      if !PassesFilter(c, filter) then Filtered
      else
        match c.name
        case Null => NullDereference
        case NonNull(name) => Row(MatchLine(c, Score(name, reference)))
  }

  /** A candidate's row scores its own name against the searched name. */
  lemma RowScoresName(c: Company, reference: string, filter: Nullable<string>)
    requires PassesFilter(c, filter) && c.name.NonNull?
    ensures CsvRow(NonNull(c), reference, filter) == Row(MatchLine(c, Score(c.name.value, reference)))
  {
  }

  /** No field a match row copies from the candidate holds a `;`. */
  predicate FieldsWithoutSeparator(c: Company) {
    && NoSeparator(Text(c.company_number)) && NoSeparator(Text(c.jurisdiction_code))
    && NoSeparator(Text(c.branch_status)) && NoSeparator(Text(c.company_type))
    && NoSeparator(Text(c.name)) && NoSeparator(Text(c.created_at))
    && NoSeparator(Text(c.registry_url)) && NoSeparator(Text(c.opencorporates_url))
  }

  /** The columns of a match row, for a candidate whose fields hold no `;`. */
  lemma LineReadsBack(c: Company, score: nat)
    requires FieldsWithoutSeparator(c)
    ensures var line := MatchLine(c, score);
            && Segments(line[..|line| - 1]) ==
                 ["", Text(c.company_number), Text(c.jurisdiction_code), Text(c.branch_status),
                  Text(c.company_type), Text(c.name), DecimalString(score),
                  Text(c.created_at), Text(c.registry_url), Text(c.opencorporates_url)]
            && DecimalValue(Segments(line[..|line| - 1])[6]) == score
  {
    var fields := MatchFields(c, score);
    assert NoSeparator(DecimalString(score));
    assert forall k :: 0 <= k < 9 ==> NoSeparator(fields[k]);
    MatchLineFields(c, score);
    assert [""] + fields ==
      ["", Text(c.company_number), Text(c.jurisdiction_code), Text(c.branch_status),
       Text(c.company_type), Text(c.name), DecimalString(score),
       Text(c.created_at), Text(c.registry_url), Text(c.opencorporates_url)];
  }

  /**
   * The line `toCsv` writes for a candidate that passes the filter and has a
   * name, read back by splitting at `;`: an empty piece, the candidate's number,
   * jurisdiction, branch status, type and name, the score of its name against
   * the searched name in decimal (which `LineReadsBack` reads back), then its
   * creation date and two URLs. This holds when none of those fields holds a
   * `;`; the source does not escape it.
   */
  lemma RowReadsBack(c: Company, reference: string, filter: Nullable<string>)
    requires PassesFilter(c, filter) && c.name.NonNull? && FieldsWithoutSeparator(c)
    ensures var r, score := CsvRow(NonNull(c), reference, filter), Score(c.name.value, reference);
            && r == Row(MatchLine(c, score))
            && Segments(r.line[..|r.line| - 1]) ==
                 ["", Text(c.company_number), Text(c.jurisdiction_code), Text(c.branch_status),
                  Text(c.company_type), c.name.value, DecimalString(score),
                  Text(c.created_at), Text(c.registry_url), Text(c.opencorporates_url)]
  {
    var score := Score(c.name.value, reference);
    RowScoresName(c, reference, filter);
    LineReadsBack(c, score);
  }

  /** Scoring against a name that is already normalised, as the client does,
      gives the same score as scoring against the raw name. */
  lemma ScoreOfNormalizedReference(candidate: string, reference: string)
    ensures Score(candidate, NormalizeName(reference)) == Score(candidate, reference)
  {
    NormalizeIdempotent(reference);
  }

  /** A score of zero means the two names normalise to the same string. */
  lemma ScoreZeroIff(candidate: string, reference: string)
    ensures Score(candidate, reference) == 0 <==> NormalizeName(candidate) == NormalizeName(reference)
  {
    var a, b := NormalizeName(candidate), NormalizeName(reference);
    DistanceZeroIff(a, b);
    assert ToLowerCase(a) == a && ToLowerCase(b) == b;
  }

  /** The output file: every string written to it, in order. */
  class Writer {
    var lines: seq<string>

    constructor ()
      ensures lines == []
    {
      lines := [];
    }

    /** `writer.write(s)`. */
    method Write(s: string)
      modifies this
      ensures lines == old(lines) + [s]
    {
      lines := lines + [s];
    }
  }

  /**
   * `toCsv`: a null company is dereferenced whatever the filter; a candidate
   * the filter accepts is scored, which dereferences its name, and its line is
   * written. `failed` reports the null dereference.
   */
  method ToCsv(writer: Writer, entry: Nullable<Company>, reference: string, filter: Nullable<string>)
    returns (failed: bool)
    modifies writer
    ensures failed <==> CsvRow(entry, reference, filter).NullDereference?
    ensures writer.lines == old(writer.lines) + RowLines(CsvRow(entry, reference, filter))
  {
    if entry.Null? {
      return true;
    }
    var c := entry.value;
    var flag := true;
    if filter.Null? {
      flag := true;
    } else if filter == c.jurisdiction_code {
      flag := true;
    } else {
      flag := false;
    }
    if flag {
      if c.name.Null? {
        return true;
      }
      var score := ComputeLevenshteinDistance(NormalizeName(c.name.value), NormalizeName(reference));
      var output := JoinFields(MatchFields(c, score));
      writer.Write(output + "\n");
    }
    failed := false;
  }

  /** The candidate of the two-name example scores 10 against the searched name. */
  lemma AcmeScore()
    ensures Score("Acme Corporation", "Acme Ltd") == 10
  {
    NormalizeExampleNoSuffix("Acme Corporation");
    NormalizeExampleMixedCase("Acme Ltd");
    ScoreOfNormalized("Acme Corporation", "Acme Ltd", "acme corporation", "acme ltd");
    AcmeDistance();
  }

  lemma ScoreOfNormalized(candidate: string, reference: string, a: string, b: string)
    requires NormalizeName(candidate) == a && NormalizeName(reference) == b
    ensures Score(candidate, reference) == Distance(a, b)
  {
  }
}
