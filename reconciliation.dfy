/**
 * The reconciliation batch: for each input name, search the registry with the
 * normalised name and write a header line for the name followed by one match
 * row per candidate, in the provider's order.
 */
module Reconciliation {
  import opened JavaLang
  import opened Constants
  import opened Normalizer
  import opened Query
  import opened CsvOutput

  /** Why a batch stopped early. */
  datatype Failure =
    | IoError            // the request or reading its entity failed
    | MalformedResponse  // the entity was not the expected JSON document
    | NullCompany        // a candidate, or its name, was null

  /** What the search provider answers to one request path. */
  datatype Response =
    | Failed(cause: Failure)
    | NoEntity
    | Results(companies: seq<Nullable<Company>>)

  datatype Ending = Completed | Aborted(cause: Failure)

  /** The lines written and how the writing ended. */
  datatype Outcome = Outcome(lines: seq<string>, ending: Ending)

  /** The line announcing the candidates for one input name. */
  function HeaderLine(name: string): (r: string)
    ensures |r| == |name| + 8 && r[..|name|] == name && r[|r| - 1] == '\n'
    ensures forall k :: |name| <= k < |r| - 1 ==> r[k] == ';'
  {
    name + ";;;;;;;\n"
  }

  /** Split at `;`, the header line (without its newline) is the name followed
      by seven empty columns, provided the name holds no `;`. */
  lemma HeaderColumns(name: string)
    requires NoSeparator(name)
    ensures var h := HeaderLine(name);
            Segments(h[..|h| - 1]) == [name, "", "", "", "", "", "", ""]
  {
    var h := HeaderLine(name);
    var empties: seq<string> := ["", "", "", "", "", "", ""];
    assert JoinFields(empties) == ";;;;;;;";
    assert h[..|h| - 1] == name + JoinFields(empties);
    SegmentsOfJoin(name, empties);
  }

  /** `toCsv` as the loop calls it for each candidate: no country filter. */
  function CandidateRow(reference: string): Nullable<Company> -> RowResult
  {
    entry => CsvRow(entry, reference, Null)
  }

  /** The rows written for a candidate list: `row` of each candidate in turn,
      until a null candidate stops the batch. */
  function Rows(companies: seq<Nullable<Company>>, row: Nullable<Company> -> RowResult): (r: Outcome)
    ensures |r.lines| <= |companies|
    ensures r.ending == Completed || r.ending == Aborted(NullCompany)
    ensures r.ending == Completed <==> forall k :: 0 <= k < |companies| ==> !row(companies[k]).NullDereference?
    decreases |companies|
  {
    if companies == [] then Outcome([], Completed)
    else
      var prev := Rows(companies[..|companies| - 1], row);
      if prev.ending.Aborted? then prev
      else
        var current := row(companies[|companies| - 1]);
        if current.NullDereference? then Outcome(prev.lines, Aborted(NullCompany))
        else Outcome(prev.lines + RowLines(current), Completed)
  }

  /** What the provider's answer makes the loop write for the input name `name`,
      whose normalised form is `normalized`. */
  function ResponseOutcome(name: string, normalized: string, response: Response): (r: Outcome)
    ensures r.lines != [] <==> response.Results?
    ensures response.Results? ==> r.lines[0] == HeaderLine(name) && |r.lines| <= |response.companies| + 1
    ensures r.ending.Aborted? ==> r.ending == if response.Failed? then Aborted(response.cause) else Aborted(NullCompany)
  {
    match response
    case Failed(cause) => Outcome([], Aborted(cause))
    case NoEntity => Outcome([], Completed)
    case Results(companies) =>
      var rows := Rows(companies, CandidateRow(normalized));
      Outcome([HeaderLine(name)] + rows.lines, rows.ending)
  }

  /** Everything one input name contributes to the output. */
  function RecordOutcome(name: string, search: string -> Response): Outcome
  {
    var normalized := NormalizeName(name);
    ResponseOutcome(name, normalized, search(SearchPath(normalized)))
  }

  /** The outcome of every input name, as the batch sees it. */
  function Records(search: string -> Response): string -> Outcome
  {
    name => RecordOutcome(name, search)
  }

  /** The records processed one after another; the first failure ends the batch. */
  function Batch(names: seq<string>, record: string -> Outcome): (r: Outcome)
    ensures r.ending == Completed <==> forall i :: 0 <= i < |names| ==> record(names[i]).ending == Completed
    ensures r.ending.Aborted? ==> exists i :: 0 <= i < |names| && record(names[i]).ending == r.ending
    decreases |names|
  {
    if names == [] then Outcome([], Completed)
    else
      var prev := Batch(names[..|names| - 1], record);
      if prev.ending.Aborted? then prev
      else
        var current := record(names[|names| - 1]);
        Outcome(prev.lines + current.lines, current.ending)
  }

  /** One more record after a batch that has not stopped adds its own lines. */
  lemma BatchStep(names: seq<string>, i: nat, record: string -> Outcome)
    requires i < |names| && Batch(names[..i], record).ending == Completed
    ensures Batch(names[..i + 1], record) ==
      Outcome(Batch(names[..i], record).lines + record(names[i]).lines, record(names[i]).ending)
  {
    assert names[..i + 1][..i] == names[..i];
  }

  /** Once a prefix of the names has stopped the batch, the rest adds nothing. */
  lemma {:induction false} AbortEndsBatch(names: seq<string>, i: nat, record: string -> Outcome)
    requires i <= |names| && Batch(names[..i], record).ending.Aborted?
    ensures Batch(names, record) == Batch(names[..i], record)
    decreases |names| - i
  {
    if i < |names| {
      assert names[..i + 1][..i] == names[..i];
      AbortEndsBatch(names, i + 1, record);
    } else {
      assert names[..i] == names;
    }
  }

  /** One more candidate after rows that have not stopped adds its own line, if any. */
  lemma RowsStep(companies: seq<Nullable<Company>>, j: nat, row: Nullable<Company> -> RowResult)
    requires j < |companies| && Rows(companies[..j], row).ending == Completed
    ensures var current := row(companies[j]);
            Rows(companies[..j + 1], row) ==
              if current.NullDereference? then Outcome(Rows(companies[..j], row).lines, Aborted(NullCompany))
              else Outcome(Rows(companies[..j], row).lines + RowLines(current), Completed)
  {
    assert companies[..j + 1][..j] == companies[..j];
  }

  /** Once a prefix of the candidates has stopped the batch, the rest adds nothing. */
  lemma {:induction false} AbortEndsRows(companies: seq<Nullable<Company>>, j: nat, row: Nullable<Company> -> RowResult)
    requires j <= |companies| && Rows(companies[..j], row).ending.Aborted?
    ensures Rows(companies, row) == Rows(companies[..j], row)
    decreases |companies| - j
  {
    if j < |companies| {
      assert companies[..j + 1][..j] == companies[..j];
      AbortEndsRows(companies, j + 1, row);
    } else {
      assert companies[..j] == companies;
    }
  }

  /**
   * Running the batch over `a + b` writes the output of `a` and then, unless
   * `a` stopped the batch, the output of `b`: records are processed strictly in
   * order and each one's output depends on that record alone.
   */
  lemma {:induction false} BatchAppend(a: seq<string>, b: seq<string>, record: string -> Outcome)
    ensures Batch(a + b, record) ==
      if Batch(a, record).ending.Aborted? then Batch(a, record)
      else Outcome(Batch(a, record).lines + Batch(b, record).lines, Batch(b, record).ending)
    decreases |b|
  {
    if b == [] {
      assert a + b == a;
    } else {
      var b' := b[..|b| - 1];
      assert (a + b)[..|a + b| - 1] == a + b';
      assert (a + b)[|a + b| - 1] == b[|b| - 1];
      BatchAppend(a, b', record);
      if !Batch(a, record).ending.Aborted? && !Batch(b', record).ending.Aborted? {
        var A, B', current := Batch(a, record), Batch(b', record), record(b[|b| - 1]);
        Assoc(A.lines, B'.lines, current.lines);
      }
    }
  }

  /** A record with candidates writes its header line and then their rows. */
  lemma RecordResults(name: string, search: string -> Response)
    requires search(SearchPath(NormalizeName(name))).Results?
    ensures var normalized := NormalizeName(name);
            var rows := Rows(search(SearchPath(normalized)).companies, CandidateRow(normalized));
            Records(search)(name) == Outcome([HeaderLine(name)] + rows.lines, rows.ending)
  {
    var normalized := NormalizeName(name);
    var response := search(SearchPath(normalized));
    var rows := Rows(response.companies, CandidateRow(normalized));
    assert response == Results(response.companies);
    RecordOfResponse(name, search, normalized, response);
    ResultsOutcome(name, normalized, response.companies, rows.lines, rows.ending);
  }

  /** A failed request for the `i`-th name keeps what earlier names wrote and
      ends the batch with the failure; no later name is searched. */
  lemma FailedRequestEndsBatch(names: seq<string>, i: nat, search: string -> Response)
    requires i < |names| && Batch(names[..i], Records(search)).ending == Completed
    requires search(SearchPath(NormalizeName(names[i]))).Failed?
    ensures Batch(names, Records(search)) ==
      Outcome(Batch(names[..i], Records(search)).lines,
              Aborted(search(SearchPath(NormalizeName(names[i]))).cause))
  {
    RecordFailure(names[i], search);
    FailureEndsBatch(names, i, Records(search));
  }

  /** A record whose request fails writes nothing and ends the batch. */
  lemma RecordFailure(name: string, search: string -> Response)
    requires search(SearchPath(NormalizeName(name))).Failed?
    ensures Records(search)(name) == Outcome([], Aborted(search(SearchPath(NormalizeName(name))).cause))
  {
    var normalized := NormalizeName(name);
    var response := search(SearchPath(normalized));
    RecordOfResponse(name, search, normalized, response);
  }

  /** A record that writes nothing and stops keeps the earlier output and ends the batch. */
  lemma FailureEndsBatch(names: seq<string>, i: nat, record: string -> Outcome)
    requires i < |names| && Batch(names[..i], record).ending == Completed
    requires record(names[i]).lines == [] && record(names[i]).ending.Aborted?
    ensures Batch(names, record) == Outcome(Batch(names[..i], record).lines, record(names[i]).ending)
  {
    BatchStep(names, i, record);
    assert Batch(names[..i], record).lines + [] == Batch(names[..i], record).lines;
    AbortEndsBatch(names, i + 1, record);
  }

  /** A name whose response has no entity writes nothing, not even its header
      line, and the batch goes on. */
  lemma NoEntitySkipsName(names: seq<string>, i: nat, search: string -> Response)
    requires i < |names| && Batch(names[..i], Records(search)).ending == Completed
    requires search(SearchPath(NormalizeName(names[i]))).NoEntity?
    ensures Batch(names[..i + 1], Records(search)) == Batch(names[..i], Records(search))
  {
    RecordNoEntity(names[i], search);
    EmptyRecordStep(names, i, Records(search));
  }

  /** A record without a response entity writes nothing. */
  lemma RecordNoEntity(name: string, search: string -> Response)
    requires search(SearchPath(NormalizeName(name))).NoEntity?
    ensures Records(search)(name) == Outcome([], Completed)
  {
    var normalized := NormalizeName(name);
    var response := search(SearchPath(normalized));
    assert response == NoEntity;
    RecordOfResponse(name, search, normalized, response);
  }

  lemma EmptyRecordStep(names: seq<string>, i: nat, record: string -> Outcome)
    requires i < |names| && Batch(names[..i], record).ending == Completed
    requires record(names[i]) == Outcome([], Completed)
    ensures Batch(names[..i + 1], record) == Batch(names[..i], record)
  {
    BatchStep(names, i, record);
    assert Batch(names[..i], record).lines + [] == Batch(names[..i], record).lines;
  }

  /** A null candidate after rows that have not stopped keeps those rows and
      ends the batch; later candidates get no row. */
  lemma NullCandidateEndsRows(companies: seq<Nullable<Company>>, j: nat, reference: string)
    requires j < |companies| && Rows(companies[..j], CandidateRow(reference)).ending == Completed
    requires companies[j].Null? || companies[j].value.name.Null?
    ensures Rows(companies, CandidateRow(reference)) ==
      Outcome(Rows(companies[..j], CandidateRow(reference)).lines, Aborted(NullCompany))
  {
    var row := CandidateRow(reference);
    assert row(companies[j]).NullDereference?;
    RowsStep(companies, j, row);
    AbortEndsRows(companies, j + 1, row);
  }

  /** The row of a candidate with a name. */
  function MatchRow(c: Company, reference: string): string
    requires c.name.NonNull?
  {
    MatchLine(c, Score(c.name.value, reference))
  }

  predicate AllNamed(companies: seq<Nullable<Company>>) {
    forall k :: 0 <= k < |companies| ==> companies[k].NonNull? && companies[k].value.name.NonNull?
  }

  /** The row `toCsv` writes for a candidate that has a name. */
  function NamedRow(reference: string): Nullable<Company> -> string
  {
    (entry: Nullable<Company>) => if entry.NonNull? && entry.value.name.NonNull? then MatchRow(entry.value, reference) else ""
  }

  /** `row` applied to each element, in order. */
  function MapInOrder<T, U>(xs: seq<T>, row: T -> U): seq<U>
    decreases |xs|
  {
    if xs == [] then [] else MapInOrder(xs[..|xs| - 1], row) + [row(xs[|xs| - 1])]
  }

  /** The `k`-th result of `MapInOrder` is `row` of the `k`-th element. */
  lemma {:induction false} MapInOrderAt<T, U>(xs: seq<T>, row: T -> U, k: nat)
    requires k < |xs|
    ensures |MapInOrder(xs, row)| == |xs| && MapInOrder(xs, row)[k] == row(xs[k])
    decreases |xs|
  {
    var front := xs[..|xs| - 1];
    if k < |front| {
      MapInOrderAt(front, row, k);
      assert front[k] == xs[k];
    } else if front != [] {
      MapInOrderAt(front, row, 0);
    }
  }

  /** The rows of candidates that all have names: one per candidate, in order. */
  function MatchRows(companies: seq<Nullable<Company>>, reference: string): seq<string>
    requires AllNamed(companies)
  {
    MapInOrder(companies, NamedRow(reference))
  }

  /** One row per candidate, and the `k`-th row is the row of the `k`-th candidate. */
  lemma MatchRowsAt(companies: seq<Nullable<Company>>, reference: string)
    requires AllNamed(companies)
    ensures |MatchRows(companies, reference)| == |companies|
    ensures forall k :: 0 <= k < |companies| ==>
              MatchRows(companies, reference)[k] == MatchRow(companies[k].value, reference)
  {
    if companies == [] {
    } else {
      MapInOrderAt(companies, NamedRow(reference), 0);
    }
    forall k | 0 <= k < |companies|
      ensures MatchRows(companies, reference)[k] == MatchRow(companies[k].value, reference)
    {
      MapInOrderAt(companies, NamedRow(reference), k);
    }
  }

  lemma FrontNamed(companies: seq<Nullable<Company>>)
    requires companies != [] && AllNamed(companies)
    ensures AllNamed(companies[..|companies| - 1])
  {
    var front := companies[..|companies| - 1];
    forall k | 0 <= k < |front|
      ensures front[k] == companies[k]
    {
    }
  }

  /** When every candidate and its name are present, `toCsv` writes one row
      per candidate, in the provider's order, and the batch goes on. */
  lemma {:induction false} RowsInProviderOrder(companies: seq<Nullable<Company>>, reference: string)
    requires AllNamed(companies)
    ensures Rows(companies, CandidateRow(reference)) == Outcome(MatchRows(companies, reference), Completed)
    decreases |companies|
  {
    if companies != [] {
      var n := |companies| - 1;
      var front := companies[..n];
      FrontNamed(companies);
      RowsInProviderOrder(front, reference);
      NamedStep(companies, reference);
    }
  }

  /** A named candidate after rows that have not stopped adds its match row. */
  lemma NamedStep(companies: seq<Nullable<Company>>, reference: string)
    requires companies != [] && AllNamed(companies)
    requires Rows(companies[..|companies| - 1], CandidateRow(reference)).ending == Completed
    ensures Rows(companies, CandidateRow(reference)) ==
      Outcome(Rows(companies[..|companies| - 1], CandidateRow(reference)).lines
                + [MatchRow(companies[|companies| - 1].value, reference)], Completed)
  {
    var n := |companies| - 1;
    NamedCandidateRow(companies[n].value, reference);
    RowsLast(companies, CandidateRow(reference), MatchRow(companies[n].value, reference));
  }

  /** A last candidate whose row is a line adds that line to rows that have not stopped. */
  lemma RowsLast(companies: seq<Nullable<Company>>, row: Nullable<Company> -> RowResult, line: string)
    requires companies != [] && Rows(companies[..|companies| - 1], row).ending == Completed
    requires row(companies[|companies| - 1]) == Row(line)
    ensures Rows(companies, row) == Outcome(Rows(companies[..|companies| - 1], row).lines + [line], Completed)
  {
  }

  /** `toCsv` of a candidate with a name writes its match row. */
  lemma NamedCandidateRow(c: Company, reference: string)
    requires c.name.NonNull?
    ensures CandidateRow(reference)(NonNull(c)) == Row(MatchRow(c, reference))
  {
    RowScoresName(c, reference, Null);
  }

  /**
   * For a name whose search returns candidates that all have names, the record
   * writes its header line and then one row per candidate in the provider's
   * order, each scored against the name itself, and the batch goes on.
   */
  lemma RecordLines(name: string, search: string -> Response)
    requires search(SearchPath(NormalizeName(name))).Results?
    requires AllNamed(search(SearchPath(NormalizeName(name))).companies)
    ensures var companies := search(SearchPath(NormalizeName(name))).companies;
            Records(search)(name) == Outcome([HeaderLine(name)] + MatchRows(companies, name), Completed)
  {
    var normalized := NormalizeName(name);
    var companies := search(SearchPath(normalized)).companies;
    RecordResults(name, search);
    RowsInProviderOrder(companies, normalized);
    MatchRowsNormalized(companies, name);
  }

  /** A record that stops the batch keeps the earlier output and its own lines,
      and no later name adds anything. */
  lemma AbortingRecordEndsBatch(names: seq<string>, i: nat, record: string -> Outcome)
    requires i < |names| && Batch(names[..i], record).ending == Completed
    requires record(names[i]).ending.Aborted?
    ensures Batch(names, record) ==
      Outcome(Batch(names[..i], record).lines + record(names[i]).lines, record(names[i]).ending)
  {
    BatchStep(names, i, record);
    AbortEndsBatch(names, i + 1, record);
  }

  /** Candidates whose `j`-th is null, or has a null name, give the header line
      and the rows of the candidates before it, and stop. */
  lemma NullCandidateResponse(name: string, normalized: string, companies: seq<Nullable<Company>>, j: nat)
    requires j < |companies| && AllNamed(companies[..j])
    requires companies[j].Null? || companies[j].value.name.Null?
    ensures ResponseOutcome(name, normalized, Results(companies)) ==
      Outcome([HeaderLine(name)] + MatchRows(companies[..j], normalized), Aborted(NullCompany))
  {
    RowsInProviderOrder(companies[..j], normalized);
    NullCandidateEndsRows(companies, j, normalized);
    ResultsOutcome(name, normalized, companies, MatchRows(companies[..j], normalized), Aborted(NullCompany));
  }

  /**
   * A null candidate, or a candidate with a null name, for the `i`-th name ends
   * the whole run: the output keeps everything before it, the name's header
   * line and the rows of the candidates before the null one, and no later
   * candidate or name adds anything.
   */
  lemma NullCandidateEndsBatch(names: seq<string>, i: nat, search: string -> Response, j: nat)
    requires i < |names| && Batch(names[..i], Records(search)).ending == Completed
    requires search(SearchPath(NormalizeName(names[i]))).Results?
    requires var companies := search(SearchPath(NormalizeName(names[i]))).companies;
             j < |companies| && AllNamed(companies[..j]) && (companies[j].Null? || companies[j].value.name.Null?)
    ensures var companies := search(SearchPath(NormalizeName(names[i]))).companies;
            Batch(names, Records(search)) ==
              Outcome(Batch(names[..i], Records(search)).lines + ([HeaderLine(names[i])] + MatchRows(companies[..j], names[i])),
                      Aborted(NullCompany))
  {
    var name := names[i];
    var normalized := NormalizeName(name);
    var companies := search(SearchPath(normalized)).companies;
    NullCandidateResponse(name, normalized, companies, j);
    MatchRowsNormalized(companies[..j], name);
    RecordOfResponse(name, search, normalized, Results(companies));
    AbortingRecordEndsBatch(names, i, Records(search));
  }

  /** Scoring against the normalised name gives the rows scored against the name. */
  lemma {:induction false} MatchRowsNormalized(companies: seq<Nullable<Company>>, name: string)
    requires AllNamed(companies)
    ensures MatchRows(companies, NormalizeName(name)) == MatchRows(companies, name)
    decreases |companies|
  {
    if companies != [] {
      var n := |companies| - 1;
      var front := companies[..n];
      FrontNamed(companies);
      MatchRowsNormalized(front, name);
      ScoreOfNormalizedReference(companies[n].value.name.value, name);
    }
  }

  /**
   * The candidate loop of `start_reconciliation`: `toCsv` for each candidate
   * in turn, with no country filter, until a null candidate or name stops it.
   */
  method WriteRows(writer: Writer, companies: seq<Nullable<Company>>, reference: string) returns (failed: bool)
    modifies writer
    ensures writer.lines == old(writer.lines) + Rows(companies, CandidateRow(reference)).lines
    ensures Rows(companies, CandidateRow(reference)).ending == if failed then Aborted(NullCompany) else Completed
  {
    ghost var start := writer.lines;
    ghost var row := CandidateRow(reference);
    var j := 0;
    while j < |companies|
      invariant 0 <= j <= |companies|
      invariant writer.lines == start + Rows(companies[..j], row).lines
      invariant Rows(companies[..j], row).ending == Completed
    {
      ghost var written := Rows(companies[..j], row).lines;
      ghost var current := row(companies[j]);
      RowsStep(companies, j, row);
      failed := ToCsv(writer, companies[j], reference, Null);
      if failed {
        AbortEndsRows(companies, j + 1, row);
        return;
      }
      Assoc(start, written, RowLines(current));
      j := j + 1;
    }
    assert companies[..j] == companies;
    failed := false;
  }

  /**
   * One pass of the loop of `start_reconciliation`: normalise the name, build
   * the query, ask the provider, then write the header line and the rows of
   * the candidates it returns.
   */
  method ProcessRecord(writer: Writer, original: string, search: string -> Response) returns (ending: Ending)
    modifies writer
    ensures writer.lines == old(writer.lines) + RecordOutcome(original, search).lines
    ensures ending == RecordOutcome(original, search).ending
  {
    var normalized := NormalizeName(original);
    var data := QueryString(normalized);
    ending := Completed;
    if data != [] {
      var response := search(URL_BLOCK_SEARCH_ACTIVE_COMPANIES + data);
      assert response == search(SearchPath(normalized));
      ending := WriteResponse(writer, original, normalized, response);
    }
  }

  /**
   * The part of one loop pass after the request: a failure stops the batch,
   * a missing entity writes nothing, and candidates get the header line and
   * their rows.
   */
  method WriteResponse(writer: Writer, original: string, normalized: string, response: Response)
    returns (ending: Ending)
    modifies writer
    ensures writer.lines == old(writer.lines) + ResponseOutcome(original, normalized, response).lines
    ensures ending == ResponseOutcome(original, normalized, response).ending
  {
    match response
    case Failed(cause) =>
      assert writer.lines == old(writer.lines) + [];
      return Aborted(cause);
    case NoEntity =>
      assert writer.lines == old(writer.lines) + [];
      return Completed;
    case Results(companies) =>
      writer.Write(HeaderLine(original));
      var failed := WriteRows(writer, companies, normalized);
      Assoc(old(writer.lines), [HeaderLine(original)], Rows(companies, CandidateRow(normalized)).lines);
      ending := if failed then Aborted(NullCompany) else Completed;
  }

  /**
   * `start_reconciliation`: the column headers, then each input name in turn.
   * A failed request, an unreadable response or a null candidate ends the run.
   */
  method StartReconciliation(names: seq<string>, search: string -> Response, writer: Writer)
    returns (ending: Ending)
    modifies writer
    ensures writer.lines == old(writer.lines) + [OUTPUT_HEADERS] + Batch(names, Records(search)).lines
    ensures ending == Batch(names, Records(search)).ending
  {
    writer.Write(OUTPUT_HEADERS);
    ghost var start := writer.lines;
    ghost var record := Records(search);
    var i := 0;
    while i < |names|
      invariant 0 <= i <= |names|
      invariant writer.lines == start + Batch(names[..i], record).lines
      invariant Batch(names[..i], record).ending == Completed
    {
      ghost var before := Batch(names[..i], record).lines;
      BatchStep(names, i, record);
      ending := ProcessRecord(writer, names[i], search);
      Assoc(start, before, record(names[i]).lines);
      if ending.Aborted? {
        AbortEndsBatch(names, i + 1, record);
        return;
      }
      i := i + 1;
    }
    assert names[..i] == names;
    ending := Completed;
  }

  /** A single candidate whose `toCsv` writes a line yields that line alone. */
  lemma SingleRowOf(entry: Nullable<Company>, row: Nullable<Company> -> RowResult, line: string)
    requires row(entry) == Row(line)
    ensures Rows([entry], row) == Outcome([line], Completed)
  {
    var companies := [entry];
    assert Rows(companies[..0], row) == Outcome([], Completed) by {
      assert companies[..0] == [];
    }
    RowsStep(companies, 0, row);
    assert companies[..1] == companies;
    assert [] + [line] == [line];
  }

  /** The rows of a single named candidate: its match row. */
  lemma SingleRow(c: Company, reference: string)
    requires c.name.NonNull?
    ensures Rows([NonNull(c)], CandidateRow(reference)) == Outcome([MatchRow(c, reference)], Completed)
  {
    NamedCandidateRow(c, reference);
    SingleRowOf(NonNull(c), CandidateRow(reference), MatchRow(c, reference));
  }

  /** A candidate's row is the same whether scored against the name or its
      normalised form. */
  lemma MatchRowOfNormalized(c: Company, name: string)
    requires c.name.NonNull?
    ensures MatchRow(c, NormalizeName(name)) == MatchRow(c, name)
  {
    ScoreOfNormalizedReference(c.name.value, name);
  }

  /** A record writes what the provider's answer to its normalised name calls for. */
  lemma RecordOfResponse(name: string, search: string -> Response, normalized: string, response: Response)
    requires normalized == NormalizeName(name) && search(SearchPath(normalized)) == response
    ensures Records(search)(name) == ResponseOutcome(name, normalized, response)
  {
  }

  /** A name whose search finds one named candidate writes its header line and
      that candidate's row. */
  lemma OneCandidateRecord(name: string, search: string -> Response, c: Company)
    requires c.name.NonNull?
    requires search(SearchPath(NormalizeName(name))) == Results([NonNull(c)])
    ensures Records(search)(name) == Outcome([HeaderLine(name), MatchRow(c, name)], Completed)
  {
    var normalized, row := NormalizeName(name), MatchRow(c, name);
    assert Rows([NonNull(c)], CandidateRow(normalized)) == Outcome([row], Completed) by {
      SingleRow(c, normalized);
      MatchRowOfNormalized(c, name);
    }
    OneResult(name, normalized, NonNull(c), row);
    RecordOfResponse(name, search, normalized, Results([NonNull(c)]));
  }

  /** A single candidate whose row is a line gives the header line and that line. */
  lemma OneResult(name: string, normalized: string, entry: Nullable<Company>, line: string)
    requires Rows([entry], CandidateRow(normalized)) == Outcome([line], Completed)
    ensures ResponseOutcome(name, normalized, Results([entry])) == Outcome([HeaderLine(name), line], Completed)
  {
    ResultsOutcome(name, normalized, [entry], [line], Completed);
    Pair(HeaderLine(name), line);
  }

  /** Candidates give the header line, then their rows, ending as the rows do. */
  lemma ResultsOutcome(name: string, normalized: string, companies: seq<Nullable<Company>>,
                       lines: seq<string>, ending: Ending)
    requires Rows(companies, CandidateRow(normalized)) == Outcome(lines, ending)
    ensures ResponseOutcome(name, normalized, Results(companies)) == Outcome([HeaderLine(name)] + lines, ending)
  {
  }

  lemma Pair(x: string, y: string)
    ensures [x] + [y] == [x, y]
  {
  }

  /** A name whose search finds no candidate writes its header line alone. */
  lemma NoCandidateRecord(name: string, search: string -> Response)
    requires search(SearchPath(NormalizeName(name))) == Results([])
    ensures Records(search)(name) == Outcome([HeaderLine(name)], Completed)
  {
    var normalized := NormalizeName(name);
    EmptyResults(name, normalized);
    RecordOfResponse(name, search, normalized, Results([]));
  }

  /** An empty candidate list gives the header line alone. */
  lemma EmptyResults(name: string, normalized: string)
    ensures ResponseOutcome(name, normalized, Results([])) == Outcome([HeaderLine(name)], Completed)
  {
    assert Rows([], CandidateRow(normalized)) == Outcome([], Completed);
    assert [HeaderLine(name)] + [] == [HeaderLine(name)];
  }

  /** A record with two lines and then a record with one line, both
      completing, write those three lines in order. */
  lemma TwoCompleted(first: string, second: string, record: string -> Outcome, x: string, y: string, z: string)
    requires record(first) == Outcome([x, y], Completed) && record(second) == Outcome([z], Completed)
    ensures Batch([first, second], record) == Outcome([x, y, z], Completed)
  {
    var names := [first, second];
    assert names[..0] == [];
    BatchStep(names, 0, record);
    BatchStep(names, 1, record);
    assert names[..2] == names;
    assert [] + [x, y] + [z] == [x, y, z];
  }

  /**
   * Two names, the first with one candidate and the second with none: the
   * first name's header line and the candidate's row, then the second name's
   * header line alone.
   */
  lemma TwoRecords(first: string, second: string, search: string -> Response, c: Company)
    requires c.name.NonNull?
    requires search(SearchPath(NormalizeName(first))) == Results([NonNull(c)])
    requires search(SearchPath(NormalizeName(second))) == Results([])
    ensures Batch([first, second], Records(search)) ==
      Outcome([HeaderLine(first), MatchRow(c, first), HeaderLine(second)], Completed)
  {
    OneCandidateRecord(first, search, c);
    NoCandidateRecord(second, search);
    TwoCompleted(first, second, Records(search), HeaderLine(first), MatchRow(c, first), HeaderLine(second));
  }

  /** The batch of two names whose searches find one candidate and none. */
  lemma TwoNameBatch(search: string -> Response, acme: Company)
    requires acme.name == NonNull("Acme Corporation")
    requires search(SearchPath(NormalizeName("Acme Ltd"))) == Results([NonNull(acme)])
    requires search(SearchPath(NormalizeName("Unknown Corp Zzzz"))) == Results([])
    ensures Batch(["Acme Ltd", "Unknown Corp Zzzz"], Records(search)) ==
      Outcome([HeaderLine("Acme Ltd"), MatchRow(acme, "Acme Ltd"), HeaderLine("Unknown Corp Zzzz")], Completed)
    ensures MatchRow(acme, "Acme Ltd") == MatchLine(acme, 10)
  {
    TwoRecords("Acme Ltd", "Unknown Corp Zzzz", search, acme);
    AcmeScore();
  }
}
