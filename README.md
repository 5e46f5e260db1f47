# OpenCorporates name reconciliation, modelled in Dafny

The OpenCorporates Java client reads a `;`-separated list of company names,
asks the OpenCorporates registry's company search for each one, and writes a
`;`-separated output file: one header line per searched name, then one match
row per company the registry returned, each row carrying a Levenshtein score
between the company's normalised name and the searched normalised name.

This project models the name-matching core of `OCClient`:

- `normalizer.dfy` (module `Normalizer`): `normalizeName`, the fixed chain of
  `replaceAll` / `trim` / `toLowerCase` rewrites, including the exact meaning
  of the greedy `\(.*\)` pattern (Java's `.` does not cross line terminators,
  so the scan is modelled line by line). Proved: the output contains none of
  `, / . ' - ( )`, no upper-case ASCII letter and nothing `trim` would remove;
  normalising is idempotent; on one line the bracket rewrite cuts from the
  first `(` to the last `)`; the documented examples.
- `levenshtein.dfy` (module `Levenshtein`): the textbook recurrence `Lev` as the
  specification and `computeLevenshteinDistance`, the rolling single-row
  dynamic programme over the `costs` array, proved to return
  `Lev(lower(source), lower(target))`. Also proved: zero exactly for equal
  strings, symmetry, an empty source scores the target's length, and
  lower-casing an argument first changes nothing.
- `query.dfy` (module `Query`): the query string `data`: every `\s+` run
  becomes `+` and `URL_PREFIX` is appended. Proved: it is never empty (so the
  `data != ""` branch is always taken), holds no whitespace, and is the
  normalised name's words joined by `+`.
- `csv_output.dfy` (module `CsvOutput`): the candidate record (the fields
  `toCsv` reads), the output file as a `Writer` whose written strings form a
  sequence, and `toCsv`. Proved: when no field holds a `;`, the row is a
  leading `;` and nine fields in source order, read back by splitting at `;`,
  with the score in decimal. The fields are written unescaped, so a `;`
  inside a field shifts every later column.
- `reconciliation.dfy` (module `Reconciliation`): the loop of
  `start_reconciliation`, with the search provider as a function from request
  path to response and the output file as the `Writer`. The loop method is
  proved to write exactly what the batch specification `Batch` describes.
  Lemmas about `Batch` give the per-name header line, then one row per
  candidate in provider order. They also show that a failed request, or a
  null candidate, ends the whole run: the output stops after the rows
  written so far and no later name is searched.
- `java_lang.dfy` (module `JavaLang`) holds the `java.lang` behaviour these
  rely on: null references, the String operations, `Integer.toString`.
- `constants.dfy` (module `Constants`) holds the constants of
  `OCClientConstants`.

The model follows the code as written; in particular:

- A failed request (an `IOException` from `execute`) is caught outside the
  loop, so it ends the whole batch instead of degrading one record to "no
  match".
- A response without an entity writes nothing for that name, not even its
  header line.
- A name whose normalised form is empty is still searched; the query is never
  empty.
- `data != ""` compares references, not contents. `data` is a freshly built
  concatenation that ends with `URL_PREFIX`, so it is never the empty literal
  and the test always passes; the model states this through the contents
  (the query is never empty), which gives the same branch.
- Match rows are written without escaping, so a `;` inside a candidate's field
  adds a column; the read-back lemmas therefore assume fields without `;`.
- `LIMITED` and `LTD` are removed case-sensitively, so `Acme Ltd` normalises to
  `acme ltd`. Each removal is one left-to-right pass over the whole name, and
  the `LTD` pass runs on what the `LIMITED` pass left, so the two can meet:
  `ABLLIMITEDTD` becomes `AB`.
- A null candidate or a null candidate name raises a `NullPointerException`,
  which no handler catches, so it ends the run too.

## Model

| member | source | states |
|---|---|---|
| `Normalizer.NormalizeName` | src/com/opencorporates/client/OCClient.java:69-96 | the result has none of `, / . ' - ( )`, no upper-case ASCII letter, and no character at or below U+0020 at either end |
| `Normalizer.RewriteClears` | src/com/opencorporates/client/OCClient.java:72-90 | after the punctuation, bracket and suffix rewrites and `trim`, no punctuation mark or bracket is left |
| `Normalizer.NormalizeIdempotent` | src/com/opencorporates/client/OCClient.java:69-96 | normalising a normalised name gives it back unchanged |
| `Normalizer.NormalizedIsFixed` | src/com/opencorporates/client/OCClient.java:69-96 | any string of normalised shape is a fixed point of `normalizeName` |
| `Normalizer.RewriteFixed` | src/com/opencorporates/client/OCClient.java:72-90 | no rewrite before lower-casing finds anything to change in a normalised name |
| `Normalizer.BlankPunctuationAt` | src/com/opencorporates/client/OCClient.java:72-76 | the first five rewrites replace each of `, / . ' -` by a space and keep every other character in place |
| `Normalizer.BlankPunctuation` | src/com/opencorporates/client/OCClient.java:72-76 | the five punctuation rewrites keep the length and leave every character other than `, / . ' -` in place |
| `Normalizer.StripBrackets` | src/com/opencorporates/client/OCClient.java:79-83 | after the three bracket rewrites no `(` or `)` is left; the result is what the `\(.*\)` rewrite left with characters deleted in order, and every character other than a bracket is still there, as often as before |
| `Normalizer.StripBracketsKeeps` | src/com/opencorporates/client/OCClient.java:79-83 | the bracket rewrites only delete characters: the result is the input with some characters removed, the rest in their original order |
| `Normalizer.StripParenGroups` | src/com/opencorporates/client/OCClient.java:79 | the greedy `\(.*\)` rewrite never lengthens the name |
| `Normalizer.StripParenGroupsOnOneLine` | src/com/opencorporates/client/OCClient.java:79 | on input without line terminators, `\(.*\)` removes everything from the first `(` to the last `)` after it, and nothing when no such pair exists |
| `Normalizer.StripParenGroupsDeletes` | src/com/opencorporates/client/OCClient.java:79 | the `\(.*\)` rewrite only deletes characters, keeping the rest in order |
| `Normalizer.NoCloseUnchanged` | src/com/opencorporates/client/OCClient.java:79 | without any `)` the greedy pattern matches nothing, so an unmatched `(` survives it (and is removed by the next rewrite) |
| `Normalizer.NoteRemoved` | src/com/opencorporates/client/OCClient.java:78-79 | a parenthesised note on one line is removed with its brackets whatever it contains |
| `Normalizer.DropCompanySuffixesKeeps` | src/com/opencorporates/client/OCClient.java:86-87 | the `LIMITED` and `LTD` deletions only delete characters: the result is the input with some characters removed, the rest in their original order |
| `Normalizer.DropCompanySuffixes` | src/com/opencorporates/client/OCClient.java:86-87 | the `LIMITED` and `LTD` deletions never lengthen the name, and change nothing when it holds no `L`; which words are deleted is stated by `DropLimitedAfter` and `DropLtdAfter` |
| `Normalizer.DropLimitedAfter` | src/com/opencorporates/client/OCClient.java:86-87 | a `LIMITED` is deleted when neither pass finds an occurrence starting before it; what precedes it is kept and the rest is rewritten on its own |
| `Normalizer.DropLtdAfter` | src/com/opencorporates/client/OCClient.java:86-87 | an `LTD` is left alone by the `LIMITED` pass and then deleted when neither pass finds an occurrence starting before it; what precedes it is kept and the rest is rewritten on its own |
| `Normalizer.DropSuffixWord` | src/com/opencorporates/client/OCClient.java:86-87 | between two parts without `L`, `LIMITED` or `LTD` is deleted and the parts are kept unchanged |
| `Normalizer.SuffixesExampleLogistics` | src/com/opencorporates/client/OCClient.java:86-87 | an `L` earlier in the name does not stop the deletion: `GLOBAL LOGISTICS LTD` becomes `GLOBAL LOGISTICS ` |
| `Normalizer.SuffixesExampleMeet` | src/com/opencorporates/client/OCClient.java:86-87 | the two passes meet: `ABLLIMITEDTD` becomes `ABLTD` after the `LIMITED` pass and `AB` after the `LTD` pass |
| `Normalizer.NormalizeExampleNote` | src/com/opencorporates/client/OCClient.java:69-96 | `ACME, LTD. (NO LONGER VALID)` normalises to `acme` |
| `Normalizer.NormalizeExampleSuffix` | src/com/opencorporates/client/OCClient.java:69-96 | `Smith-Jones LIMITED` normalises to `smith jones` |
| `Normalizer.NormalizeExampleMixedCase` | src/com/opencorporates/client/OCClient.java:86-93 | the suffix deletion runs before lower-casing and is case-sensitive: `Acme Ltd` normalises to `acme ltd` |
| `Normalizer.NormalizeExampleNoSuffix` | src/com/opencorporates/client/OCClient.java:69-96 | `Acme Corporation`, with no punctuation, bracket or suffix, is only lower-cased, to `acme corporation` |
| `JavaLang.Trim` | src/com/opencorporates/client/OCClient.java:90 | `trim` returns a slice of its input with nothing at or below U+0020 at either end of the slice, and every character it drops, before or after the slice, is at or below U+0020; a trimmed string is left alone |
| `JavaLang.ToLowerCase` | src/com/opencorporates/client/OCClient.java:93 | lower-casing keeps the length, leaves no upper-case ASCII letter, raises each upper-case ASCII letter by 32 (to its lower-case form), keeps every other character, and keeps `trim`'s blanks where they were |
| `JavaLang.CaseRoundTrip` | src/com/opencorporates/client/OCClient.java:93 | upper-casing the lower-cased string gives the upper-cased string: lower-casing loses only the case of letters |
| `JavaLang.ReplaceChar` | src/com/opencorporates/client/OCClient.java:72-76 | replacing one character keeps the length, leaves none of the replaced character (when it differs from its replacement), and changes nothing when it is absent |
| `JavaLang.DeleteChar` | src/com/opencorporates/client/OCClient.java:82-83 | deleting a character leaves none of it and keeps every other character in its order and with its count; nothing changes when it is absent |
| `JavaLang.DeleteCharConcat` | src/com/opencorporates/client/OCClient.java:82-83 | deleting a character from a concatenation deletes it from each part separately |
| `JavaLang.RemoveLiteral` | src/com/opencorporates/client/OCClient.java:86-87 | deleting a word never lengthens the string, and changes nothing when the word's first character is absent; which occurrences are deleted is stated by `RemoveLiteralPrefixNoStart` and `RemoveLiteralWord` |
| `JavaLang.RemoveLiteralPrefixNoStart` | src/com/opencorporates/client/OCClient.java:86-87 | the left-to-right scan copies any prefix in which no occurrence of the word starts, and treats the rest on its own |
| `JavaLang.RemoveLiteralDeletes` | src/com/opencorporates/client/OCClient.java:86-87 | deleting a word only deletes characters, keeping the rest in order |
| `JavaLang.RemoveLiteralWord` | src/com/opencorporates/client/OCClient.java:86-87 | the first occurrence the scan meets is deleted: what precedes it is kept, and the scan goes on after it |
| `JavaLang.RemoveLiteralPassWord` | src/com/opencorporates/client/OCClient.java:86-87 | a word that cannot overlap an occurrence of the deleted word passes through unchanged, after any prefix in which no occurrence starts |
| `JavaLang.DecimalString` | src/com/opencorporates/client/OCClient.java:285-287 | the decimal text of a number is non-empty, all digits, and has no leading zero |
| `JavaLang.RemoveLiteralAfter` | src/com/opencorporates/client/OCClient.java:86-87 | deleting a word leaves a prefix that cannot start the word untouched |
| `JavaLang.DecimalRoundTrip` | src/com/opencorporates/client/OCClient.java:285-287 | the score's decimal text reads back as the score |
| `Levenshtein.Lev` | src/com/opencorporates/client/OCClient.java:98-109 | the edit distance lies between the difference of the lengths and the larger length |
| `Levenshtein.Step` | src/com/opencorporates/client/OCClient.java:122-128 | the row update the loop performs (equal characters take the diagonal, otherwise one plus the least neighbour) is the edit-distance recurrence |
| `Levenshtein.DropLastSource` | src/com/opencorporates/client/OCClient.java:124-126 | dropping a source character lowers the distance by at most one |
| `Levenshtein.DropLastTarget` | src/com/opencorporates/client/OCClient.java:124-126 | dropping a target character lowers the distance by at most one |
| `Levenshtein.UpdateRow` | src/com/opencorporates/client/OCClient.java:116-131 | one pass of the inner loop turns the costs of the first `i - 1` source characters into those of the first `i`, the last entry returned in `lastValue`; the first pass fills in the distances from the empty prefix |
| `Levenshtein.ComputeLevenshteinDistance` | src/com/opencorporates/client/OCClient.java:111-136 | returns the edit distance of the two lower-cased strings; before outer pass `i`, `costs[k]` is the distance of the first `i - 1` source and the first `k` target characters |
| `Levenshtein.Distance` | src/com/opencorporates/client/OCClient.java:111-136 | the score lies between the difference of the two lengths and the longer length |
| `Levenshtein.KittenSittingDistance` | src/com/opencorporates/client/OCClient.java:111-136 | `kitten` and `sitting` are three edits apart |
| `Levenshtein.AcmeDistance` | src/com/opencorporates/client/OCClient.java:111-136 | `acme corporation` and `acme ltd` are ten edits apart |
| `Levenshtein.ZeroIff` | src/com/opencorporates/client/OCClient.java:109 | the distance is 0 exactly when the strings are equal |
| `Levenshtein.Self` | src/com/opencorporates/client/OCClient.java:109 | a string is at distance 0 from itself |
| `Levenshtein.Symmetric` | src/com/opencorporates/client/OCClient.java:111-136 | the distance does not depend on the order of the arguments |
| `Levenshtein.DistanceFromEmpty` | src/com/opencorporates/client/OCClient.java:115-120 | an empty source scores the target's length |
| `Levenshtein.DistanceIgnoresCase` | src/com/opencorporates/client/OCClient.java:112-113 | lower-casing either argument first never changes the score |
| `Levenshtein.DistanceZeroIff` | src/com/opencorporates/client/OCClient.java:109 | a score of 0 ("a perfect match") means the names agree after lower-casing, and conversely |
| `Levenshtein.DistanceSymmetric` | src/com/opencorporates/client/OCClient.java:111-136 | swapping the two names does not change the score |
| `Query.CollapseHasNoSpace` | src/com/opencorporates/client/OCClient.java:177 | no `\s` character survives `replaceAll("\\s+", "+")` |
| `Query.CollapseKeeps` | src/com/opencorporates/client/OCClient.java:177 | the collapse adds no character other than `+` |
| `Query.CollapseNoSpace` | src/com/opencorporates/client/OCClient.java:177 | a string without whitespace is left unchanged |
| `Query.CollapseSpaces` | src/com/opencorporates/client/OCClient.java:177 | the whitespace collapse never lengthens its input and leaves a non-empty input non-empty |
| `Query.WordsAreWords` | src/com/opencorporates/client/OCClient.java:177 | the whitespace-separated words are non-empty and hold no whitespace |
| `Query.CollapseIsJoin` | src/com/opencorporates/client/OCClient.java:177 | for a string with no whitespace at either end, each maximal whitespace run becomes exactly one `+` between consecutive words |
| `Query.QueryString` | src/com/opencorporates/client/OCClient.java:177-180 | `data` ends with `URL_PREFIX`, is never empty (so the `data != ""` branch is always taken) and holds no whitespace |
| `Query.QueryOfName` | src/com/opencorporates/client/OCClient.java:176-178 | the query of any name is its normalised words joined with `+`, followed by `URL_PREFIX` |
| `Query.SearchPath` | src/com/opencorporates/client/OCClient.java:181-184 | the request path starts with the active-company search path and has a non-empty query after it |
| `CsvOutput.MatchLine` | src/com/opencorporates/client/OCClient.java:274-292 | a match row starts with `;` and ends with a newline |
| `CsvOutput.MatchLineFields` | src/com/opencorporates/client/OCClient.java:274-290 | when none of the nine fields holds a `;`, splitting a match row at `;` gives an empty lead piece, then number, jurisdiction, branch status, type, name, score, created_at, registry_url, opencorporates_url, with the score's decimal text reading back as the score |
| `CsvOutput.LineReadsBack` | src/com/opencorporates/client/OCClient.java:274-290 | for a candidate whose fields hold no `;`, the match row splits at `;` into an empty lead piece, then the candidate's fields with the score's decimal text between name and created_at (a missing field reads `null`), and that piece reads back as the score |
| `CsvOutput.RowReadsBack` | src/com/opencorporates/client/OCClient.java:262-294 | with no `;` in its fields, a kept named candidate's row splits into its fields with its own name and then the score of that name against the reference name |
| `CsvOutput.Score` | src/com/opencorporates/client/OCClient.java:285-287 | the score of two names is at most the length of the longer normalised name |
| `CsvOutput.MatchFields` | src/com/opencorporates/client/OCClient.java:274-290 | a match row carries exactly nine fields |
| `CsvOutput.JoinFields` | src/com/opencorporates/client/OCClient.java:274-290 | the joined text starts with `;` when there is any field, and has at least one character per field |
| `CsvOutput.SegmentsOfJoin` | src/com/opencorporates/client/OCClient.java:274-290 | `;`-joined fields without a `;` split back into the same fields |
| `CsvOutput.CsvRow` | src/com/opencorporates/client/OCClient.java:262-294 | `toCsv` writes a row exactly when the candidate is present, passes the country filter (any filter, or none) and has a name; a filtered-out candidate is present and fails the filter |
| `CsvOutput.ScoreOfNormalizedReference` | src/com/opencorporates/client/OCClient.java:285-287 | scoring against the already-normalised searched name, as the loop does, equals scoring against the raw name |
| `CsvOutput.ScoreZeroIff` | src/com/opencorporates/client/OCClient.java:285-287 | a score of 0 means the two names normalise to the same string, and conversely |
| `CsvOutput.AcmeScore` | src/com/opencorporates/client/OCClient.java:285-287 | the candidate name `Acme Corporation` scores 10 against the searched name `Acme Ltd` |
| `CsvOutput.Writer.constructor` | src/com/opencorporates/client/OCClient.java:152-153 | a fresh output file holds nothing |
| `CsvOutput.Writer.Write` | src/com/opencorporates/client/OCClient.java:292 | `write` appends its string and changes nothing else |
| `CsvOutput.ToCsv` | src/com/opencorporates/client/OCClient.java:262-294 | appends exactly the line of `CsvRow` (none when filtered out) and reports the null dereference `CsvRow` predicts |
| `Reconciliation.HeaderLine` | src/com/opencorporates/client/OCClient.java:197-198 | the header line is the name followed by seven `;` and a newline |
| `Reconciliation.HeaderColumns` | src/com/opencorporates/client/OCClient.java:197-198 | for a name without `;`, the header line splits into the name and seven empty columns |
| `Reconciliation.Rows` | src/com/opencorporates/client/OCClient.java:199-204 | the candidates give at most one row each; the rows complete exactly when no candidate dereferences a null, and otherwise stop with `NullCompany` |
| `Reconciliation.ResponseOutcome` | src/com/opencorporates/client/OCClient.java:187-206 | a name writes lines exactly when the provider answers with candidates, then the header line comes first and at most one row per candidate follows; a failed request stops with its failure, and any other stop is a null candidate |
| `Reconciliation.Batch` | src/com/opencorporates/client/OCClient.java:171-227 | the batch completes exactly when every name completes; when it stops, it stops with the ending of one of the names |
| `Reconciliation.AbortingRecordEndsBatch` | src/com/opencorporates/client/OCClient.java:171-227 | a name that stops the batch keeps the earlier output and its own lines, and no later name adds anything |
| `Reconciliation.NullCandidateResponse` | src/com/opencorporates/client/OCClient.java:196-204 | a null candidate (or a null name) after named candidates gives the header line and the earlier candidates' rows, then stops with `NullCompany` |
| `Reconciliation.NullCandidateEndsBatch` | src/com/opencorporates/client/OCClient.java:171-227 | a null candidate for the `i`-th name keeps the earlier names' output, that name's header line and the rows before the null candidate, and ends the batch; no later name is searched |
| `Reconciliation.AbortEndsBatch` | src/com/opencorporates/client/OCClient.java:216-227 | once the batch has stopped, later names add nothing |
| `Reconciliation.BatchAppend` | src/com/opencorporates/client/OCClient.java:171-211 | the batch over `a + b` writes the lines of `a`, then, unless `a` stopped it, those of `b` |
| `Reconciliation.AbortEndsRows` | src/com/opencorporates/client/OCClient.java:201-204 | once a null candidate has stopped the rows, later candidates add nothing |
| `Reconciliation.FailedRequestEndsBatch` | src/com/opencorporates/client/OCClient.java:216-227 | a failed request keeps what earlier names wrote and ends the batch; no later name is searched |
| `Reconciliation.FailureEndsBatch` | src/com/opencorporates/client/OCClient.java:171-227 | any name that writes nothing and stops ends the batch with the earlier output |
| `Reconciliation.NoEntitySkipsName` | src/com/opencorporates/client/OCClient.java:190-206 | a name with no response entity adds no line, not even its header, and the batch goes on |
| `Reconciliation.NullCandidateEndsRows` | src/com/opencorporates/client/OCClient.java:201-203 | a null candidate or a null candidate name keeps the earlier rows and ends the batch |
| `Reconciliation.MapInOrderAt` | src/com/opencorporates/client/OCClient.java:201-204 | mapping keeps one result per element, each in its element's position |
| `Reconciliation.MatchRowsAt` | src/com/opencorporates/client/OCClient.java:201-204 | there is one match row per candidate, and the `k`-th row is the `k`-th candidate's row |
| `Reconciliation.RowsInProviderOrder` | src/com/opencorporates/client/OCClient.java:199-205 | when every candidate has a name, the rows are one per candidate in the provider's order and the batch goes on; no candidate is dropped |
| `Reconciliation.RecordLines` | src/com/opencorporates/client/OCClient.java:176-205 | a name whose candidates all have names writes `name + ";;;;;;;\n"` once, then one row per candidate in provider order, scored against the name |
| `Reconciliation.MatchRowsNormalized` | src/com/opencorporates/client/OCClient.java:203 | rows scored against the normalised name equal rows scored against the raw name |
| `Reconciliation.WriteRows` | src/com/opencorporates/client/OCClient.java:199-205 | the candidate loop appends exactly the rows `Rows` describes and reports whether a null candidate stopped it |
| `Reconciliation.ProcessRecord` | src/com/opencorporates/client/OCClient.java:174-210 | one pass of the loop searches for the normalised name and appends exactly the lines `RecordOutcome` gives for it, ending as it says |
| `Reconciliation.WriteResponse` | src/com/opencorporates/client/OCClient.java:188-206 | after the request: a failure appends nothing and stops, a missing entity appends nothing and goes on, candidates append the header line and then their rows, stopping at a null candidate |
| `Reconciliation.StartReconciliation` | src/com/opencorporates/client/OCClient.java:157-214 | the output is the column headers, then the lines `Batch` gives for the names, and the run ends as `Batch` says |
| `Reconciliation.SingleRow` | src/com/opencorporates/client/OCClient.java:201-204 | a single named candidate yields exactly its match row |
| `Reconciliation.MatchRowOfNormalized` | src/com/opencorporates/client/OCClient.java:203 | a candidate's row is the same scored against the name or its normalised form |
| `Reconciliation.OneCandidateRecord` | src/com/opencorporates/client/OCClient.java:196-204 | a name with one named candidate writes its header line and that candidate's row |
| `Reconciliation.NoCandidateRecord` | src/com/opencorporates/client/OCClient.java:196-199 | a name with an empty candidate list still writes its header line |
| `Reconciliation.TwoCompleted` | src/com/opencorporates/client/OCClient.java:171-211 | a name writing two lines and then a name writing one, both completing, give those three lines in input order |
| `Reconciliation.TwoRecords` | src/com/opencorporates/client/OCClient.java:171-211 | two names, one candidate for the first and none for the second, give exactly three lines: header, match row, header |
| `Reconciliation.TwoNameBatch` | src/com/opencorporates/client/OCClient.java:171-211 | for `Acme Ltd` (one candidate, `Acme Corporation`) and `Unknown Corp Zzzz` (no candidate) the batch writes those three lines and completes, and the match row carries the score 10 |

## Left out

- HTTP transport, the `HttpHost`, `RequestConfig` and proxy set-up, and the call to `execute`: the search provider is a function parameter from request path to `Response`.
- Gson deserialisation of the response body: the provider returns the candidate list directly; a body that does not parse is the `MalformedResponse` failure.
- Configuration loading (`loadClientProperties`), `main` and the logger: properties-file and console I/O.
- The `Scanner` over the input file: the input is the sequence of tokens it yields.
- The `PrintWriter`: the model records each string passed to `write`. Buffering is not modelled. The source does not close the writer when an exception ends the run, so lines still buffered then may never reach the file.
- `System.out.println` of each match row.
- `Company.java` as a class: only the eight fields a match row reads are kept, in `CsvOutput.Company`.
- CsvOutput.ToCsv: the source compares the country filter with `==`, which tests reference identity of two Java strings; the model compares their values. The only caller passes a null filter, and for it both agree.
- JavaLang.ToLowerCase: lower-cases ASCII letters only; Java's `toLowerCase` also maps other letters, depending on the locale.
- Characters are modelled one per Unicode scalar value, while Java's `charAt` and `length` count UTF-16 code units, so a name outside the Basic Multilingual Plane is scored differently.
- Levenshtein.ComputeLevenshteinDistance: the result is an unbounded `int`; Java `int` overflow cannot occur for strings that fit in memory and is not modelled.
- Levenshtein.Lev: the triangle inequality is not proved. It would need an edit-script semantics beside the recurrence.
- An unchecked exception from building the request is not distinguished. A normalised name holding a character a URI forbids (such as `"`, `|`, `<`, `\`, `{`, or a `%` not followed by two hex digits) makes `new HttpGet(...)` throw `IllegalArgumentException`, which no handler catches and which ends the run. The model can only show this as a provider `Failed` answer, labelled `IoError` or `MalformedResponse`. The lines kept and the end of the batch are the same.
- The exception handlers only log. The model records an ending `Aborted(cause)`, with no log message or stack trace.
- Closing the input, the response and the HTTP client.
