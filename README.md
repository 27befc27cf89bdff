# Apollonator, modelled in Dafny

Apollonator is a command-line tool that reads a YAML configuration (API key,
organization, `email`/`title` flags) and a file of names, asks the Apollo
people-match API for each name's email and title, and can save the results as
an "Employee Info" sheet in an xlsx workbook. This project models the logic
around the network call and proves properties of it:

- `ConfigLoader` (config.dfy): validation of the decoded `apollonator` section:
  read and decode errors pass through, then a missing API key, then a missing
  organization, each paired with Go's zero `Config`.
- `NamesFile` (namesfile.dfy): the names file split at every newline.
- `Names` (names.dfy): the per-line loop of `main`. A line is tokenized into
  whitespace fields. It is rejected with fewer than two fields and skipped when
  it is "LinkedIn Member" in any letter case. Otherwise it is looked up, then
  filtered on lookup failure and on a required-but-empty email. The email's
  domain is derived, and a `PersonData` record is appended. `LineStep` and
  `RunLines` specify the loop. The method `CollectPersonData` is the loop
  itself, with its body for one line in `ProcessLine`, proved equal to `RunLines`.
- `Sheets` and `Excel` (sheets.dfy, excel.dfy): the six-cell row per record
  shared by both `SaveToExcel` functions, and pkg/excel.go's verbatim file name.
- `Apollonator` (apollonator.dfy): main.go's `SaveToExcel`, whose file name
  keeps only `[A-Za-z0-9_]` and lower-cases, set side by side with the
  pkg/excel.go name; and `main` from loading to saving, with its exit statuses.
- `GoStrings` (gostrings.dfy): the Go library functions the core relies on
  (`strings.Fields`, `Join`, `Split`, `ToLower`, `unicode.IsSpace`), with
  their round trips.
- `Types` and `Wrappers`: the records (`Config`, `PersonData`, the API response)
  and `Option`/`Result`.

The Apollo API is a function parameter `Requester` from (configuration, first
name, last name) to `Found(email, title)`, `Failed(reason)` or `RateLimited`.
Reading files, YAML decoding and `file.Save` are inputs: what the read and the
decode produced, and whether the save failed.

Behaviour of the code worth noting:

- No header row is written. Each record is one row, and nothing else is.
- On HTTP 429, main.go calls `os.Exit(1)` inside the requester. So nothing
  collected so far is saved.
- There is one API key and no key rotation.
- An email that is non-empty but has no '@' makes `strings.Split(email, "@")[1]`
  panic. The run stops with Go's panic status 2 and nothing is saved.

## Model

| member | source | states |
|---|---|---|
| `ConfigLoader.ParseYAML` | pkg/config.go:18-43 | Read and decode errors are propagated. An empty API key gives "missing API key in the configuration" and is checked before the organization. A non-empty key with an empty organization gives "missing Organization in the configuration". Every error comes with the zero `Config`. Success holds exactly when both fields are non-empty, and it returns the decoded section unchanged. |
| `ConfigLoader.FlagsNotValidated` | pkg/config.go:42 | The `email` and `title` flags never affect the verdict, and they are returned as given. |
| `ConfigLoader.KeyCheckedFirst` | main.go:76-82 | A configuration with both fields empty reports the missing API key. main.go's `ParseYaml` is the same code as pkg/config.go's `ParseYAML`. |
| `NamesFile.GetNamesFromFile` | pkg/file/file.go:9-17 | A read error gives a nil (empty) slice and that error. Otherwise there is no error, and joining the lines with '\n' gives the content back exactly. There is one more line than there are '\n', and no line contains '\n'. |
| `NamesFile.EmptyFile` | pkg/file/file.go:15 | An empty file gives exactly one empty line. |
| `NamesFile.TrailingNewline` | pkg/file/file.go:15 | A final newline adds a final empty line after the other lines. |
| `NamesFile.LinesRoundTrip` | main.go:175 | Lines without '\n' that are written one per line are read back unchanged, including '\r' and spaces. |
| `GoStrings.Split` | pkg/file/file.go:15 | `strings.Split` with a one-rune separator always returns at least one piece. |
| `GoStrings.Join` | main.go:245 | A join starts with the first part, followed by the separator when there is a second part. |
| `GoStrings.JoinSplit` | pkg/file/file.go:15 | Joining the pieces of a split with the separator gives back the original string. |
| `GoStrings.SplitJoin` | pkg/file/file.go:15 | Splitting a join of separator-free pieces gives back the pieces. |
| `GoStrings.SplitCount` | pkg/file/file.go:15 | The number of pieces is the number of separators plus one. |
| `GoStrings.SplitPiecesFree` | pkg/file/file.go:15 | No piece contains the separator. |
| `GoStrings.SplitAround` | pkg/file/file.go:15 | Splitting `a + sep + b` gives the pieces of `a` followed by the pieces of `b`. |
| `GoStrings.SplitFirst` | main.go:264-265 | The first piece runs up to the first separator. A second piece exists exactly when the separator occurs. |
| `GoStrings.IsSpace` | main.go:240 | Among ASCII runes, exactly ' ' and '\t' through '\r' are white space, as `unicode.IsSpace` promises. |
| `GoStrings.Fields` | main.go:240 | Every token is non-empty and contains no white space. |
| `GoStrings.FieldsAround` | main.go:240 | A white-space rune separates: the fields of `a + sp + b` are the fields of `a` followed by those of `b`. |
| `GoStrings.FieldsOfSpaces` | main.go:240 | A string of white space alone has no fields. |
| `GoStrings.FieldsOfField` | main.go:240 | A single field is read as itself. With the two rows above, this fixes `Fields` on every string. |
| `GoStrings.FieldsJoin` | main.go:240-246 | Fields joined with single spaces tokenize back into the same fields. |
| `GoStrings.JoinFieldsSingleSpaced` | main.go:245 | Fields joined with single spaces have no leading, trailing, doubled or non-space white space. The result is non-empty when there is a field. |
| `GoStrings.LowerChar` | main.go:248 | No lowered rune is an ASCII capital. Only ASCII lower-case results differ from the input. A rune lowers to an ASCII lower-case letter exactly when it is an ASCII letter, U+0130 or U+212A. |
| `GoStrings.ToLower` | main.go:248 | The result has the input's length, and each rune is lowered on its own. |
| `Names.ParseName` | main.go:240-246 | No name exactly when the line has fewer than two fields. Otherwise the last name is a single field. The first name is non-empty and single-spaced, and its fields followed by the last name are the line's fields. |
| `Names.TwoWordName` | main.go:240-246 | Two fields separated by one space parse as first and last name. |
| `Names.IsPlaceholder` | main.go:248 | A placeholder's first name has 8 runes and its last name 6, the lengths of "linkedin" and "member". |
| `Names.LowerIffAnyCase` | main.go:248 | An ASCII string lower-cases to a lower-case word exactly when it spells that word in some letter case. |
| `Names.PlaceholderAnyCase` | main.go:248-250 | An ASCII name is the placeholder exactly when it is "linkedin member" in some mix of letter case. |
| `Names.LinkedInMemberIsPlaceholder` | main.go:248-250 | "LinkedIn Member" is the placeholder. |
| `Names.Domain` | main.go:262-266 | An empty email gives an empty domain. A non-empty email panics exactly when it has no '@'. Otherwise the domain is the text after the first '@' up to the next '@' or the end, and it contains no '@'. |
| `Names.DomainOfAddress` | main.go:264-265 | The domain of `local@host` is `host`. |
| `Names.LineStepMeetsLoop` | main.go:240-277 | A lookup happens exactly for a parsed, non-placeholder line, and there is no record or halt without one. A rate limit halts the loop. A failed lookup skips the line. For a found person, a required-but-empty email skips the line, an email without '@' halts with the index panic, and otherwise the record is emitted. An emitted record is `Enriched`: it has the looked-up name, the configured organization, the returned email and title, and that email's domain. |
| `Names.LineStepEmits` | main.go:258-275 | A parsed, non-placeholder line whose lookup succeeds and passes the filters emits exactly its record. |
| `Names.ProcessLine` | main.go:240-277 | The loop body for one line ends with exactly the outcome of `LineStep`. |
| `Names.CollectPersonData` | main.go:237-279 | The loop returns exactly the records of `RunLines` and how it halted. |
| `Names.RunLines` | main.go:239-279 | There are at most as many records as lookups, and at most as many lookups as lines. |
| `Names.RunRecordsEnriched` | main.go:252-275 | Every collected record is `Enriched` for the configuration and the API. |
| `Names.RunConcat` | main.go:239 | Lines are handled in order and independently. The run over `a + b` is the run over `a` followed by the run over `b`, unless `a` halted. |
| `Names.RunSingle` | main.go:239-279 | The run over one line is that line's step. |
| `Names.HaltPersists` | main.go:115-118 | After a halt, the remaining lines change nothing. |
| `Names.SkippedLineInert` | main.go:241-250 | A line with fewer than two fields, or the placeholder, can be removed without changing records or lookups. |
| `Names.ThreeLineScenario` | main.go:239-279 | For a two-word name, a placeholder and a one-word line, there is exactly one lookup and one record, and its domain is the email's host. |
| `Sheets.Sheet.constructor` | main.go:142-143 | A new sheet has the given name and no rows. |
| `Sheets.Sheet.AddRow` | main.go:146 | Appends one empty row. |
| `Sheets.Sheet.AddCell` | main.go:147 | Appends one cell to the last row and leaves earlier rows unchanged. |
| `Sheets.Row` | main.go:146-152 | A row has six cells: FirstName, LastName, Organization, Email, Domain, Title. Reading it back gives the record. |
| `Sheets.Rows` | pkg/excel.go:23-31 | There is one row per record, in order, with no header. Reading each row back gives its record. |
| `Sheets.WriteRows` | pkg/excel.go:23-31 | The loop appends exactly the rows of the records, in order. |
| `Excel.FileName` | pkg/excel.go:33 | The name is "apollonator_" + organization + ".xlsx", with the organization unchanged. |
| `Excel.SaveToExcel` | pkg/excel.go:19-40 | A fresh "Employee Info" sheet whose rows are exactly the record rows (none for no records), saved under `FileName`. The error `file.Save` reports is returned. |
| `Apollonator.KeepWordChars` | main.go:156-157 | Only `[A-Za-z0-9_]` remains, and the result is no longer than the input. |
| `Apollonator.KeepWordCharsCounts` | main.go:156-157 | The filter only deletes: the result's runes are a sub-multiset of the input's, and each word character is kept as often as it occurs. |
| `Apollonator.KeepWordCharsConcat` | main.go:156-157 | Deletion is per character, so it distributes over concatenation. |
| `Apollonator.KeepWordCharsFixed` | main.go:156-157 | A string is unchanged by the filter exactly when it consists of `[A-Za-z0-9_]`. |
| `Apollonator.SafeName` | main.go:156-158 | The middle of the file name contains only `[a-z0-9_]`. |
| `Apollonator.OutputFileName` | main.go:158 | The name starts with "apollonator_", ends with ".xlsx", and holds only `[a-z0-9_]` in between. |
| `Apollonator.SafeNameIdempotent` | main.go:156-158 | Sanitizing a sanitized name again changes nothing. |
| `Apollonator.OReillyAndSons` | main.go:155-158 | "O'Reilly & Sons" becomes "oreillysons". |
| `Apollonator.FileNamesAgree` | main.go:158 | The main.go and pkg/excel.go file names agree exactly when the organization consists of `[a-z0-9_]`. |
| `Apollonator.SaveToExcel` | main.go:141-166 | A fresh "Employee Info" sheet with exactly the record rows, saved as "apollonator_" + lower-cased, filtered organization + ".xlsx". The error `file.Save` reports is returned. |
| `Apollonator.RunApollonator` | main.go:223-287 | Exit status 0 exactly when both files load, the loop does not halt, and a requested save succeeds. Status 2 exactly for a domain panic. A workbook goes to `file.Save` exactly when `-e` is set, both files load and the loop completes. It holds every collected record's row under the sanitized name. |

## Left out

- HTTP and JSON (`ApolloRequester`, main.go:88-138) are the `Requester` parameter. Their only effects modelled are "found", "failed" and the 429 exit. The sleep after each success is timing and is not modelled.
- Requester: it is a function, so asking twice for the same name under the same configuration gives the same answer. The real API may answer differently over time.
- pkg/requester.go is not part of this model. Its 429 handling returns an error instead of exiting, and main.go does not use it.
- apollonator.py is not part of this model. It is an older variant built on workbook and HTTP libraries.
- File reading, `yaml.Unmarshal`, xlsx file creation and `file.Save` are foreign. Their outcomes are inputs, and the saved workbook is the sheet name and rows handed to `file.Save`.
- The regular expression engine is not modelled. `ReplaceAllString` with `[^a-zA-Z0-9_]+` and "" is modelled as a character filter.
- Argument parsing, the banner, zerolog logging (including the warning for a short line) and the completion-time estimate (main.go:179-235) are not modelled.
- GoStrings.ToLower (LowerChar): it models `unicode.ToLower` only for the ASCII capitals, U+0130 and U+212A. These are the only runes Go lowers into ASCII. Other runes are left unchanged, which cannot change the placeholder test or the sanitized file name.
- Go strings are UTF-8 bytes, and the model works on decoded runes. Invalid UTF-8 is not modelled.
- Go distinguishes a nil slice from an empty slice. The model represents both as the empty sequence.
- Sheets.Sheet: xlsx `Row` objects are not modelled separately. `AddCell` appends to the last row, which is the only row the code ever adds cells to.
- Multi-key credential rotation does not occur in the modelled code.
