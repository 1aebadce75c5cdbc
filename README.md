# ICP batch lookup — a verified model

`run_icp_batch.py` looks up the ICP filing (the Chinese website registration)
of every domain listed in a spreadsheet, in these steps:

1. It reads the domains from the link column of the active sheet, normalising each link with a domain pattern and dropping repetitions.
2. It loads a CSV cache of earlier API answers.
3. It queries the API only for domains whose cached answer is missing or not a success.
4. It rewrites the cache in workbook order.
5. It writes a report of the successful answers.
6. It appends two columns, ICP subject and ICP number, to the workbook.

This project models that pipeline in Dafny and proves what each step promises.
It also proves what the steps promise together.

| file | module | models |
|---|---|---|
| `wrappers.dfy` | `Wrappers` | `Option` |
| `seqs.dfy` | `Seqs` | filtering, first-occurrence de-duplication, subsequences |
| `text.dfy` | `Text` | `str.strip()`, ASCII `str.lower()`, `str(int)`, the `02d` format and decimal reading |
| `domain_pattern.dfy` | `DomainPattern` | `DOMAIN_PATTERN.search` as the backtracking regex engine answers it |
| `json_value.dfy` | `JsonValue` | decoded JSON values, Python truthiness, `parse_success` |
| `links.dfy` | `Links` | cell values, the link-column lookup, link normalisation |
| `extract.dfy` | `Extract` | `extract_domains` |
| `cache_store.dfy` | `CacheStore` | the cache as an insertion-ordered dict, `load_cache`, `rewrite_cache` |
| `lookup.dfy` | `Lookup` | the miss selection and the merge of API answers in `main` |
| `report.dfy` | `Report` | the success map of `main` and `write_success` |
| `workbook.dfy` | `Workbook` | the worksheet as a class, `update_workbook` |
| `clock.dfy` | `Clock` | `format_seconds` |
| `batch.dfy` | `Batch` | `main` from extraction to the closing counts |

Some code changes data step by step. That code is modelled imperatively:
- Loops are methods with loop invariants, each proved equal to a specification function: `ExtractDomains`, `SelectMisses`, `Merge`, `RewriteCache`, `BuildSuccessMap`, `WriteSuccess` and `UpdateWorkbook`.
- The worksheet is a `Workbook.Worksheet` object whose grid its `SetCell` method updates.

The rest is modelled with functions and lemmas.

Outside effects are parameters of the model:
- The HTTP API is an oracle `api: string -> ApiOutcome`: a response, or an exception with its type name and message.
- `json.loads` is a parameter `decode: string -> Option<Json>`, where `None` means a decoding error.
- A file is its content: the rows `csv.DictReader` yields, or `None` when the cache file does not exist.

A Python exception that ends the run is a `None` result, or `false` for `ok` and `saved`.

## Model

| member | source | states |
|---|---|---|
| `Text.StripTrims` | skills/icp-batch-skill/scripts/run_icp_batch.py:55 | `strip()` leaves the text between a whitespace-only prefix and a whitespace-only suffix, and the result neither starts nor ends with whitespace |
| `Text.LowerSpec` | skills/icp-batch-skill/scripts/run_icp_batch.py:57 | lower-casing keeps the length, leaves no capital letter, turns each of `A`..`Z` into its small letter 32 code points up, and keeps every other character |
| `Text.DecimalInjective` | skills/icp-batch-skill/scripts/run_icp_batch.py:89 | `str(m) == str(n)` exactly when `m == n`, so the status text is `"200"` only for status 200 |
| `Text.DecimalRoundTrip` | skills/icp-batch-skill/scripts/run_icp_batch.py:89 | reading back the printed status gives the status |
| `Text.Pad2RoundTrip` | skills/icp-batch-skill/scripts/run_icp_batch.py:301-302 | a `02d` field reads back as the number printed |
| `DomainPattern.SearchSpec` | skills/icp-batch-skill/scripts/run_icp_batch.py:26 | `None` exactly when the pattern matches nowhere; otherwise no match starts earlier, and the span is the split that backtracking tries first at that start |
| `DomainPattern.MatchFromSpec` | skills/icp-batch-skill/scripts/run_icp_batch.py:26 | at a given start, `None` exactly when no split of the text there matches; otherwise the span ends where backtracking first succeeds |
| `DomainPattern.LongestAtStart` | skills/icp-batch-skill/scripts/run_icp_batch.py:26 | the reported span is the longest match at its start |
| `DomainPattern.LastDotSpec` | skills/icp-batch-skill/scripts/run_icp_batch.py:26 | finds the last dot, inside the run of host characters, that two letters follow; `None` when there is none |
| `JsonValue.ParseSuccess` | skills/icp-batch-skill/scripts/run_icp_batch.py:74-81 | a result exactly when the body decodes to an object whose `code` equals 1; that result is truthy or `{}` |
| `JsonValue.AcceptedIff` | skills/icp-batch-skill/scripts/run_icp_batch.py:74-81 | callers accept a body exactly when it decodes to an object with `code == 1` and a truthy `data`, and then they get that `data` |
| `Links.LinkColumn` | skills/icp-batch-skill/scripts/run_icp_batch.py:39-45 | the first header cell equal to the link header; column 0 when no cell is |
| `Links.LocateLinkColumn` | skills/icp-batch-skill/scripts/run_icp_batch.py:39-45 | the header scan that stops at the first match returns that column |
| `Links.CellTextSpec` | skills/icp-batch-skill/scripts/run_icp_batch.py:55 | `str` of a cell: a string is itself, an integer prints as digits that read back as its magnitude, with `-` in front exactly when it is negative, a boolean as `True`/`False`, an empty cell as `None` |
| `Links.CellTextIntInjective` | skills/icp-batch-skill/scripts/run_icp_batch.py:161 | two integer link cells print the same text exactly when they hold the same number |
| `Links.NormalizeIdempotent` | skills/icp-batch-skill/scripts/run_icp_batch.py:55-57 | normalising an extracted domain again changes nothing |
| `Links.WholeMatch` | skills/icp-batch-skill/scripts/run_icp_batch.py:56-57 | the lower-cased matched span is stripped and matched whole by the pattern |
| `Extract.ExtractDomains` | skills/icp-batch-skill/scripts/run_icp_batch.py:29-61 | the `seen`-set loop over the data rows returns the de-duplicated list of row domains |
| `Extract.ExtractedDomainsSpec` | skills/icp-batch-skill/scripts/run_icp_batch.py:33-61 | an empty sheet gives no domains; otherwise the result has no repetitions, holds exactly the domains of the non-empty in-range link cells of the data rows, and is in order of first occurrence |
| `CacheStore.PutValid` | skills/icp-batch-skill/scripts/run_icp_batch.py:425 | storing into the dict keeps its key order and entries in step, and keeps each entry filed under its own domain |
| `CacheStore.LoadCache` | skills/icp-batch-skill/scripts/run_icp_batch.py:64-71 | a missing file gives the empty cache; every loaded cache keeps its key order in step with its entries, and files each entry under its own `domain` |
| `CacheStore.LoadRowsKeys` | skills/icp-batch-skill/scripts/run_icp_batch.py:71 | the cache keys are the `domain` values of the rows, in order of first appearance |
| `CacheStore.LoadRowsLastWins` | skills/icp-batch-skill/scripts/run_icp_batch.py:71 | each key's entry is the last row with that `domain` |
| `CacheStore.LoadRowsMembership` | skills/icp-batch-skill/scripts/run_icp_batch.py:71 | a domain is a key exactly when some row carries it; rows without `domain` are skipped |
| `CacheStore.RewriteCache` | skills/icp-batch-skill/scripts/run_icp_batch.py:95-105 | writes the header and then the line of each listed domain's non-empty entry, in list order; `ok` is false exactly when some such entry has a key that is not a column, and the file then stops before the first such entry |
| `CacheStore.WrittenRowsSpec` | skills/icp-batch-skill/scripts/run_icp_batch.py:102-105 | the rows written are the entries of exactly the listed domains that have a non-empty entry, in list order, each line beginning with its domain; other keys are dropped |
| `CacheStore.WrittenLinesCover` | skills/icp-batch-skill/scripts/run_icp_batch.py:102-105 | when every listed domain has a non-empty entry, the file is the header and then exactly one line per listed domain, in list order, each that domain's entry |
| `CacheStore.ReadBackLine` | skills/icp-batch-skill/scripts/run_icp_batch.py:95-105 | reading a written line back under the cache header, as `csv.DictReader` does, gives every cache column the entry's field, and gives the entry itself when it has exactly those columns |
| `Lookup.SelectMisses` | skills/icp-batch-skill/scripts/run_icp_batch.py:402-412 | the loop collects exactly the domains that need a call, in order |
| `Lookup.NeedsCallIff` | skills/icp-batch-skill/scripts/run_icp_batch.py:402-412 | a domain is queried exactly when it has no entry, its entry is empty, its status is not `"200"`, or its body is not accepted |
| `Lookup.MissesSpec` | skills/icp-batch-skill/scripts/run_icp_batch.py:402-412 | the queried domains are exactly the workbook domains that need a call, form a subsequence of them, have no repetitions, and are none when every domain passes |
| `Lookup.CallRecordShape` | skills/icp-batch-skill/scripts/run_icp_batch.py:84-92 | a call's entry, answer or exception sentinel, is filed under its domain and has exactly the cache columns |
| `Lookup.RecordStatus` | skills/icp-batch-skill/scripts/run_icp_batch.py:424-435 | an entry's status is `"200"` exactly when the call did not raise and answered 200 |
| `Lookup.Merge` | skills/icp-batch-skill/scripts/run_icp_batch.py:423-435 | the merge loop stores each call's entry in turn; `errors` is the number of queried domains whose call failed |
| `Lookup.MergedValid` | skills/icp-batch-skill/scripts/run_icp_batch.py:423-435 | the merge keeps the cache's key order in step with its entries and keeps entries under their own domain |
| `Lookup.MergedCalled` | skills/icp-batch-skill/scripts/run_icp_batch.py:423-435 | after the merge every queried domain holds the entry of its call |
| `Lookup.MergedFrame` | skills/icp-batch-skill/scripts/run_icp_batch.py:423-435 | a domain that was not queried keeps its entry, or stays absent |
| `Lookup.MergedKeySet` | skills/icp-batch-skill/scripts/run_icp_batch.py:423-435 | the keys after the merge are the old keys and the queried domains |
| `Lookup.MergedKeys` | skills/icp-batch-skill/scripts/run_icp_batch.py:423-435 | the key order is the old order followed by the newly keyed domains in query order |
| `Lookup.ErrorsSpec` | skills/icp-batch-skill/scripts/run_icp_batch.py:417-435 | `errors` counts exactly the queried domains whose new entry does not have status `"200"`, and is at most the number of calls |
| `Report.BuildSuccessMap` | skills/icp-batch-skill/scripts/run_icp_batch.py:448-456 | the loop over the cache builds the success map, or raises when `data.get` is called on a value that is not an object |
| `Report.SuccessMapSpec` | skills/icp-batch-skill/scripts/run_icp_batch.py:448-456 | the map raises exactly when an entry passes the gate with a `data` that is not an object; otherwise it holds exactly the passing domains, each mapped to its `icp_name` and `icp_num` (`""` when absent) |
| `Report.SuccessMapAgreesWithMisses` | skills/icp-batch-skill/scripts/run_icp_batch.py:402-412 | the success gate and the re-query gate are complements: a domain is in the map exactly when it would not be queried again |
| `Report.SentinelNeverPasses` | skills/icp-batch-skill/scripts/run_icp_batch.py:428-435 | the entry recorded for a call that raised never passes the gate |
| `Report.WriteSuccess` | skills/icp-batch-skill/scripts/run_icp_batch.py:108-132 | raises exactly when the success map would; otherwise reports, in cache order, the six columns of each passing entry's `data` |
| `Report.ReportSpec` | skills/icp-batch-skill/scripts/run_icp_batch.py:108-132 | a report row is exactly the record of some passing cache entry, and when the report is written the success map is built too |
| `Report.ReportMember` | skills/icp-batch-skill/scripts/run_icp_batch.py:111-127 | a record is in the report exactly when some cache key's entry passes the gate with an object `data` that gives that record |
| `Report.PassingReported` | skills/icp-batch-skill/scripts/run_icp_batch.py:111-127 | when no entry's `data` breaks the report, every cache key whose entry passes the gate makes a report row |
| `Workbook.MaxColumnBound` | skills/icp-batch-skill/scripts/run_icp_batch.py:139 | `max_column` is at least 1, and no cell lies at or beyond it |
| `Workbook.MaxRowBound` | skills/icp-batch-skill/scripts/run_icp_batch.py:155 | `max_row` is at least 1, and no cell lies at or beyond it |
| `Workbook.RowValuesSpec` | skills/icp-batch-skill/scripts/run_icp_batch.py:146 | the header values are the cells of the header row as they stand, then empty cells up to `max_column` |
| `Workbook.SetAtSpec` | skills/icp-batch-skill/scripts/run_icp_batch.py:142-143 | setting a cell changes that cell and no other, padding the sheet where needed |
| `Workbook.Worksheet.SetCell` | skills/icp-batch-skill/scripts/run_icp_batch.py:170-171 | `ws.cell(row, column, value)` with 1-based indices sets that one cell |
| `Workbook.UpdateWorkbook` | skills/icp-batch-skill/scripts/run_icp_batch.py:135-173 | saves exactly when no row's entry holds a value a cell cannot take; the saved sheet is the annotated sheet |
| `Workbook.AnnotateSheetRow` | skills/icp-batch-skill/scripts/run_icp_batch.py:158-171 | one pass of the row loop: looks the row's domain up and writes its two values, raising exactly for a value a cell cannot take; the sheet left is the one the row step specifies |
| `Workbook.AnnotateRowSpec` | skills/icp-batch-skill/scripts/run_icp_batch.py:158-171 | one row's step raises exactly for a bad entry; otherwise it writes that row's expected pair into the two new columns and nothing else |
| `Workbook.AnnotateUpToSome` | skills/icp-batch-skill/scripts/run_icp_batch.py:155-171 | after the rows so far, those rows hold their expected pairs and every other cell is unchanged |
| `Workbook.AnnotateUpToNone` | skills/icp-batch-skill/scripts/run_icp_batch.py:155-171 | the walk raises exactly when one of its rows has a bad entry |
| `Workbook.LabelledFacts` | skills/icp-batch-skill/scripts/run_icp_batch.py:139-143 | the two labels go into row 1 just after the last column, and nothing else changes |
| `Workbook.AnnotatedFails` | skills/icp-batch-skill/scripts/run_icp_batch.py:135-173 | the workbook is not saved exactly when some data row's domain maps to a value no cell can take |
| `Workbook.AnnotatedSaves` | skills/icp-batch-skill/scripts/run_icp_batch.py:135-173 | the saved sheet has the labels, each data row's ICP subject and number (or two empty cells) in the new columns, and every other cell unchanged |
| `Workbook.UpdateColumnAgrees` | skills/icp-batch-skill/scripts/run_icp_batch.py:145-153 | unless the link header equals a label, the column found again is the one `extract_domains` used |
| `Workbook.AnnotatedRowsAreExtracted` | skills/icp-batch-skill/scripts/run_icp_batch.py:155-164 | every domain the annotation looks up is one of the extracted domains |
| `Workbook.AnnotatedSameDomains` | skills/icp-batch-skill/scripts/run_icp_batch.py:135-173 | unless the link header is a label, the saved sheet names the same domains, in the same order, as the sheet it was made from |
| `Workbook.ColumnsAddedSameDomains` | skills/icp-batch-skill/scripts/run_icp_batch.py:139-143 | a sheet that differs only in the two columns after the last one, with the labels at their top, keeps its link column and its domains |
| `Clock.WholeSeconds` | skills/icp-batch-skill/scripts/run_icp_batch.py:296-299 | a negative time counts as 0 s; otherwise it is the whole seconds, dropping the fraction |
| `Clock.FormatShape` | skills/icp-batch-skill/scripts/run_icp_batch.py:296-303 | the text ends in two-digit minutes and seconds, each below 60, and has an hours field exactly when there is at least one full hour |
| `Clock.FormatRoundTrip` | skills/icp-batch-skill/scripts/run_icp_batch.py:296-303 | the fields read back to the whole seconds: `hours * 3600 + minutes * 60 + sec == int(seconds)` |
| `Clock.FormatBounds` | skills/icp-batch-skill/scripts/run_icp_batch.py:297-303 | minutes and seconds stay below 60, and a negative time prints as `00:00` |
| `Batch.RunBatch` | skills/icp-batch-skill/scripts/run_icp_batch.py:397-462 | `main`'s steps in order give the outcome of `Run`, and the sheet it leaves is the annotated sheet |
| `Batch.SavedSheetSameDomains` | skills/icp-batch-skill/scripts/run_icp_batch.py:461 | the workbook `main` saves names the same domains as the one it read |
| `Batch.FinalValid` | skills/icp-batch-skill/scripts/run_icp_batch.py:400-435 | the final cache keeps its key order in step with its entries, each under its own domain |
| `Batch.FinalEntry` | skills/icp-batch-skill/scripts/run_icp_batch.py:402-435 | after the merge every workbook domain has a non-empty entry: its call's record if it was queried, otherwise its cached entry, which passes the gate |
| `Batch.RunRewritesEveryDomain` | skills/icp-batch-skill/scripts/run_icp_batch.py:445 | the rewritten cache holds the header and one line per workbook domain, in workbook order, each that domain's final entry |
| `Batch.RunSuccessMap` | skills/icp-batch-skill/scripts/run_icp_batch.py:448-456 | a workbook domain is annotated exactly when it was not queried or its fresh answer passes the gate |
| `Batch.RunSummary` | skills/icp-batch-skill/scripts/run_icp_batch.py:463-466 | the closing counts: failures never exceed calls, and calls never exceed domains |
| `Batch.ReloadNeedsCall` | skills/icp-batch-skill/scripts/run_icp_batch.py:64-71 | reloading the written lines, a domain needs a call exactly when its entry failed the gate |
| `Batch.RerunQueriesOnlyFailures` | skills/icp-batch-skill/scripts/run_icp_batch.py:402-412 | a second run on the workbook this run saved, with the rewritten cache, finds the same domains and queries exactly the ones this run did not mark successful, in workbook order |
| `Batch.RereadMisses` | skills/icp-batch-skill/scripts/run_icp_batch.py:64-71 | reading back the lines written for the workbook domains, the domains queried again are exactly the ones missing from the success map, in workbook order |

## Left out

- Opening, reading and saving files is not modelled: the workbook through openpyxl, the CSV files through `csv`. A file is the rows it holds or the lines written to it.
- CSV quoting, escaping and line ends are not modelled.
- `csv.DictReader`'s `None` values for short lines and its `restkey` list for long lines are not modelled: cache rows are maps from string to string.
- `json.loads` is the parameter `decode`. JSON floats are not modelled, so `code == 1.0` is not recognised as 1. `True == 1` is kept.
- Spreadsheet cells hold `None`, booleans, integers and strings. Dates, floats, formulas and rich text are not modelled.
- openpyxl's rejection of strings with illegal control characters is not modelled. Only lists and objects are refused as cell values.
- The HTTP request, its timeout and the `requests` session are the oracle `api`. The oracle answers the same domain the same way within a run; the queried domains have no repetitions, so each is queried once.
- The AppCode lookup (command line, environment, `appcode.txt`, dialog) and the workbook path lookup are not modelled. Nor are `argparse` and the choice of cache and report paths.
- The progress display (Tk or console), the clock readings, the elapsed and remaining-time arithmetic and `time.sleep` are not modelled. `format_seconds` is modelled on its argument.
- `row[0].row` being `None` (source line 168) is not modelled: rows read from a loaded sheet always carry their index.
- `Text.LowerSpec` (and `Text.Lower`) cover ASCII letters only. Python's `str.lower()` also lower-cases other scripts, but domains the pattern matches are ASCII. Non-ASCII link text without a match is lowered only in its ASCII letters.
- `Workbook.UpdateWorkbook`: when a write raises, the in-memory sheet is not described, because it is never saved.
- `Batch.RunBatch`: when a step raises, the files already written are not described. The run only returns `None`, while the cache file may already have been rewritten.
- The extraction reads the sheet in read-only mode and the annotation reads it in normal mode. The model gives both the same grid and treats a missing cell as empty.
