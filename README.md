# nmdc-orcid-creditor: ledger proxy and put-code extractor

This project models two pieces of the NMDC ORCID creditor.

**The spreadsheet ledger proxy** is the Google Apps Script in `nmdc-orcid-creditor-proxy/Code.gs.js`. It keeps a sheet of credits. Row 0 holds column names such as `column.ORCID_ID` and `column.CLAIMED_AT`, and each later row is one credit. The model covers:

- `getCreditsByOrcidId`: keeps the rows whose ORCID cell equals the given identifier, in sheet order, and labels each one as a column-name-to-cell map.
- `markCreditAsClaimed`: scans for the first unclaimed row matching an ORCID identifier, credit type, start date and end date. It writes the claim timestamp and the affiliation put-code into two cells of that row, then returns the re-read view.
- The four request validators: shared secret, ORCID syntax, credit type and optional timestamp.

The sheet is a class `LedgerProxy.Sheet` with a `cells` field that the claim overwrites in place. Both operations are methods with the source's loops. They are proved against specification functions in `LedgerTable`, and the properties the proxy promises are lemmas about those functions.

**The put-code extractor** is `extract_put_code_from_location_header` in `nmdc_orcid_creditor/helpers.py`. It reads the put-code out of the `Location` header that the ORCID API returns when an affiliation is created. The model is a pure function, `Helpers.ExtractPutCodeFromLocationHeader`, that follows what Python's `re.match` does with `^https?://.*orcid\.org.*/(\d+)$`:

- `.` does not match a newline.
- `$` also matches just before one final newline.
- The captured digits are those after the last `/`.

It is proved equivalent, in both directions, to a declarative description of the strings that pattern accepts with `\d` read as ASCII `0`-`9` (`Helpers.MatchesLocationPattern`).

Modules:

- `Wrappers` (`wrappers.dfy`): `Option`.
- `Digits` (`digits.dfy`): the ASCII digits `0`-`9`: what `\d` matches in the proxy's ORCID regex, and how the extractor's model reads Python's `\d` (see Left out).
- `ProxyValidators` (`validators.dfy`): the validators.
- `LedgerTable` (`ledger_table.dfy`): the sheet as a value, plus the selection, labelling and claim specifications and their lemmas.
- `LedgerProxy` (`ledger_proxy.dfy`): the `Sheet` class and its two methods.
- `Helpers` (`helpers.dfy`): the put-code extractor.

Inputs the scripts take from their environment are parameters here:

- The configured shared secret is the `configuredSecret` parameter of `ValidateSharedSecret`, because `Config.gs.js` holds only a placeholder.
- The claim time (`new Date()`) is the `claimedAt` parameter of `MarkCreditAsClaimed`. It is required to be non-empty, because a `Date` cell never equals `""`.
- A query parameter that the request does not carry (`undefined`, which fails the `typeof … === "string"` test) is `None`.

Some cases are modelled as the code handles them, not assumed away:

- A column name missing from the header gives index -1. `row[-1]` is `undefined`, so no row matches on that column.
- If the put-code column is missing and a row is selected, `getCell(row, 0)` throws. Both `getCell` calls come before either `setValue`, so the sheet is left unchanged and the model returns `CellOutOfRange`.
- If a column name is repeated in the header, the labelled map keeps the last cell under that name, as repeated JavaScript property assignment does.
- A header cell named `__proto__` adds no entry to the labelled map. On a fresh object literal, `labeledRow["__proto__"] = cell` runs the setter inherited from `Object.prototype`, which ignores a string value and creates no own property.

## Model

| member | source | states |
|---|---|---|
| ProxyValidators.ValidateSharedSecret | nmdc-orcid-creditor-proxy/Code.gs.js:141-152 | accepted exactly when the parameter is present and equals the configured secret; otherwise rejected with the "Unauthorized. Invalid shared_secret." message |
| ProxyValidators.ValidateOrcidId | nmdc-orcid-creditor-proxy/Code.gs.js:159-167 | accepted exactly when the parameter is present, has 19 characters, has hyphens at indexes 4, 9 and 14, has ASCII digits elsewhere and a digit or `X` last; the identifier is returned unchanged and is never the ORCID column's name; otherwise rejected with "Bad request. Invalid orcid_id." |
| Digits.IsDigit | nmdc-orcid-creditor-proxy/Code.gs.js:9 | the characters `\d` matches: the ASCII digits `0`-`9`, which is what a JavaScript regular expression matches with or without the `u` flag |
| ProxyValidators.MatchesOrcidPattern | nmdc-orcid-creditor-proxy/Code.gs.js:9 | the regex `^\d{4}-\d{4}-\d{4}-\d{3}[0-9X]$` read group by group: 19 characters, four digit groups separated by hyphens, the last group three digits and then a digit or `X` |
| ProxyValidators.OrcidCharAt | nmdc-orcid-creditor-proxy/Code.gs.js:9 | the same pattern read position by position: a hyphen at 4, 9 and 14, a digit or `X` at 18, a digit everywhere else |
| ProxyValidators.OrcidPatternByPosition | nmdc-orcid-creditor-proxy/Code.gs.js:9 | the regex `^\d{4}-\d{4}-\d{4}-\d{3}[0-9X]$`, read as four digit groups, is equivalent to the character-by-character description of the 19 positions |
| ProxyValidators.ValidateCreditType | nmdc-orcid-creditor-proxy/Code.gs.js:174-182 | accepted exactly when present and non-empty, returned unchanged; otherwise rejected with "Bad request. Invalid credit_type." |
| ProxyValidators.ValidateOptionalTimestamp | nmdc-orcid-creditor-proxy/Code.gs.js:191-201 | every present string is accepted unchanged, the empty string included; only a missing parameter is rejected, with "Bad request. Invalid start_date and/or end_date." |
| LedgerTable.IndexOf | nmdc-orcid-creditor-proxy/Code.gs.js:82-94 | `indexOf`: -1 exactly when the name is absent from the header, otherwise the position of its first occurrence |
| LedgerTable.LastIndexOf | nmdc-orcid-creditor-proxy/Code.gs.js:34-36 | for a name in the header, the position of its last occurrence, which is the cell that the last property assignment leaves under that name |
| LedgerTable.CellIs | nmdc-orcid-creditor-proxy/Code.gs.js:102-106 | `row[index] === value` on string cells: true exactly when the index lies inside the row and the cell there equals the value; a missing column's index -1 reads `undefined`, which equals no string |
| LedgerTable.FilterByCell | nmdc-orcid-creditor-proxy/Code.gs.js:27-28 | every kept row comes from the sheet and has the given value in the given column; no more rows are kept than the sheet has |
| LedgerTable.MatchingPositions | nmdc-orcid-creditor-proxy/Code.gs.js:27-28 | the strictly increasing list of exactly the row positions whose cell in the column equals the value, the header row included |
| LedgerTable.FilterKeepsMatchingRowsInOrder | nmdc-orcid-creditor-proxy/Code.gs.js:27-28 | `filter` keeps exactly the matching rows in sheet order: the k-th kept row is the row at the k-th matching position |
| LedgerTable.AssignProperty | nmdc-orcid-creditor-proxy/Code.gs.js:35 | `labeledRow[name] = cell` for a string cell: the name's entry is set to the cell, except that `__proto__` leaves the object unchanged |
| LedgerTable.Labeled | nmdc-orcid-creditor-proxy/Code.gs.js:32-38 | the object the `map` callback returns for one row: every column name except `__proto__` is a key, holding the cell under the name's last occurrence in the header |
| LedgerTable.LabeledMapsColumns | nmdc-orcid-creditor-proxy/Code.gs.js:32-38 | a labelled credit's keys are exactly the column names other than `__proto__`, and `columnNames[i]` maps to cell `i` for every header index whose name is not `__proto__` and is not repeated later in the header |
| LedgerTable.LabeledExtend | nmdc-orcid-creditor-proxy/Code.gs.js:34-36 | one step of the inner loop: labelling one more column is the property assignment `AssignProperty` applied to the labelling so far |
| LedgerProxy.LabelRow | nmdc-orcid-creditor-proxy/Code.gs.js:33-37 | the key-by-key loop builds exactly the labelled credit of the row |
| LedgerTable.CreditsView | nmdc-orcid-creditor-proxy/Code.gs.js:24-41 | what `getCreditsByOrcidId` returns: the filtered rows, each labelled by the header; no more entries than the sheet has rows, and every entry keyed by exactly the header's names other than `__proto__` |
| LedgerTable.CreditsViewSelectsMatchingRows | nmdc-orcid-creditor-proxy/Code.gs.js:24-38 | the view has one entry per matching row, in sheet order, each the labelled credit of that row; the header row is listed exactly when the ORCID column exists and the identifier is its name; a sheet without the ORCID column gives an empty view |
| LedgerProxy.Sheet.GetCreditsByOrcidId | nmdc-orcid-creditor-proxy/Code.gs.js:15-42 | returns the credits view of the current cells for the identifier, and changes nothing |
| LedgerTable.ColumnsOf | nmdc-orcid-creditor-proxy/Code.gs.js:82-94 | the 0-based `indexOf` of each of the six column names the claim uses, -1 for a missing one |
| LedgerTable.IsUnclaimedMatch | nmdc-orcid-creditor-proxy/Code.gs.js:101-107 | the loop's five-way test: the ORCID iD, credit type, start date and end date cells equal the key, and the claimed-at cell is `""` |
| LedgerTable.FirstUnclaimedMatch | nmdc-orcid-creditor-proxy/Code.gs.js:99-111 | the scan from a given row: a found row matches all four key cells and has an empty claimed-at cell, and no row between the start and the found row (or the end) does |
| LedgerTable.FindCreditRow | nmdc-orcid-creditor-proxy/Code.gs.js:96-111 | the selected row is the lowest-index unclaimed match; it is never the header row; no earlier row satisfies all five conditions |
| LedgerTable.SkipUnmatchedRows | nmdc-orcid-creditor-proxy/Code.gs.js:99-111 | starting the scan later, past rows that do not match, gives the same answer |
| LedgerTable.SearchAgrees | nmdc-orcid-creditor-proxy/Code.gs.js:99-111 | two sheets whose rows match alike from some row on give the same scan result from there |
| LedgerProxy.SelectedRowIsFirstMatch | nmdc-orcid-creditor-proxy/Code.gs.js:96-111 | when the loop exits, `creditRowNumber` is the 1-based number of the first unclaimed match, or none when there is no match |
| LedgerTable.CellInRange | nmdc-orcid-creditor-proxy/Code.gs.js:120-127 | `dataRange.getCell(row, column)` does not throw: both 1-based numbers lie inside the data range |
| LedgerTable.ClaimFails | nmdc-orcid-creditor-proxy/Code.gs.js:119-127 | a row is selected and one of the two `getCell` calls throws |
| LedgerTable.ClaimFailsExactlyWithoutPutCodeColumn | nmdc-orcid-creditor-proxy/Code.gs.js:119-127 | a claim throws exactly when a row is selected and the header has no `column.AFFILIATION_PUT_CODE`: the selected row's claimed-at cell lies inside the row, so that `getCell` never throws |
| LedgerTable.MarkedSheet | nmdc-orcid-creditor-proxy/Code.gs.js:116-131 | the sheet after the writes: unchanged when no row matches or a `getCell` would throw; otherwise the selected row's claimed-at and put-code cells hold the timestamp and the put-code, and every other cell of every row, the header included, is unchanged |
| LedgerProxy.CellWritesMarkSheet | nmdc-orcid-creditor-proxy/Code.gs.js:129-130 | the two `setValue` calls, made one after the other, produce the marked sheet |
| LedgerTable.RepeatedClaimSelectsNextDuplicate | nmdc-orcid-creditor-proxy/Code.gs.js:106-129 | after a successful claim with a non-empty timestamp, the same claim selects the next unclaimed duplicate after the claimed row, or nothing, and never the same row again |
| LedgerTable.ClaimedRowIsListed | nmdc-orcid-creditor-proxy/Code.gs.js:133-135 | the view returned after a claim lists the claimed row's labelled credit |
| LedgerTable.ClaimedCellsAreLabeled | nmdc-orcid-creditor-proxy/Code.gs.js:129-135 | when the claimed-at and put-code names are not repeated later in the header, the claimed row's labelled credit shows the written timestamp and put-code |
| LedgerProxy.Sheet.MarkCreditAsClaimed | nmdc-orcid-creditor-proxy/Code.gs.js:67-136 | the new cells are the marked sheet of the old ones; the outcome is the out-of-range exception exactly when a row is selected and a `getCell` is outside the data range; otherwise it is the credits view of the updated cells |
| Helpers.Occurs | nmdc_orcid_creditor/helpers.py:27 | the host test `.*orcid\.org`: true exactly when `orcid.org` occurs somewhere in the string |
| Helpers.ExtractPutCodeFromLocationHeader | nmdc_orcid_creditor/helpers.py:24-32 | a found put-code is a non-empty run of decimal digits, and the header then begins with `https://` or `http://` |
| Helpers.MatchesLocationPattern | nmdc_orcid_creditor/helpers.py:27 | the language of `^https?://.*orcid\.org.*/(\d+)$` under `re.match`, with group 1 as the put-code: a scheme, newline-free text, `orcid.org`, newline-free text, `/`, a non-empty run of ASCII digits, and at most one final newline |
| Helpers.ExtractorMatchesPattern | nmdc_orcid_creditor/helpers.py:27-30 | the extractor yields `d` exactly when the header is `http://` or `https://`, then newline-free text with `orcid.org` in it, then `/`, then the digits `d`, then optionally one newline |
| Helpers.PutCodeIsFinalSegment | nmdc_orcid_creditor/helpers.py:27-30 | a found put-code is the suffix of the header right after a `/`, or that suffix followed by one final newline; for a newline-free header it is exactly the suffix after the `/`; a header ending in `/` and the empty header give none |
| Helpers.PutCodeRoundTrip | nmdc_orcid_creditor/helpers.py:27-30 | for newline-free `u`, `v` and non-empty ASCII digits `d`, both `"https://" + u + "orcid.org" + v + "/" + d` and the `http://` form yield `d` |
| Helpers.ForeignHostYieldsNone | nmdc_orcid_creditor/helpers.py:27 | a header in which `orcid.org` does not occur yields none |
| Helpers.DocumentedExamples | nmdc_orcid_creditor/helpers.py:12-21 | the production, sandbox and plain-HTTP example URLs yield `"12345"`; the URL ending in `/service/` and the empty string yield none |

## Left out

- `SpreadsheetApp` access (`openById`, `getSheetByName`, `getDataRange().getValues()`) is not modelled. The sheet is the `cells` field, required to be non-empty and rectangular, which is the shape `getValues()` returns.
- `ContentService` JSON responses and the `doGet`/`doPost` handlers are not modelled. The validators are modelled as decisions, accepted with the value or rejected with the error message, not as responses the handlers would send.
- Google Sheets cell typing is not modelled: every cell is a string. A claimed-at cell holding a `Date` is stood for by the non-empty `claimedAt` string, which keeps the fact that it never equals `""`.
- The real clock is not modelled; `claimedAt` is a parameter.
- The ORCID checksum (ISO/IEC 7064 MOD 11-2) is not computed, as the source does not compute it.
- ProxyValidators.ValidateSharedSecret: the configured secret is a parameter; `nmdc-orcid-creditor-proxy/Config.gs.js` is not part of this model.
- Helpers.ExtractPutCodeFromLocationHeader: only ASCII `0`-`9` count as digits. Python's `\d` on `str` also accepts the other Unicode decimal digits, so for a header such as `https://orcid.org/١٢٣` (Arabic-Indic digits) the model returns None where Python returns `'١٢٣'`.
- LedgerProxy.Sheet.MarkCreditAsClaimed: each call is one atomic step on the sheet. The script takes no `LockService` lock between its scan (nmdc-orcid-creditor-proxy/Code.gs.js:99-111) and its `setValue` calls (lines 129-130), so two overlapping `doPost` executions can both select the same row and both write it. This interleaving is not modelled.
- LedgerTable.RepeatedClaimSelectsNextDuplicate: "never the same row again" holds for claims made one after the other, not for overlapping executions of the script.
- LedgerProxy.Sheet.GetCreditsByOrcidId: the outer `credits.map` is written as a loop that appends one labelled row at a time. The result is the same.
- `nmdc_orcid_creditor/config.py` and `nmdc_orcid_creditor/main.py` are not part of this model. They hold environment settings and a stub web app.
- `nmdc_orcid_creditor/test_main.py` is not part of this model. It exercises web routes, and the `validate_orcid_access_token` it imports has no implementation in the files modelled.
- The claim orchestration, the OAuth flow and the ORCID affiliation submission are not part of this model.
