# pupeteer-parser: the paginated extraction and deduplication core

The program crawls two paginated registry listings of a government site:
medical equipment and medications. For each listing it submits a filter form and
reads the values of the page-select control. It keeps the values that coerce to
a truthy number; that list is the crawl plan. It then visits each planned page in
order. There it turns every table row into the list of its cell texts, maps the
list to a record by position, and stores the record under the text of a key
cell, unless that key is already taken. After each page it logs
`Parsed <page> of <plan length>`. The session (`parseData`) crawls the equipment
listing keyed on cell 5 (register number), then the medication listing keyed on
cell 1 (trading name). It returns both collections as the two fields of one
result.

This Dafny project models that core with the browser replaced by plain inputs:

- the option values of the page control, a `seq<string>`;
- the site, a function from a page value to the rows the table then shows, where
  a row is a sequence of `td` cells and a cell is the sequence of texts of its
  child nodes.

Modules, following the program's components:

- `JsSemantics` (`js_semantics.dfy`): `String.prototype.trim`, covering the
  whole ECMAScript WhiteSpace and LineTerminator set, and the truthiness of
  `+value`.
- `PageOptions` (`page_options.dfy`): the option filter that gives the crawl plan.
- `RowExtractor` (`row_extractor.dfy`): cell texts and row texts.
- `Records` (`records.dfy`): the equipment and medication records, built by the
  two positional mappers. A missing cell (JavaScript `undefined`) is `None`.
- `Collector` (`collector.dfy`): the first-write-wins keyed insert and
  `parseTable`. The table is a loop that threads a `map` through one insert per
  row.
- `Pagination` (`pagination.dfy`): `parsePage`, a loop over the plan that
  threads the collection through every page and returns the progress trace.
- `Session` (`session.dfy`): `parseData`, with the console lines returned as a
  log.

Each imperative method (`ParseTable`, `ParsePage`, `ParseData`) is proved
against a specification function: `InsertAll` for the rows inserted in order,
and `CrawlResult` for a whole listing. The lemmas state what the source
promises about those functions: first write wins, monotone growth, idempotence
and order.

In JavaScript, `storeObject[tdsTexts[i]]` with a missing cell indexes the
property `"undefined"`. The model keeps this: the key of a row too short to
have a key cell is the string `"undefined"` (`Collector.Key`). Accordingly, the
"record names its key" property says the field equals the key, or the field is
absent and the key is `"undefined"` (`Collector.KeyReflects`).

## Model

| member | source | states |
|---|---|---|
| `PageOptions.FilterMembers` | index.js:45-51 | a value is kept exactly when it is listed and passes the test (both directions) |
| `PageOptions.FilterAppend` | index.js:45-51 | filtering distributes over concatenation, so the kept values stay in their original order |
| `PageOptions.FilterCounts` | index.js:45-51 | each kept value occurs in the result as often as in the options; each dropped value does not occur |
| `PageOptions.FilterIdempotent` | index.js:45-51 | filtering an already filtered list changes nothing |
| `PageOptions.PlanMembers` | index.js:45-51 | a page value is in the crawl plan exactly when it is an option value whose `+value` is truthy |
| `PageOptions.SentinelsDropped` | index.js:45-51 | options `["", "1", "2", "All"]` give the plan `["1", "2"]` |
| `JsSemantics.PositiveNumeralIsTruthy` | index.js:49 | the decimal numeral of every positive page number passes the `+value` filter |
| `JsSemantics.ZerosAreFalsy` | index.js:49 | "0", "00", … are dropped |
| `JsSemantics.BlankIsFalsy` | index.js:49 | an empty or all-whitespace value is dropped |
| `JsSemantics.TrimSpec` | index.js:116 | `trim` removes exactly the whitespace at both ends: the result is a slice of the input, everything cut off is whitespace, and the result has no whitespace at either end |
| `JsSemantics.TrimUnique` | index.js:116 | at most one string is a trim of a given input, so `TrimSpec` determines `trim` |
| `JsSemantics.TrimIdempotent` | index.js:116 | trimming twice equals trimming once |
| `RowExtractor.CellText` | index.js:113-120 | a cell text, i.e. the trimmed child texts joined with no separator, has no whitespace at either end |
| `RowExtractor.SingleChildCell` | index.js:114-118 | a cell with one child holds `trim(child)` |
| `RowExtractor.CellTextAppend` | index.js:114-118 | the text of two runs of child nodes is the concatenation of their texts, in document order |
| `RowExtractor.CellTextStable` | index.js:114-118 | trimming an extracted cell text again changes nothing |
| `RowExtractor.BlankChildrenVanish` | index.js:114-118 | whitespace-only child nodes give an empty cell text |
| `RowExtractor.RowTextsPointwise` | index.js:113-120 | a row has exactly one text per `td`, the i-th being the i-th cell's text |
| `RowExtractor.ExtractRowsPointwise` | index.js:109-120 | the rows of a page give one text row each, in document order |
| `Records.EquipmentOf` | index.js:70-82 | `medEquipDataArrayToObject` is total; its eight fields, in order, are cells 1 to 8, and a cell past the end gives an absent field |
| `Records.MedicationOf` | index.js:84-96 | `medicineArrayToObject` is total; its eight fields, in order, are cells 1 to 8, and a cell past the end gives an absent field |
| `Records.EquipmentIsPositional` | index.js:70-82 | two rows that agree on cells 1 to 8 give the same equipment record, so cell 0 and cells past 8 are never used |
| `Records.MedicationIsPositional` | index.js:84-96 | two rows that agree on cells 1 to 8 give the same medication record |
| `Records.EquipmentRoundTrip` | index.js:70-82 | writing a complete equipment record back into cells 1 to 8 and mapping it gives the record again |
| `Records.MedicationRoundTrip` | index.js:84-96 | writing a complete medication record back into cells 1 to 8 and mapping it gives the record again |
| `Records.EquipmentRowRoundTrip` | index.js:70-82 | for a row of nine or more cells every equipment field is present, and writing the record back gives cells 1 to 8 again |
| `Records.MedicationRowRoundTrip` | index.js:84-96 | for a row of nine or more cells every medication field is present, and writing the record back gives cells 1 to 8 again |
| `Records.ShortRowsGiveAbsentFields` | index.js:70-96 | field k is absent exactly when the row has no cell k + 1 (both directions, both mappers) |
| `Records.KeyFields` | index.js:70-96 | the equipment `registerNumber` is cell 5 and the medication `tradingName` is cell 1 |
| `Collector.Key` | index.js:121 | the key is the text of the key cell, or `"undefined"` when the row has no such cell |
| `Collector.InsertSpec` | index.js:121-123 | if the key is present the collection is unchanged; otherwise it gains exactly that key, mapped to `mapRow(row)`, and nothing else changes |
| `Collector.StoreRow` | index.js:121-123 | the row callback's conditional store is the insert `Insert` specifies |
| `Collector.InsertIdempotent` | index.js:121-123 | inserting the same row twice gives the same collection as inserting it once |
| `Collector.InsertAllGrows` | index.js:110-124 | inserting rows in order keeps every earlier key and record, and the keys become the old keys plus the rows' keys |
| `Collector.KeysOfMembers` | index.js:121-123 | a key is among the inserted keys exactly when some row carries it |
| `Collector.FirstRowWins` | index.js:121-123 | a new key ends up holding the record of the first row that carries it |
| `Collector.InsertAllPresent` | index.js:121-123 | rows whose keys are all present leave the collection unchanged |
| `Collector.InsertAllIdempotent` | index.js:121-123 | inserting a whole page of rows a second time changes nothing |
| `Collector.InsertAllAppend` | index.js:57-63 | inserting one run of rows and then another equals inserting their concatenation |
| `Collector.KeyedByField` | index.js:121-123 | when a record's field is its key cell, every stored record's field reflects the key it is stored under |
| `Collector.ParseTable` | index.js:102-126 | `parseTable` returns the given collection with the page's extracted rows inserted in document order |
| `Pagination.ParsePage` | index.js:26-68 | `parsePage` returns the plan's pages' rows, inserted in order into an empty collection; its progress trace is the plan, each page paired with the plan's length |
| `Pagination.VisitPages` | index.js:57-65 | the page loop visits the plan in order: its collection is every visited page's rows inserted in order into an empty collection, and it reports each page once, with the plan's length |
| `Pagination.VisitedAppend` | index.js:52-65 | the rows of a run of pages are the rows of its parts, in order |
| `Pagination.CrawlOnlyGrows` | index.js:57-63 | across pages the collection only grows: no key is removed and no stored record changes |
| `Pagination.RevisitChangesNothing` | index.js:52-65 | visiting a page already visited once more leaves the collection unchanged |
| `Pagination.DuplicateAcrossPages` | index.js:52-65 | pages with keys A, B / B, C / D give exactly the keys A, B, C and D, and B keeps its page-1 record |
| `Session.ProgressLines` | index.js:98-100 | one `Parsed current of total` line per progress event, in order |
| `Session.ParseData` | index.js:128-149 | the equipment collection is the crawl keyed on cell 5 and the medication collection the crawl keyed on cell 1, kept apart; every equipment record's `registerNumber` and every medication record's `tradingName` reflects its key; the log is the two start lines, each followed by its listing's progress lines |

## Left out

- Browser automation is replaced by inputs: the option values and a page-to-rows function. This covers launching, `goto`, typing the date, selecting the sort order, submitting, waiting for navigation, `$`, `$$`, `evaluate` and closing (index.js:34-44, 53-56, 66, 109, 111). So are the default timeout and the fixed filter values "01.01.1999" and "Great" (index.js:36-39). Navigation or selector failures are I/O and are not modelled.
- HTML parsing with `node-html-parser` (index.js:112) is a foreign library. A row enters the model already parsed into its `td` cells and their child-node texts. The model does not look inside a `tr` for nested tables.
- The un-awaited `async` callback in `rows.forEach` (index.js:110) races with the next page navigation. The model inserts the rows one after another, in document order, and does not capture the race.
- `Collector.InsertSpec`: `!storeObject[key]` is modelled as membership in the map of `Collector.Insert`. Stored records are objects and therefore always truthy. Inherited property names such as "constructor" or "__proto__" are not modelled.
- `JsSemantics.IsTruthyNumber`: `Number(value)` is approximated. Surrounding whitespace, one optional sign, and then either `Infinity` or a run of decimal digits that is not all zeros is truthy; everything else is read as falsy. Fractions ("1.5"), exponents ("1e3") and hex, octal or binary literals ("0x10"), which JavaScript reads as truthy unless their value is zero, are outside the approximation. Page values are plain positive integers, which the approximation covers (`PositiveNumeralIsTruthy`).
- The `setInterval` scheduler, `JSON.stringify` and `fs.writeFileSync` (index.js:151-159) are timing and I/O. Each `ParseData` call builds its result from empty collections, so no state crosses runs.
- `console.log` (index.js:99, 129, 137) is modelled as the returned log of `Session.ParseData`, and the progress callback as the progress trace of `Pagination.ParsePage`.
- The selectors and URLs (index.js:5-24) only address the remote site and are not modelled.
