# PV module catalog parsing, modelled in Dafny

This project models the module-catalog handling of the PV I–V web front end.
Its two scripts each parse the same module database (a CSV file), and this
project models both parsers and the selection rules around the first one:

- `static/assets/charts.js`, `processCSVData`. It drops the header line and splits
  each remaining line on `,`. It skips lines with fewer than three fields. Every
  other line becomes a module record: model, manufacturer and technology are the
  trimmed fields 0, 1 and 2, and `I_L_ref`, `I_o_ref`, `R_s`, `R_sh_ref` and
  `Adjust` are `parseFloat` of fields 21 to 25, or 0. The selection rules come
  from `renderPVChart` and `initPVChart`, written here as functions:
  - lookup of the selected (manufacturer, model);
  - the model list of one manufacturer;
  - the de-duplicated manufacturer list;
  - the three-point scatter drawn for the selected module.
- `static/assets/modelData.js`, the parsing part of `fetchModuleData`. It trims the
  text and splits it into lines. The first line's
  trimmed fields name the columns, and every later line becomes a row mapping each
  name to a cell: a number, a trimmed string, or undefined.

Modules:

- `Wrappers` (`wrappers.dfy`): `Option`.
- `JsString` (`js_string.dfy`): JavaScript `String.prototype.trim` (ECMAScript
  WhiteSpace and LineTerminator characters) and `split`/`join` on a one-character
  separator, with the split/join round trip.
- `JsNumber` (`js_number.dfy`): `parseFloat` and the `isNaN` test, kept abstract
  as function-typed parameters. `parseFloat` yields `Some(value)`, or `None` for
  NaN. `NumericTest` is `!isNaN`. It is deliberately not "looks like digits":
  JavaScript coerces an empty or blank string to 0, so such a cell passes the test.
- `ModuleCatalog` (`module_catalog.dfy`): the `charts.js` parser and selection rules.
  Everything here is a pure function, as in the source.
- `ModuleData` (`module_data.dfy`): the `modelData.js` parser. The outer `lines.map`
  is a function. The `headers.forEach` loop fills a row object in place, so it is
  the method `BuildRow`, a loop updating a map. `BuildRow` is
  proved equal to the function `RowOf`. It is also proved to have exactly the header names as keys, with the last duplicate header winning.

Lookup takes the first match. Nothing in `charts.js` makes the (manufacturer, model)
pairs unique, so a catalog may hold several records under one pair.

## Model

| member | source | states |
|---|---|---|
| `JsString.TrimStart` | static/assets/modelData.js:8 | the result is a suffix of the input; the dropped prefix is all whitespace; the result does not start with whitespace |
| `JsString.TrimEnd` | static/assets/modelData.js:8 | the result is a prefix of the input; the dropped suffix is all whitespace; the result does not end with whitespace |
| `JsString.Trim` | static/assets/charts.js:27-29 | the result is no longer than the input and has no whitespace at either end |
| `JsString.TrimSlice` | static/assets/charts.js:27-29 | the trim is a contiguous slice of the input with only whitespace before and after it |
| `JsString.TrimKeepsAbsent` | static/assets/charts.js:27-29 | a character absent from the input is absent from its trim |
| `JsString.TrimIdempotent` | static/assets/charts.js:27-29 | trimming a trimmed string changes nothing |
| `JsString.TrimAppendWhitespace` | static/assets/modelData.js:8 | appending whitespace (for example a trailing newline) does not change the trimmed text |
| `JsString.TrimPrependWhitespace` | static/assets/modelData.js:8 | prepending whitespace does not change the trimmed text |
| `JsString.TrimAllWhitespace` | static/assets/modelData.js:8 | whitespace-only text trims to the empty string |
| `JsString.Split` | static/assets/charts.js:18 | split into at least one piece, and no piece contains the separator |
| `JsString.JoinSplit` | static/assets/charts.js:20 | joining the pieces of a split with the separator gives back the string |
| `JsString.SplitJoin` | static/assets/charts.js:20 | splitting a join of separator-free pieces gives back exactly those pieces, in order |
| `JsString.SplitTrailingSeparator` | static/assets/charts.js:18 | a trailing separator adds exactly one empty piece at the end |
| `ModuleCatalog.NumberOrZero` | static/assets/charts.js:37-41 | a numeric field is the parsed value when the field exists and parses; it is 0 when the field is missing or parses to NaN |
| `ModuleCatalog.RecordOf` | static/assets/charts.js:20-42 | a line's fields yield no record exactly when there are fewer than 3 of them |
| `ModuleCatalog.FilterMap` | static/assets/charts.js:19-43 | `map` then `filter(Boolean)` never yields more results than inputs |
| `ModuleCatalog.ParseRow` | static/assets/charts.js:20-42 | yields no record exactly when the line has fewer than 3 comma-separated fields; the record's fields are given by `RecordFields` |
| `ModuleCatalog.ProcessRows` | static/assets/charts.js:19-43 | there are never more records than lines; which records, and in what order, is given by `ProcessRowsAppend`, `ProcessRowsSingle`, `ProcessRowsAllComplete` and `ProcessRowsSources` |
| `ModuleCatalog.ProcessCSVData` | static/assets/charts.js:16-47 | never more records than lines; the header line is discarded (`HeaderDiscarded`), header-only or empty text yields nothing (`HeaderOnly`), and a blank trailing line adds nothing (`TrailingNewlineSkipped`) |
| `ModuleCatalog.ProcessRowsSources` | static/assets/charts.js:19-43 | every record is the record that some input line parses to |
| `ModuleCatalog.ProcessRowsAppend` | static/assets/charts.js:19-43 | the records of two consecutive blocks of lines are the concatenation of each block's records, so input order is kept |
| `ModuleCatalog.ProcessRowsSingle` | static/assets/charts.js:20-25 | one line with fewer than 3 fields yields no record; otherwise it yields exactly its one record |
| `ModuleCatalog.ProcessRowsAllComplete` | static/assets/charts.js:19-43 | when no line is short, there is one record per line, and record k is line k's record |
| `ModuleCatalog.ProcessRowsAllShort` | static/assets/charts.js:22-43 | lines that are all short yield no records |
| `ModuleCatalog.HeaderDiscarded` | static/assets/charts.js:18 | for text joined from a header line and data lines, the records are exactly those of the data lines, whatever the header holds |
| `ModuleCatalog.HeaderOnly` | static/assets/charts.js:18 | single-line text (header only, or empty text) yields no records |
| `ModuleCatalog.TrailingNewlineSkipped` | static/assets/charts.js:18-25 | a blank trailing line adds no record |
| `ModuleCatalog.RecordFields` | static/assets/charts.js:27-41 | model, manufacturer and technology are the trimmed fields 0, 1 and 2, with no surrounding whitespace and no comma; each of the five numbers is `NumberOrZero` of its field (21 to 25): the parsed value, or 0 when the field is missing or NaN |
| `ModuleCatalog.FindModule` | static/assets/charts.js:51-56 | the result is None exactly when no record matches both manufacturer and model; otherwise it is the first matching record |
| `ModuleCatalog.ModelsOf` | static/assets/charts.js:112 | a model is listed exactly when some record of that manufacturer has it; there are never more entries than records |
| `ModuleCatalog.ModelsOfAppend` | static/assets/charts.js:112 | the model list of two consecutive catalog blocks is the concatenation of their lists, so catalog order is kept |
| `ModuleCatalog.ModelsOfAllSameMaker` | static/assets/charts.js:112 | when every record is of that manufacturer, every model is listed in catalog order, duplicates included |
| `ModuleCatalog.ModelsOfOtherMakers` | static/assets/charts.js:112 | records of other manufacturers contribute nothing |
| `ModuleCatalog.Manufacturers` | static/assets/charts.js:123 | entry i is record i's manufacturer |
| `ModuleCatalog.Distinct` | static/assets/charts.js:123 | no duplicates; the same elements as the input; ordered by first appearance in the input |
| `ModuleCatalog.UniqueManufacturers` | static/assets/charts.js:123 | the manufacturer list; `UniqueManufacturersSpec` proves each catalog manufacturer appears once, nothing else appears, and the order is by first record |
| `ModuleCatalog.UniqueManufacturersSpec` | static/assets/charts.js:123 | every catalog manufacturer appears exactly once and no other value appears; the list is ordered by each manufacturer's first record |
| `ModuleCatalog.ScatterData` | static/assets/charts.js:65-69 | three points: on the current axis at I_L_ref; at R_s with the current lowered by R_s·I_o_ref; on the voltage axis at R_sh_ref |
| `ModuleCatalog.ChartData` | static/assets/charts.js:51-69 | no chart when nothing matches the selection; otherwise the scatter of the first matching record |
| `ModuleCatalog.ShortLineScatterAtOrigin` | static/assets/charts.js:37-41 | a kept line with no field 21 onward gives all-zero numbers, so all three scatter points sit at the origin |
| `ModuleData.CellAt` | static/assets/modelData.js:15 | a field beyond the line's end is undefined; a field that passes the numeric test is its parseFloat (possibly NaN); any other field is its trimmed text |
| `ModuleData.RowUpTo` | static/assets/modelData.js:13-16 | after n assignments the row's keys are exactly the first n header names |
| `ModuleData.HeaderSetIsNames` | static/assets/modelData.js:14 | the first n header names, collected one assignment at a time, are the set of names in the first n positions |
| `ModuleData.RowUpToLastWins` | static/assets/modelData.js:14-16 | under a repeated header name, the cell of its last column is the one kept |
| `ModuleData.RowOf` | static/assets/modelData.js:12-17 | the row one line's fields produce; `BuildRow` (the loop, proved equal to it) and `RowUpToLastWins` give its key set (exactly the header names) and its last-duplicate-wins values |
| `ModuleData.BuildRow` | static/assets/modelData.js:13-17 | the loop's row equals `RowOf`; its keys are exactly the header names; each name maps to the cell of the last column that carries it |
| `ModuleData.RowUpToIgnoresExtraFields` | static/assets/modelData.js:14-16 | fields beyond the last header do not affect the row |
| `ModuleData.HeaderNames` | static/assets/modelData.js:9 | one header name per field of the header line |
| `ModuleData.HeaderNamesTrimmed` | static/assets/modelData.js:9 | each header name is its trimmed field, with no surrounding whitespace and no comma |
| `ModuleData.TextLines` | static/assets/modelData.js:8 | the trimmed text always splits into at least the header line |
| `ModuleData.TextLinesOfJoin` | static/assets/modelData.js:8 | trimmed text joined from newline-free lines splits back into those lines |
| `ModuleData.RowsOf` | static/assets/modelData.js:11-18 | one row per data line, in the same order; each row is built from that line's fields and is keyed by exactly the header names |
| `ModuleData.ParseModuleData` | static/assets/modelData.js:8-18 | one row per line after the header; every row's key set is the set of header names |
| `ModuleData.OneRowPerLine` | static/assets/modelData.js:8-18 | for trimmed text of a header line and data lines, row k is the row built from data line k, with none dropped and none added |
| `ModuleData.HeaderOnlyNoRows` | static/assets/modelData.js:8-11 | text whose trimmed form is a single line yields no rows |
| `ModuleData.BlankTextNoRows` | static/assets/modelData.js:8 | empty or whitespace-only text yields no rows |
| `ModuleData.SurroundingWhitespaceIgnored` | static/assets/modelData.js:8 | surrounding whitespace, a trailing newline included, does not change the rows |

## Left out

- The network fetches and their error fallbacks (`fetchCSVData`, and the `try`/`catch` of `fetchModuleData`), because they are I/O. The parsers take the fetched text as input.
- Logging with `console.log` / `console.warn`.
- The `<select>` population via `innerHTML`, the event listeners, and ApexCharts options and rendering, because they are DOM and chart plumbing. The data they show is modelled: `ModelsOf`, `UniqueManufacturers` and `ChartData`.
- The number grammar of `parseFloat` and `isNaN`. Both are abstract parameters, because the parsers only branch on their outcome.
- Infinities from `parseFloat` are not modelled. The abstraction yields a real or NaN.
- ScatterData: numbers are reals, so the IEEE-754 double rounding of `I_L_ref - R_s * I_o_ref` in the scatter is not modelled.
- NumberOrZero: `-0` is not distinguished from `0`. `parseFloat(x) || 0` maps both to 0, and the real numbers have a single zero.
- JavaScript strings are sequences of UTF-16 code units. The model uses Unicode scalar values, so lone surrogates are not represented.
- Row objects are modelled as maps. The property order of a JavaScript object, and the special treatment of a `__proto__` header name, are not modelled.
- The server-side Python code (the anomaly classifier, the Django views and the URL routing) is not part of this model. It is numerical and library-bound or request plumbing.
