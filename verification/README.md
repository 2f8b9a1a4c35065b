# json-to-csv, modelled in Dafny

This project models `parse` from `src/index.ts`, the converter that turns an
array of JSON records into delimiter-separated text. It also models the two
helpers `parse` relies on:

- `escapeCSVField` is the quote-on-demand escaping of section 2, rules 5 to 7,
  of RFC 4180;
- `valueToString` gives the text of one cell.

Errors are modelled as the `JsonToCsvError` codes. `parse` runs in this order:

1. It validates the input.
2. It collects the header: the first-seen, duplicate-free union of the
   records' keys.
3. It renders one line per record, in header order. A missing key gives an
   empty cell.
4. It joins the header line and the data lines with line feeds.

Modules, one per concern of the source:

- `Wrappers`: `Option` and `Result`.
- `Errors`: `ConvertError`, one constructor per `JsonToCsvError` code, with
  `Code()` giving the code string. `RowProcessingError` carries the 1-based row
  number and the error it wraps.
- `JsValues`: the JavaScript values the converter reads. A record is its own
  properties, in `Object.keys` order. `Lookup` is the own-property read.
- `Decimal`: `String(n)` for integral numbers, with a reader it round-trips
  with.
- `Escape`: `includes`, `replace(/"/g, '""')` and `escapeCSVField`, plus an
  RFC 4180 field reader (`ReadField`) that undoes the escaping.
- `Stringify`: `valueToString`. `JSON.stringify` is a parameter
  (`Serializer`), and `None` means it threw.
- `Headers`: the key-collection loop, both as a recursive function and as the
  nested loop the source writes, and the first-seen-order invariant of its
  result.
- `Lines`: `Array.prototype.join` and `String.prototype.split` on one
  character.
- `Converter`: delimiter validation, rows, the document and `Parse`.
- `ConverterProperties`: what a successful or failed `Parse` looks like.
- `InheritedLookup`: `row[header]` as the source writes it, reading through
  the prototype chain (see Findings).
- `WorkedExamples`: the inputs of the escaping and empty-cell cases of
  `src/__tests__/index.test.ts`, each proved to convert to the text that case
  expects.

Three consequences of the code are stated in the form in which they hold:

- The output has one line more than there are records only when no rendered
  line contains a line feed, because a quoted cell may contain one.
  `ConverterProperties.LinesRecoverable` states the line count under that
  condition.
- A data line has one cell per header key, counted before the cells are
  joined (`ConverterProperties.CellsOfRow`). Splitting the joined line at the
  delimiter can give more pieces, because a quoted cell may contain the
  delimiter.
- A serialization failure inside a row does not keep its own code. It
  surfaces as `ROW_PROCESSING_ERROR` with the 1-based row number, and the
  serialization failure is kept as its cause (`ConverterProperties.RowFailure`).

## Model

| member | source | states |
|---|---|---|
| Errors.CodeIdentifiesKind | src/index.ts:4-9 | two errors carry the same code exactly when they are the same error or both are row-processing errors |
| JsValues.Lookup | src/index.ts:131 | the corrected, own-property reading of `row[header]` (see Findings): a key the record does not own gives `undefined`; otherwise the value read is bound to that key in the record |
| Decimal.IntToDecimal | src/index.ts:65 | `String(n)` of a safe integer (`|n| <= 2^53`) is canonical decimal text that reads back as `n`: a minus sign exactly when `n` is negative, then digits with no leading zero |
| Decimal.CanonicalDigitsUnique | src/index.ts:65 | digits with no leading zero are the digits `String` gives for their value |
| Decimal.CanonicalUnique | src/index.ts:65 | the text `String(n)` gives is the only canonical text that reads back as `n` |
| Escape.ContainsChar | src/index.ts:32-35 | `includes` of a one-character string holds exactly when that character occurs in the text |
| Escape.NeedsQuotingChars | src/index.ts:31-36 | with a one-character delimiter, a field is quoted exactly when it contains the delimiter, a line feed, a carriage return or a double quote |
| Escape.DoubleQuotes | src/index.ts:38 | doubling the quotes is undone by reading `""` as `"`; the text grows by one character per quote, and every other character is kept |
| Escape.EscapeField | src/index.ts:29-42 | a field without special characters is returned unchanged; otherwise the result is enclosed in quotes, its body reads back as the field, and it is longer by two plus the number of quotes |
| Escape.EscapeRoundTrip | src/index.ts:29-42 | reading an escaped field as RFC 4180 reads it always gives back the original text |
| Escape.EscapeInjective | src/index.ts:29-42 | two different texts never escape to the same field under one delimiter |
| Escape.UnquotedFieldIsPlain | src/index.ts:29-42 | a field left unquoted contains no quote, line feed, carriage return or delimiter |
| Stringify.ValueToString | src/index.ts:49-66 | `null` and `undefined` give the empty text, never `"null"`; booleans give `true`/`false`; safe integers give canonical decimal text (minus sign only for negatives, no leading zero) that reads back as the number; strings are kept; objects and arrays give the serializer's text, and fail with `SERIALIZATION_ERROR` exactly when it throws |
| Converter.ResolveDelimiter | src/index.ts:84-95 | the option is accepted exactly when it is absent or a non-empty string; absent means `,`; a rejected option gives `INVALID_DELIMITER` |
| Headers.AddKeys | src/index.ts:109 | adding a record's keys keeps the keys already present, in place, adds no duplicate, and leaves exactly the old keys plus the record's keys |
| Headers.Gather | src/index.ts:101-110 | the scan fails exactly when some element is not a record, and then with `INVALID_DATA_TYPE`; otherwise its result holds exactly the keys of all records |
| Headers.AddKeysFirstSeen | src/index.ts:109 | adding a record's keys to a header in first-seen order of the keys met so far keeps it in first-seen order of the extended key stream |
| Headers.GatherFirstSeen | src/index.ts:101-110 | the scan of the remaining records keeps the header in first-seen order of the whole key stream |
| Headers.HeaderIsOrderedUnion | src/index.ts:99-119 | the header holds every key of every record exactly once, ordered by first occurrence; it is empty exactly when no record has a key |
| Headers.CollectHeadersLoop | src/index.ts:99-110 | the nested `for`/`forEach` loop over elements and keys computes the same header, or the same error, as the recursive scan |
| Lines.Join | src/index.ts:146 | joining nothing gives the empty text; otherwise the result starts with the first part and ends with the last, with no trailing separator |
| Lines.Split | src/__tests__/index.test.ts:59 | `split('\n')` as the tests apply it to the output gives at least one piece, and no piece contains the separator |
| Lines.JoinSnoc | src/index.ts:146 | joining one more part appends the separator and that part to the join of the others, whatever the parts contain; with `Join([p]) == p` this fixes the whole joined text |
| Lines.JoinLength | src/index.ts:146 | the joined text is as long as all the parts plus one separator between each two |
| Lines.SplitJoin | src/index.ts:146 | when no part contains the separator, splitting the joined text gives back exactly the parts |
| Converter.RenderCells | src/index.ts:129-134 | a rendered row has one cell per header key; a failure is always `SERIALIZATION_ERROR` |
| Converter.RenderCellsSucceeds | src/index.ts:129-134 | a row renders exactly when the text of each of its cells renders |
| Converter.RenderCellsCell | src/index.ts:129-134 | cell `j` of a rendered row is the escaped text of the record's value for header key `j` |
| Converter.RenderRows | src/index.ts:127-143 | a successful rendering has one line per remaining record; a failure is `ROW_PROCESSING_ERROR` naming a row in range |
| Converter.RenderRowsSucceeds | src/index.ts:127-143 | rendering succeeds exactly when every record's cells render |
| Converter.RenderRowsLine | src/index.ts:127-143 | line `k` joins the cells of record `k` with the delimiter |
| Converter.RenderRowsFirstFailure | src/index.ts:127-143 | a failure names the first record (1-based) whose cells fail, carries that record's error, and every earlier record rendered |
| Converter.DataLines | src/index.ts:127-143 | `data.map(...)` gives one line per record, in order, or `ROW_PROCESSING_ERROR` for the first record that fails, wrapping `SERIALIZATION_ERROR` |
| Converter.Document | src/index.ts:119-146 | the document is the header line followed by one line per record in input order, or the failure of the first record that fails |
| Converter.ParseLines | src/index.ts:74-146 | a rejected input gives the error of the first validation step it fails, in source order; an accepted input gives the document of its records |
| Converter.Parse | src/index.ts:74-159 | `INVALID_INPUT`, `EMPTY_INPUT`, `INVALID_DELIMITER`, `INVALID_DATA_TYPE` and `NO_PROPERTIES` are each returned exactly when every earlier check passed and their own check fails; an accepted input can only fail with `ROW_PROCESSING_ERROR` |
| ConverterProperties.ParseHeader | src/index.ts:99-124 | a successful conversion has a non-empty header in first-seen order, and its first line is that header escaped and joined |
| ConverterProperties.ParseJoinsLines | src/index.ts:146 | the output is the header line and one line per record, joined by line feeds |
| ConverterProperties.ParseRows | src/index.ts:127-146 | line `i + 1` of a successful conversion joins the rendered cells of record `i` |
| ConverterProperties.CellsOfRow | src/index.ts:127-134 | every cell is the escaped text of the record's own value for its key, and a key the record lacks gives the empty cell |
| ConverterProperties.RowErrorIsDataLinesError | src/index.ts:127-151 | a row-processing failure comes from an accepted input and is exactly the failure of the row rendering, passed on unchanged by the outer `catch` |
| ConverterProperties.RowFailure | src/index.ts:127-143 | a row failure names the first record (1-based) with a value that cannot be rendered, wraps `SERIALIZATION_ERROR`, and every earlier record rendered |
| ConverterProperties.ParseSucceeds | src/index.ts:127-146 | an accepted input converts exactly when every cell of every record renders |
| ConverterProperties.LinesRecoverable | src/index.ts:146 | when no line contains a line feed, splitting the output on line feeds gives back the lines, one more than the records |
| InheritedLookup.InheritedText | src/index.ts:131 | a text found for a key belongs to an inherited member with that name, and none is found only when no inherited member has that name |
| InheritedLookup.CellTextAsWritten | src/index.ts:131 | an owned key reads as before; a key the record lacks reads the inherited member's text when there is one, and the empty text otherwise |
| InheritedLookup.RowAsWrittenCell | src/index.ts:129-134 | cell `j` of the as-written row is the escaped as-written text for header key `j` |
| InheritedLookup.UnshadowedRowAgrees | src/index.ts:129-134 | when the prototype has no member named by any header key, the as-written row equals the own-property row, so the corrected model's properties carry over to such headers |
| InheritedLookup.ConstructorHeader | src/index.ts:99-119 | the header of `[{constructor: 'x'}, {a: 1}]` is `constructor,a` |
| InheritedLookup.ConstructorRowAsWritten | src/index.ts:131 | as written, `{a: 1}` under that header renders the `Object` constructor's text in its first cell |
| InheritedLookup.ConstructorTextEscaped | src/index.ts:131 | that first cell is not empty |
| InheritedLookup.ConstructorRowCorrected | src/index.ts:131 | reading own properties only, the same record renders an empty first cell |
| WorkedExamples.ParseOneRecord | src/index.ts:74-146 | an array of one record with two distinct keys converts to the escaped keys joined by the delimiter, a line feed, and the escaped values joined by the delimiter |
| WorkedExamples.ParseTwoRecords | src/index.ts:74-146 | an array of two records with the same three keys converts to the escaped header line and one escaped line per record, joined by line feeds |
| WorkedExamples.DelimiterFieldQuoted | src/__tests__/index.test.ts:103-110 | `{ name: 'John, Jr.', title: 'Senior Developer' }` converts to `name,title`, a line feed and `"John, Jr.",Senior Developer` |
| WorkedExamples.LineFeedFieldQuoted | src/__tests__/index.test.ts:112-119 | `{ name: 'John', description: 'Line 1\nLine 2' }` converts to `name,description`, a line feed and `John,"Line 1\nLine 2"` |
| WorkedExamples.QuotesDoubled | src/__tests__/index.test.ts:121-128 | `{ name: 'John "Johnny" Doe', quote: 'He said "Hello"' }` converts to `name,quote`, a line feed and `"John ""Johnny"" Doe","He said ""Hello"""` |
| WorkedExamples.SemicolonQuoted | src/__tests__/index.test.ts:130-137 | `{ name: 'John;Smith', age: 30 }` under `;` converts to `name;age`, a line feed and `"John;Smith";30` |
| WorkedExamples.CommaPlainUnderSemicolon | src/index.ts:31-36 | under `;` the text `John, Jr.` needs no quoting, since only the delimiter in force is special |
| WorkedExamples.NullAndUndefinedCells | src/__tests__/index.test.ts:52-63 | `[{ name: 'John', age: null, city: undefined }, { name: null, age: 25, city: 'LA' }]` converts to `name,age,city\nJohn,,\n,25,LA`, and splitting it on line feeds gives lines 1 and 2 as `John,,` and `,25,LA` |

## Left out

- `JSON.stringify`'s exact text (string escaping, key order, cycles) is a
  parameter `serialize`. It is applied only to objects and arrays, and `None`
  stands for a throw. Cyclic structures cannot be written as Dafny datatypes.
- Numbers are integers. `String()` of fractional numbers, exponents, `NaN` and
  `Infinity` is not modelled, because it is floating-point formatting.
- Decimal.IntToDecimal, Stringify.ValueToString: `Num(n)` stands for a safe
  integer (`|n| <= 2^53`) only. Above that, a JavaScript number is a rounded
  double and `String` prints the shortest digits that read back as it, padded
  with zeros (`2**64` prints as `18446744073709552000`), or switches to
  exponent form from `1e21` on. The model prints every integer exactly, so its
  text for such numbers differs from the source's.
- Text is a sequence of Unicode scalar values, while JavaScript strings are
  UTF-16 code units, so keys or values holding a lone surrogate cannot be
  written. On well-formed text `includes`, `replace`, `join` and `split`
  behave the same on either reading, so nothing modelled depends on this.
- `Object.keys` ordering quirks (integer-like keys first) are left out. A
  record's key order is taken as given.
- Functions, symbols and `BigInt` values are not in `Value`. `valueToString`
  renders them through `String()` without throwing (the function's source
  text, `Symbol(x)`, the decimal digits), and the model has no text for them.
- `JSON.stringify` returning `undefined` instead of a text (for an object
  whose `toJSON` returns `undefined`) is left out. `escapeCSVField` then
  throws a `TypeError` at `value.includes`, and the row's `catch` wraps it as
  `ROW_PROCESSING_ERROR` with a cause that is not `SERIALIZATION_ERROR`. A
  `Serializer` gives a text or a failure only, so every modelled row failure
  wraps `SERIALIZATION_ERROR`.
- Property getters that throw when `row[header]` reads them are left out,
  since a record is its data. The row's `catch` would wrap such an error as
  `ROW_PROCESSING_ERROR` with a cause other than `SERIALIZATION_ERROR`.
- `UNEXPECTED_ERROR` (src/index.ts:152-157) cannot arise from the modelled
  inputs: every failure the model can raise is already classified.
- Human-readable error messages are left out. Only the code, the row number
  and the wrapped error are kept.
- An `options` argument that is not an object is left out. The model takes
  the delimiter option as a value, and its absence is `undefined`.
- `__proto__` as a record key is left out. `InheritedLookup` models the other
  inherited members of plain objects as a parameter, and it models only the
  plain-object prototype.
- Idempotence is left out. It holds trivially in a functional model: `Parse`
  is a function, so the same input always gives the same output.
- `example.js`, `test.js` and `jest.config.js` are left out: they are demo
  scripts and test configuration with no conversion logic.

## Findings

| source | as written | input that shows it | evidently intended | confidence | as-written member | corrected member |
|---|---|---|---|---|---|---|
| src/index.ts:131 | `row[header]` reads through the prototype chain, so a record that lacks a header key still yields any member inherited from `Object.prototype` under that name | `parse([{constructor: 'x'}, {a: 1}])`: the second data line starts with the text `function Object() { [native code] }` rather than an empty cell | a key the record does not own gives an empty cell | not executed | InheritedLookup.ConstructorRowAsWritten | ConverterProperties.CellsOfRow |

The rest of the model uses the corrected, own-property reading
(`JsValues.Lookup`). `ConverterProperties.CellsOfRow` proves the intended
property for it: every key a record lacks gives the empty cell.
`InheritedLookup.ConstructorRowCorrected` shows the corrected row for the
input above.
