/**
  `parse`: validates the input, collects the header, renders one line per
  record and joins the lines with line feeds.
 */
module Converter {
  import opened Wrappers
  import opened JsValues
  import opened Errors
  import opened Escape
  import opened Stringify
  import opened Headers
  import opened Lines

  /** The `options` argument; `delimiter` is `Undefined` when the option is not given. */
  datatype Options = Options(delimiter: Value)

  /** A delimiter option that `parse` accepts: absent, or a non-empty string. */
  predicate ValidDelimiter(d: Value) {
    d.Undefined? || (d.Str? && 0 < |d.s|)
  }

  /** Validates the delimiter option and applies the default `","`. */
  function ResolveDelimiter(d: Value): (r: Result<string, ConvertError>)
    ensures r.Success? <==> ValidDelimiter(d)
    ensures r.Failure? ==> r.error == InvalidDelimiter
    ensures r.Success? ==> 0 < |r.value|
    ensures d.Undefined? ==> r == Success(",")
    ensures d.Str? && r.Success? ==> r.value == d.s
  {
    match d
    case Undefined => Success(",")
    case Str(s) => if |s| == 0 then Failure(InvalidDelimiter) else Success(s)
    case _ => Failure(InvalidDelimiter)
  }

  /** The text of the cell for `key` in a record, before escaping. */
  function CellText(fields: seq<(string, Value)>, key: string, serialize: Serializer): Result<string, ConvertError> {
    ValueToString(Lookup(fields, key), serialize)
  }

  /** The escaped cell for `key`, when its text renders. */
  function Cell(fields: seq<(string, Value)>, key: string, delimiter: string, serialize: Serializer): string
    requires CellText(fields, key, serialize).Success?
  {
    EscapeField(CellText(fields, key, serialize).value, delimiter)
  }

  /** Every cell of the record renders without a serialization failure. */
  ghost predicate RowRenders(fields: seq<(string, Value)>, headers: seq<string>, serialize: Serializer) {
    forall j :: 0 <= j < |headers| ==> CellText(fields, headers[j], serialize).Success?
  }

  /**
    The escaped cells of one data row, in header order. `RenderCellsSucceeds`
    and `RenderCellsCell` state what it yields.
   */
  function RenderCells(fields: seq<(string, Value)>, headers: seq<string>, delimiter: string, serialize: Serializer)
    : (r: Result<seq<string>, ConvertError>)
    ensures r.Failure? ==> r.error == SerializationError
    ensures r.Success? ==> |r.value| == |headers|
    decreases |headers|
  {
    if |headers| == 0 then Success([])
    else
      var text :- CellText(fields, headers[0], serialize);
      var rest :- RenderCells(fields, headers[1..], delimiter, serialize);
      Success([Cell(fields, headers[0], delimiter, serialize)] + rest)
  }

  /** The row renders exactly when the text of every one of its cells renders. */
  lemma {:induction false} RenderCellsSucceeds(fields: seq<(string, Value)>, headers: seq<string>, delimiter: string,
                                               serialize: Serializer)
    ensures RenderCells(fields, headers, delimiter, serialize).Success? <==> RowRenders(fields, headers, serialize)
    decreases |headers|
  {
    if 0 < |headers| {
      var tail := headers[1..];
      RenderCellsSucceeds(fields, tail, delimiter, serialize);
      if RowRenders(fields, headers, serialize) {
        forall j | 0 <= j < |tail|
          ensures CellText(fields, tail[j], serialize).Success?
        {
          assert tail[j] == headers[j + 1];
        }
      }
      if RenderCells(fields, headers, delimiter, serialize).Success? {
        forall j | 0 <= j < |headers|
          ensures CellText(fields, headers[j], serialize).Success?
        {
          if 0 < j {
            assert headers[j] == tail[j - 1];
          }
        }
      }
    }
  }

  /** A rendered row is its first cell followed by the cells of the remaining keys. */
  lemma RenderCellsUnfold(fields: seq<(string, Value)>, headers: seq<string>, delimiter: string, serialize: Serializer)
    requires RenderCells(fields, headers, delimiter, serialize).Success?
    requires 0 < |headers|
    ensures CellText(fields, headers[0], serialize).Success?
    ensures RenderCells(fields, headers[1..], delimiter, serialize).Success?
    ensures RenderCells(fields, headers, delimiter, serialize).value
            == [Cell(fields, headers[0], delimiter, serialize)] + RenderCells(fields, headers[1..], delimiter, serialize).value
  {
  }

  /** Cell `j` of a rendered row is the escaped text of the record's value for header key `j`. */
  lemma {:induction false} RenderCellsCell(fields: seq<(string, Value)>, headers: seq<string>, delimiter: string,
                                           serialize: Serializer, j: nat)
    requires RenderCells(fields, headers, delimiter, serialize).Success?
    requires j < |headers|
    ensures CellText(fields, headers[j], serialize).Success?
    ensures RenderCells(fields, headers, delimiter, serialize).value[j] == Cell(fields, headers[j], delimiter, serialize)
    decreases j
  {
    RenderCellsUnfold(fields, headers, delimiter, serialize);
    if 0 < j {
      var tail := headers[1..];
      RenderCellsCell(fields, tail, delimiter, serialize, j - 1);
      assert tail[j - 1] == headers[j];
    }
  }

  /** A row under a two-key header is the escaped texts of its two cells. */
  lemma RenderCellsPair(fields: seq<(string, Value)>, first: string, second: string, delimiter: string,
                        serialize: Serializer, text1: string, text2: string)
    requires CellText(fields, first, serialize) == Success(text1)
    requires CellText(fields, second, serialize) == Success(text2)
    ensures RenderCells(fields, [first, second], delimiter, serialize)
            == Success([EscapeField(text1, delimiter), EscapeField(text2, delimiter)])
  {
    var headers := [first, second];
    var one := [second];
    assert headers[1..] == one && one[1..] == [];
    assert RenderCells(fields, [], delimiter, serialize) == Success([]);
    var tail := RenderCells(fields, one, delimiter, serialize);
    assert tail.Success? && tail.value == [EscapeField(text2, delimiter)];
    assert headers[0] == first;
    assert RenderCells(fields, headers, delimiter, serialize) == Success([EscapeField(text1, delimiter)] + tail.value);
    assert [EscapeField(text1, delimiter)] + tail.value == [EscapeField(text1, delimiter), EscapeField(text2, delimiter)];
  }

  /**
    The data lines, from the cells of each record (`rows[k]` for the record at
    0-based index `k`), starting at index `i`. The first record whose cells
    fail aborts the whole `map` with `RowProcessingError` carrying its 1-based
    number; otherwise each record gives the line of its cells joined by the
    delimiter. `RenderRowsSucceeds`, `RenderRowsLine` and
    `RenderRowsFirstFailure` state both outcomes.
   */
  function RenderRows(rows: seq<Result<seq<string>, ConvertError>>, delimiter: string, i: nat)
    : (r: Result<seq<string>, ConvertError>)
    requires i <= |rows|
    ensures r.Success? ==> |r.value| == |rows| - i
    ensures r.Failure? ==> r.error.RowProcessingError? && i < r.error.row <= |rows|
    decreases |rows| - i
  {
    if i == |rows| then Success([])
    else if rows[i].Failure? then Failure(RowProcessingError(i + 1, rows[i].error))
    else
      var rest :- RenderRows(rows, delimiter, i + 1);
      Success([Join(rows[i].value, delimiter)] + rest)
  }

  /** Rendering from `i` succeeds exactly when the cells of every record from `i` on render. */
  lemma {:induction false} RenderRowsSucceeds(rows: seq<Result<seq<string>, ConvertError>>, delimiter: string, i: nat)
    requires i <= |rows|
    ensures RenderRows(rows, delimiter, i).Success? <==> forall k :: i <= k < |rows| ==> rows[k].Success?
    decreases |rows| - i
  {
    if i < |rows| && rows[i].Success? {
      RenderRowsSucceeds(rows, delimiter, i + 1);
    }
  }

  /** A successful rendering from `i` is the line of record `i` followed by the lines after it. */
  lemma RenderRowsUnfold(rows: seq<Result<seq<string>, ConvertError>>, delimiter: string, i: nat)
    requires i < |rows|
    requires RenderRows(rows, delimiter, i).Success?
    ensures rows[i].Success? && RenderRows(rows, delimiter, i + 1).Success?
    ensures RenderRows(rows, delimiter, i).value
            == [Join(rows[i].value, delimiter)] + RenderRows(rows, delimiter, i + 1).value
  {
  }

  /** Line `k` of a successful rendering from `i` joins the cells of record `i + k`. */
  lemma {:induction false} RenderRowsLine(rows: seq<Result<seq<string>, ConvertError>>, delimiter: string, i: nat, k: nat)
    requires i <= |rows|
    requires RenderRows(rows, delimiter, i).Success?
    requires k < |rows| - i
    ensures rows[i + k].Success?
    ensures RenderRows(rows, delimiter, i).value[k] == Join(rows[i + k].value, delimiter)
    decreases k
  {
    RenderRowsUnfold(rows, delimiter, i);
    if 0 < k {
      RenderRowsLine(rows, delimiter, i + 1, k - 1);
    }
  }

  /**
    When rendering fails, the error names the first record (1-based) from `i`
    on whose cells fail, and carries that record's error.
   */
  lemma {:induction false} RenderRowsFirstFailure(rows: seq<Result<seq<string>, ConvertError>>, delimiter: string, i: nat)
    requires i <= |rows|
    requires RenderRows(rows, delimiter, i).Failure?
    ensures
      var e := RenderRows(rows, delimiter, i).error;
      && rows[e.row - 1].Failure?
      && e.cause == rows[e.row - 1].error
      && forall k :: i <= k < e.row - 1 ==> rows[k].Success?
    decreases |rows| - i
  {
    if rows[i].Success? {
      RenderRowsFirstFailure(rows, delimiter, i + 1);
      assert RenderRows(rows, delimiter, i) == RenderRows(rows, delimiter, i + 1);
    }
  }

  /** Every element of the input is a record. */
  ghost predicate AllRecords(items: seq<Value>) {
    forall i :: 0 <= i < |items| ==> IsRecord(items[i])
  }

  /** The records' own properties, once every element is known to be a record. */
  function Records(items: seq<Value>): (rs: seq<seq<(string, Value)>>)
    requires forall i :: 0 <= i < |items| ==> items[i].Obj?
    ensures |rs| == |items|
    ensures forall i :: 0 <= i < |items| ==> rs[i] == items[i].fields
    decreases |items|
  {
    if |items| == 0 then []
    else
      var rest := Records(items[1..]);
      assert forall i :: 1 <= i < |items| ==> items[i] == items[1..][i - 1];
      [items[0].fields] + rest
  }

  /** The header line: each key escaped like a field, joined by the delimiter. */
  function HeaderLine(headers: seq<string>, delimiter: string): string {
    Join(seq(|headers|, j requires 0 <= j < |headers| => EscapeField(headers[j], delimiter)), delimiter)
  }

  /** The input passes every validation step of `parse`. */
  ghost predicate Accepted(data: Value, options: Options) {
    && data.Arr?
    && 0 < |data.elems|
    && ValidDelimiter(options.delimiter)
    && AllRecords(data.elems)
    && 0 < |KeyStream(data.elems)|
  }

  /** The delimiter in force once the option has been validated. */
  function DelimiterOf(options: Options): string
    requires ValidDelimiter(options.delimiter)
  {
    ResolveDelimiter(options.delimiter).value
  }

  /** The header list, once every element is known to be a record. */
  function HeadersOf(items: seq<Value>): seq<string>
    requires AllRecords(items)
  {
    CollectHeaders(items).value
  }

  /** The cells of each record, in input order. */
  function RowResults(records: seq<seq<(string, Value)>>, headers: seq<string>, delimiter: string, serialize: Serializer)
    : (rows: seq<Result<seq<string>, ConvertError>>)
    ensures |rows| == |records|
    ensures forall k :: 0 <= k < |records| ==> rows[k] == RenderCells(records[k], headers, delimiter, serialize)
    decreases |records|
  {
    if |records| == 0 then []
    else
      var rest := RowResults(records[1..], headers, delimiter, serialize);
      assert forall k :: 1 <= k < |records| ==> records[k] == records[1..][k - 1];
      [RenderCells(records[0], headers, delimiter, serialize)] + rest
  }

  /**
    `data.map(...)`: one line per record, or the error of the first record
    whose cells fail.
   */
  function DataLines(records: seq<seq<(string, Value)>>, headers: seq<string>, delimiter: string, serialize: Serializer)
    : (r: Result<seq<string>, ConvertError>)
    ensures r.Success? <==> forall i :: 0 <= i < |records| ==> RenderCells(records[i], headers, delimiter, serialize).Success?
    ensures r.Success? ==> |r.value| == |records|
    ensures r.Success? ==> forall i :: 0 <= i < |records| ==>
              r.value[i] == Join(RenderCells(records[i], headers, delimiter, serialize).value, delimiter)
    ensures r.Failure? ==> r.error.RowProcessingError? && 1 <= r.error.row <= |records|
    ensures r.Failure? ==> r.error.cause == SerializationError
    ensures r.Failure? ==> RenderCells(records[r.error.row - 1], headers, delimiter, serialize).Failure?
    ensures r.Failure? ==> forall k :: 0 <= k < r.error.row - 1 ==> RenderCells(records[k], headers, delimiter, serialize).Success?
  {
    var rows := RowResults(records, headers, delimiter, serialize);
    DataLinesSucceed(records, headers, delimiter, serialize);
    var r := RenderRows(rows, delimiter, 0);
    if r.Success? then
      assert forall i :: 0 <= i < |records| ==>
        r.value[i] == Join(RenderCells(records[i], headers, delimiter, serialize).value, delimiter) by {
        forall i | 0 <= i < |records|
          ensures r.value[i] == Join(RenderCells(records[i], headers, delimiter, serialize).value, delimiter)
        {
          DataLinesLine(records, headers, delimiter, serialize, i);
        }
      }
      r
    else
      DataLinesFailure(records, headers, delimiter, serialize);
      r
  }

  /** `RenderRows` over the cells of the records succeeds exactly when every record's cells render. */
  lemma DataLinesSucceed(records: seq<seq<(string, Value)>>, headers: seq<string>, delimiter: string, serialize: Serializer)
    ensures RenderRows(RowResults(records, headers, delimiter, serialize), delimiter, 0).Success? <==>
              forall i :: 0 <= i < |records| ==> RenderCells(records[i], headers, delimiter, serialize).Success?
  {
    RenderRowsSucceeds(RowResults(records, headers, delimiter, serialize), delimiter, 0);
  }

  /** Line `i` of `RenderRows` over the cells of the records joins the cells of record `i`. */
  lemma DataLinesLine(records: seq<seq<(string, Value)>>, headers: seq<string>, delimiter: string,
                      serialize: Serializer, i: nat)
    requires RenderRows(RowResults(records, headers, delimiter, serialize), delimiter, 0).Success?
    requires i < |records|
    ensures RenderCells(records[i], headers, delimiter, serialize).Success?
    ensures RenderRows(RowResults(records, headers, delimiter, serialize), delimiter, 0).value[i]
            == Join(RenderCells(records[i], headers, delimiter, serialize).value, delimiter)
  {
    RenderRowsLine(RowResults(records, headers, delimiter, serialize), delimiter, 0, i);
  }

  /** A failure of `RenderRows` over the cells of the records names the first record whose cells fail. */
  lemma DataLinesFailure(records: seq<seq<(string, Value)>>, headers: seq<string>, delimiter: string, serialize: Serializer)
    requires RenderRows(RowResults(records, headers, delimiter, serialize), delimiter, 0).Failure?
    ensures
      var e := RenderRows(RowResults(records, headers, delimiter, serialize), delimiter, 0).error;
      && e.cause == SerializationError
      && RenderCells(records[e.row - 1], headers, delimiter, serialize).Failure?
      && forall k :: 0 <= k < e.row - 1 ==> RenderCells(records[k], headers, delimiter, serialize).Success?
  {
    var rows := RowResults(records, headers, delimiter, serialize);
    RenderRowsFirstFailure(rows, delimiter, 0);
  }

  /**
    The lines of the output document for records that passed validation: the
    header line, then one line per record in input order, each with one cell
    per header key; or the error of the first record whose cells fail.
   */
  function Document(records: seq<seq<(string, Value)>>, headers: seq<string>, delimiter: string, serialize: Serializer)
    : (r: Result<seq<string>, ConvertError>)
    ensures r.Success? <==> forall i :: 0 <= i < |records| ==> RenderCells(records[i], headers, delimiter, serialize).Success?
    ensures r.Success? ==> |r.value| == 1 + |records|
    ensures r.Success? ==> r.value[0] == HeaderLine(headers, delimiter)
    ensures r.Success? ==> forall i :: 0 <= i < |records| ==>
              r.value[i + 1] == Join(RenderCells(records[i], headers, delimiter, serialize).value, delimiter)
    ensures r.Failure? ==> r == DataLines(records, headers, delimiter, serialize)
  {
    var rows :- DataLines(records, headers, delimiter, serialize);
    var lines := [HeaderLine(headers, delimiter)] + rows;
    assert forall i :: 0 <= i < |rows| ==> lines[i + 1] == rows[i];
    Success(lines)
  }

  /**
    The error of the first validation step an input that is not accepted
    fails, in the order `parse` runs them.
   */
  ghost function FirstRejection(data: Value, options: Options): ConvertError
    requires !Accepted(data, options)
  {
    if !data.Arr? then InvalidInput
    else if |data.elems| == 0 then EmptyInput
    else if !ValidDelimiter(options.delimiter) then InvalidDelimiter
    else if !AllRecords(data.elems) then InvalidDataType
    else NoProperties
  }

  /** The lines of the output document, before they are joined. */
  function ParseLines(data: Value, options: Options, serialize: Serializer): (r: Result<seq<string>, ConvertError>)
    ensures r.Success? ==> Accepted(data, options)
    ensures Accepted(data, options) ==>
              r == Document(Records(data.elems), HeadersOf(data.elems), DelimiterOf(options), serialize)
    ensures !Accepted(data, options) ==> r == Failure(FirstRejection(data, options))
  {
    if !data.Arr? then Failure(InvalidInput)
    else if |data.elems| == 0 then Failure(EmptyInput)
    else
      var delimiter :- ResolveDelimiter(options.delimiter);
      var headers :- CollectHeaders(data.elems);
      HeaderIsOrderedUnion(data.elems);
      if |headers| == 0 then
        Failure(NoProperties)
      else
        Document(Records(data.elems), headers, delimiter, serialize)
  }

  /**
    `parse(data, options)`. The validation steps run in source order, so each
    error code is returned exactly when every earlier check passed and its own
    check fails.
   */
  function Parse(data: Value, options: Options, serialize: Serializer): (r: Result<string, ConvertError>)
    ensures !data.Arr? ==> r == Failure(InvalidInput)
    ensures data.Arr? && |data.elems| == 0 ==> r == Failure(EmptyInput)
    ensures data.Arr? && 0 < |data.elems| && !ValidDelimiter(options.delimiter) ==>
              r == Failure(InvalidDelimiter)
    ensures data.Arr? && 0 < |data.elems| && ValidDelimiter(options.delimiter) && !AllRecords(data.elems) ==>
              r == Failure(InvalidDataType)
    ensures data.Arr? && 0 < |data.elems| && ValidDelimiter(options.delimiter) && AllRecords(data.elems)
            && |KeyStream(data.elems)| == 0 ==>
              r == Failure(NoProperties)
    ensures Accepted(data, options) && r.Failure? ==> r.error.RowProcessingError?
  {
    var lines :- ParseLines(data, options, serialize);
    Success(Join(lines, "\n"))
  }
}
