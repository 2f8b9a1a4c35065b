/** What a successful or failed conversion looks like, stated over the lines before they are joined. */
module ConverterProperties {
  import opened Wrappers
  import opened JsValues
  import opened Errors
  import opened Escape
  import opened Stringify
  import opened Headers
  import opened Lines
  import opened Converter

  /**
    The header of a successful conversion holds each key of the records
    exactly once, in first-seen order, and is never empty.
   */
  lemma ParseHeader(data: Value, options: Options, serialize: Serializer)
    requires Parse(data, options, serialize).Success?
    ensures Accepted(data, options)
    ensures 1 <= |HeadersOf(data.elems)|
    ensures FirstSeenOrder(HeadersOf(data.elems), KeyStream(data.elems))
    ensures ParseLines(data, options, serialize).value[0] == HeaderLine(HeadersOf(data.elems), DelimiterOf(options))
  {
    HeaderIsOrderedUnion(data.elems);
  }

  /**
    A successful conversion is its lines joined by line feeds: one header line
    and one line per record, with no trailing line feed.
   */
  lemma ParseJoinsLines(data: Value, options: Options, serialize: Serializer)
    requires Parse(data, options, serialize).Success?
    ensures ParseLines(data, options, serialize).Success?
    ensures Parse(data, options, serialize).value == Join(ParseLines(data, options, serialize).value, "\n")
    ensures |ParseLines(data, options, serialize).value| == 1 + |data.elems|
  {
  }

  /**
    The line of record `i` in a successful conversion joins that record's
    cells, in input order, with the delimiter.
   */
  lemma ParseRows(data: Value, options: Options, serialize: Serializer)
    requires Parse(data, options, serialize).Success?
    ensures Accepted(data, options)
    ensures
      var lines := ParseLines(data, options, serialize).value;
      && |lines| == 1 + |data.elems|
      && forall i :: 0 <= i < |data.elems| ==>
           && RenderCells(data.elems[i].fields, HeadersOf(data.elems), DelimiterOf(options), serialize).Success?
           && lines[i + 1] ==
                Join(RenderCells(data.elems[i].fields, HeadersOf(data.elems), DelimiterOf(options), serialize).value,
                     DelimiterOf(options))
  {
    var records := Records(data.elems);
    var headers := HeadersOf(data.elems);
    var d := DelimiterOf(options);
    var doc := Document(records, headers, d, serialize);
    assert ParseLines(data, options, serialize) == doc;
    forall i | 0 <= i < |data.elems|
      ensures RenderCells(data.elems[i].fields, headers, d, serialize).Success?
      ensures doc.value[i + 1] == Join(RenderCells(data.elems[i].fields, headers, d, serialize).value, d)
    {
      assert records[i] == data.elems[i].fields;
    }
  }

  /**
    Cell `j` of a rendered row is the escaped text of the record's value for
    header key `j`; with a non-empty delimiter, a key the record lacks gives
    the empty cell.
   */
  lemma CellsOfRow(fields: seq<(string, Value)>, headers: seq<string>, delimiter: string, serialize: Serializer)
    requires 0 < |delimiter|
    requires RenderCells(fields, headers, delimiter, serialize).Success?
    ensures
      var row := RenderCells(fields, headers, delimiter, serialize).value;
      && |row| == |headers|
      && (forall j :: 0 <= j < |headers| ==>
            && ValueToString(Lookup(fields, headers[j]), serialize).Success?
            && row[j] == EscapeField(ValueToString(Lookup(fields, headers[j]), serialize).value, delimiter))
      && (forall j :: 0 <= j < |headers| && headers[j] !in Keys(fields) ==> row[j] == "")
  {
    var row := RenderCells(fields, headers, delimiter, serialize).value;
    forall j | 0 <= j < |headers|
      ensures ValueToString(Lookup(fields, headers[j]), serialize).Success?
      ensures row[j] == EscapeField(ValueToString(Lookup(fields, headers[j]), serialize).value, delimiter)
      ensures headers[j] !in Keys(fields) ==> row[j] == ""
    {
      RenderCellsCell(fields, headers, delimiter, serialize, j);
      if headers[j] !in Keys(fields) {
        assert !Contains("", delimiter);
      }
    }
  }

  /** A row-processing failure comes from an accepted input, and is the failure of `data.map(...)`. */
  lemma RowErrorIsDataLinesError(data: Value, options: Options, serialize: Serializer)
    requires Parse(data, options, serialize).Failure?
    requires Parse(data, options, serialize).error.RowProcessingError?
    ensures Accepted(data, options)
    ensures DataLines(Records(data.elems), HeadersOf(data.elems), DelimiterOf(options), serialize).Failure?
    ensures Parse(data, options, serialize).error
            == DataLines(Records(data.elems), HeadersOf(data.elems), DelimiterOf(options), serialize).error
  {
    var lines := ParseLines(data, options, serialize);
    assert lines.Failure? && lines.error == Parse(data, options, serialize).error;
  }

  /**
    A failure while rendering rows names the first record (1-based) that has a
    value `serialize` cannot render, and wraps `SerializationError`; every
    earlier record rendered.
   */
  lemma RowFailure(data: Value, options: Options, serialize: Serializer)
    requires Parse(data, options, serialize).Failure?
    requires Parse(data, options, serialize).error.RowProcessingError?
    ensures Accepted(data, options)
    ensures
      var e := Parse(data, options, serialize).error;
      && 1 <= e.row <= |data.elems|
      && e.cause == SerializationError
      && !RowRenders(data.elems[e.row - 1].fields, HeadersOf(data.elems), serialize)
      && forall k :: 0 <= k < e.row - 1 ==> RowRenders(data.elems[k].fields, HeadersOf(data.elems), serialize)
  {
    RowErrorIsDataLinesError(data, options, serialize);
    var records := Records(data.elems);
    var e := Parse(data, options, serialize).error;
    var rows := DataLines(records, HeadersOf(data.elems), DelimiterOf(options), serialize);
    assert rows.error == e;
    assert records[e.row - 1] == data.elems[e.row - 1].fields;
    RenderCellsSucceeds(records[e.row - 1], HeadersOf(data.elems), DelimiterOf(options), serialize);
    forall k | 0 <= k < e.row - 1
      ensures RowRenders(data.elems[k].fields, HeadersOf(data.elems), serialize)
    {
      assert records[k] == data.elems[k].fields;
      RenderCellsSucceeds(records[k], HeadersOf(data.elems), DelimiterOf(options), serialize);
    }
  }

  /**
    An accepted input converts successfully exactly when every cell of every
    record renders.
   */
  lemma ParseSucceeds(data: Value, options: Options, serialize: Serializer)
    requires Accepted(data, options)
    ensures Parse(data, options, serialize).Success? <==>
              forall i :: 0 <= i < |data.elems| ==> RowRenders(data.elems[i].fields, HeadersOf(data.elems), serialize)
  {
    var records := Records(data.elems);
    var headers := HeadersOf(data.elems);
    var d := DelimiterOf(options);
    var doc := Document(records, headers, d, serialize);
    assert ParseLines(data, options, serialize) == doc;
    assert Parse(data, options, serialize).Success? <==> doc.Success?;
    forall i | 0 <= i < |data.elems|
      ensures RenderCells(records[i], headers, d, serialize).Success? <==> RowRenders(data.elems[i].fields, headers, serialize)
    {
      assert records[i] == data.elems[i].fields;
      RenderCellsSucceeds(records[i], headers, d, serialize);
    }
  }

  /**
    When no line of the document contains a line feed, splitting the output on
    line feeds recovers the lines: one header line and one line per record.
   */
  lemma LinesRecoverable(data: Value, options: Options, serialize: Serializer)
    requires Parse(data, options, serialize).Success?
    requires forall k :: 0 <= k < |ParseLines(data, options, serialize).value| ==>
               '\n' !in ParseLines(data, options, serialize).value[k]
    ensures Split(Parse(data, options, serialize).value, '\n') == ParseLines(data, options, serialize).value
    ensures |Split(Parse(data, options, serialize).value, '\n')| == 1 + |data.elems|
  {
    ParseRows(data, options, serialize);
    SplitJoin(ParseLines(data, options, serialize).value, '\n');
  }
}
