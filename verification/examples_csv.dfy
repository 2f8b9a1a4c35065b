/**
  `parse` on the inputs of cases in `src/__tests__/index.test.ts`: each main
  lemma proves that the model gives the text that case expects. General facts
  about one- and two-record conversions come first. For each case, the facts
  about single characters of its texts (`...Chars`) and the concatenations of
  literal texts (`...Text`, `...Line`) are separate lemmas, apart from the
  escaping steps that use them (`...Cells`).
 */
module WorkedExamples {
  import opened Wrappers
  import opened JsValues
  import opened Decimal
  import opened Escape
  import opened Stringify
  import opened Headers
  import opened Lines
  import opened Converter

  /** A field that needs quoting is its doubled-quote body between two quotes. */
  lemma QuotedForm(value: string, delimiter: string)
    requires NeedsQuoting(value, delimiter)
    ensures EscapeField(value, delimiter) == "\"" + DoubleQuotes(value) + "\""
  {
  }

  /** Doubling the quotes of a quote-free text changes nothing. */
  lemma {:induction false} QuoteFree(s: string)
    requires '"' !in s
    ensures DoubleQuotes(s) == s
    decreases |s|
  {
    if 0 < |s| {
      assert s == [s[0]] + s[1..];
      QuoteFree(s[1..]);
    }
  }

  /** Doubling the quotes works piece by piece. */
  lemma {:induction false} DoubleQuotesAppend(a: string, b: string)
    ensures DoubleQuotes(a + b) == DoubleQuotes(a) + DoubleQuotes(b)
    decreases |a|
  {
    if |a| == 0 {
      assert a + b == b;
    } else {
      assert (a + b)[0] == a[0] && (a + b)[1..] == a[1..] + b;
      DoubleQuotesAppend(a[1..], b);
    }
  }

  /** No character of `s` is a double quote. */
  predicate QuoteFreeText(s: string) {
    forall i :: 0 <= i < |s| ==> s[i] != '"'
  }

  /** No character of `s` is the delimiter `c`, a line feed, a carriage return or a double quote. */
  predicate PlainField(s: string, c: char) {
    forall i :: 0 <= i < |s| ==> s[i] != c && s[i] != '\n' && s[i] != '\r' && s[i] != '"'
  }

  /** A quote-free text that needs quoting is only enclosed in quotes. */
  lemma EnclosedOnly(s: string, c: char, i: nat)
    requires QuoteFreeText(s)
    requires i < |s| && (s[i] == c || s[i] == '\n')
    ensures EscapeField(s, [c]) == "\"" + s + "\""
  {
    NeedsQuotingChars(s, c);
    QuotedForm(s, [c]);
    QuoteFree(s);
  }

  /** A text holding a double quote is quoted. */
  lemma QuotedWithQuote(s: string, c: char, i: nat)
    requires i < |s| && s[i] == '"'
    ensures EscapeField(s, [c]) == "\"" + DoubleQuotes(s) + "\""
  {
    NeedsQuotingChars(s, c);
    QuotedForm(s, [c]);
  }

  /** A text without special characters is left as it is. */
  lemma PlainText(s: string, c: char)
    requires PlainField(s, c)
    ensures EscapeField(s, [c]) == s
  {
    NeedsQuotingChars(s, c);
  }

  /** A text quoting one quote-free passage has both of its quotes doubled. */
  lemma QuotedPassage(a: string, b: string, c: string)
    requires QuoteFreeText(a) && QuoteFreeText(b) && QuoteFreeText(c)
    ensures DoubleQuotes(a + "\"" + b + "\"" + c) == a + "\"\"" + b + "\"\"" + c
  {
    QuoteFree(a);
    QuoteFree(b);
    QuoteFree(c);
    assert DoubleQuotes("\"") == "\"\"" by {
      assert "\""[1..] == "";
    }
    DoubleQuotesAppend(a + "\"" + b + "\"", c);
    DoubleQuotesAppend(a + "\"" + b, "\"");
    DoubleQuotesAppend(a + "\"", b);
    DoubleQuotesAppend(a, "\"");
  }

  lemma JoinPair(x: string, y: string, sep: string)
    ensures Join([x, y], sep) == x + sep + y
  {
    var parts := [x, y];
    assert parts[1..] == [y];
  }

  lemma JoinThree(x: string, y: string, z: string, sep: string)
    ensures Join([x, y, z], sep) == x + sep + (y + sep + z)
  {
    var parts := [x, y, z];
    assert parts[1..] == [y, z];
    JoinPair(y, z, sep);
  }

  /** The header line of a two-key header. */
  lemma HeaderLinePair(k1: string, k2: string, delimiter: string)
    ensures HeaderLine([k1, k2], delimiter) == EscapeField(k1, delimiter) + delimiter + EscapeField(k2, delimiter)
  {
    var headers := [k1, k2];
    var cells := seq(|headers|, j requires 0 <= j < |headers| => EscapeField(headers[j], delimiter));
    assert cells == [EscapeField(k1, delimiter), EscapeField(k2, delimiter)];
    JoinPair(EscapeField(k1, delimiter), EscapeField(k2, delimiter), delimiter);
  }

  /** The header line of a three-key header. */
  lemma HeaderLineTriple(k1: string, k2: string, k3: string, delimiter: string)
    ensures HeaderLine([k1, k2, k3], delimiter)
            == Join([EscapeField(k1, delimiter), EscapeField(k2, delimiter), EscapeField(k3, delimiter)], delimiter)
  {
    var headers := [k1, k2, k3];
    var cells := seq(|headers|, j requires 0 <= j < |headers| => EscapeField(headers[j], delimiter));
    assert cells == [EscapeField(k1, delimiter), EscapeField(k2, delimiter), EscapeField(k3, delimiter)];
  }

  /** The own-property row under a three-key header. */
  lemma RenderCellsTriple(fields: seq<(string, Value)>, k1: string, k2: string, k3: string, delimiter: string,
                          serialize: Serializer, t1: string, t2: string, t3: string)
    requires CellText(fields, k1, serialize) == Success(t1)
    requires CellText(fields, k2, serialize) == Success(t2)
    requires CellText(fields, k3, serialize) == Success(t3)
    ensures RenderCells(fields, [k1, k2, k3], delimiter, serialize)
            == Success([EscapeField(t1, delimiter), EscapeField(t2, delimiter), EscapeField(t3, delimiter)])
  {
    var headers := [k1, k2, k3];
    var rest := [k2, k3];
    assert headers[1..] == rest && headers[0] == k1;
    RenderCellsPair(fields, k2, k3, delimiter, serialize, t2, t3);
    var tail := [EscapeField(t2, delimiter), EscapeField(t3, delimiter)];
    assert RenderCells(fields, rest, delimiter, serialize) == Success(tail);
    assert Cell(fields, k1, delimiter, serialize) == EscapeField(t1, delimiter);
    assert RenderCells(fields, headers, delimiter, serialize) == Success([EscapeField(t1, delimiter)] + tail);
    assert [EscapeField(t1, delimiter)] + tail
           == [EscapeField(t1, delimiter), EscapeField(t2, delimiter), EscapeField(t3, delimiter)];
  }

  /** Keys the header already holds add nothing to it. */
  lemma {:induction false} AddKnownKeys(acc: seq<string>, keys: seq<string>)
    requires forall k :: 0 <= k < |keys| ==> keys[k] in acc
    ensures AddKeys(acc, keys) == acc
    decreases |keys|
  {
    if 0 < |keys| {
      assert AddKey(acc, keys[0]) == acc;
      AddKnownKeys(acc, keys[1..]);
    }
  }

  /** The document of one record whose cells render. */
  lemma DocumentOfOne(first: seq<(string, Value)>, headers: seq<string>, delimiter: string, serialize: Serializer,
                      cells: seq<string>)
    requires RenderCells(first, headers, delimiter, serialize) == Success(cells)
    ensures Document([first], headers, delimiter, serialize)
            == Success([HeaderLine(headers, delimiter), Join(cells, delimiter)])
  {
    var records := [first];
    assert records[0] == first;
    var doc := Document(records, headers, delimiter, serialize);
    assert doc.Success?;
    assert doc.value == [doc.value[0], doc.value[1]];
  }

  /** The document of two records whose cells render. */
  lemma DocumentOfTwo(first: seq<(string, Value)>, second: seq<(string, Value)>, headers: seq<string>,
                      delimiter: string, serialize: Serializer, cells1: seq<string>, cells2: seq<string>)
    requires RenderCells(first, headers, delimiter, serialize) == Success(cells1)
    requires RenderCells(second, headers, delimiter, serialize) == Success(cells2)
    ensures Document([first, second], headers, delimiter, serialize)
            == Success([HeaderLine(headers, delimiter), Join(cells1, delimiter), Join(cells2, delimiter)])
  {
    var records := [first, second];
    assert records[0] == first && records[1] == second;
    var doc := Document(records, headers, delimiter, serialize);
    assert doc.Success?;
    assert |doc.value| == 3;
    assert doc.value[1] == Join(cells1, delimiter);
    assert doc.value[2] == Join(cells2, delimiter);
    assert doc.value == [doc.value[0], doc.value[1], doc.value[2]];
  }

  /** An array of records with a non-empty header converts to the lines of its document, joined by line feeds. */
  lemma ParseOfHeader(items: seq<Value>, options: Options, serialize: Serializer, headers: seq<string>)
    requires 0 < |items| && ValidDelimiter(options.delimiter)
    requires CollectHeaders(items) == Success(headers) && 0 < |headers|
    requires Document(Records(items), headers, DelimiterOf(options), serialize).Success?
    ensures Parse(Arr(items), options, serialize)
            == Success(Join(Document(Records(items), headers, DelimiterOf(options), serialize).value, "\n"))
  {
    HeaderIsOrderedUnion(items);
  }

  /** The cell texts of a record with three distinct keys. */
  lemma TripleCellTexts(k1: string, k2: string, k3: string, v1: Value, v2: Value, v3: Value, serialize: Serializer)
    requires k1 != k2 && k1 != k3 && k2 != k3
    ensures Keys([(k1, v1), (k2, v2), (k3, v3)]) == [k1, k2, k3]
    ensures CellText([(k1, v1), (k2, v2), (k3, v3)], k1, serialize) == ValueToString(v1, serialize)
    ensures CellText([(k1, v1), (k2, v2), (k3, v3)], k2, serialize) == ValueToString(v2, serialize)
    ensures CellText([(k1, v1), (k2, v2), (k3, v3)], k3, serialize) == ValueToString(v3, serialize)
  {
    var fields := [(k1, v1), (k2, v2), (k3, v3)];
    var rest := [(k2, v2), (k3, v3)];
    var last := [(k3, v3)];
    assert fields[1..] == rest && rest[1..] == last;
    assert Lookup(fields, k1) == v1;
    assert Lookup(fields, k2) == Lookup(rest, k2) == v2;
    assert Lookup(fields, k3) == Lookup(rest, k3) == Lookup(last, k3) == v3;
  }

  /**
    A one-record array whose record has two distinct keys converts to the
    escaped header line and the escaped values, joined by a line feed.
   */
  lemma ParseOneRecord(k1: string, v1: Value, k2: string, v2: Value, options: Options, serialize: Serializer,
                       t1: string, t2: string)
    requires k1 != k2
    requires ValidDelimiter(options.delimiter)
    requires ValueToString(v1, serialize) == Success(t1)
    requires ValueToString(v2, serialize) == Success(t2)
    ensures
      var d := DelimiterOf(options);
      Parse(Arr([Obj([(k1, v1), (k2, v2)])]), options, serialize)
      == Success(EscapeField(k1, d) + d + EscapeField(k2, d) + "\n" + (EscapeField(t1, d) + d + EscapeField(t2, d)))
  {
    var d := DelimiterOf(options);
    var fields := [(k1, v1), (k2, v2)];
    var items := [Obj(fields)];
    var data := Arr(items);
    assert Keys(fields) == [k1, k2];
    assert KeyStream(items) == [k1, k2] by {
      assert KeyStream(items[1..]) == [];
    }
    assert AddKeys([], [k1, k2]) == [k1, k2] by {
      var keys := [k1, k2];
      var tail := [k2];
      assert keys[1..] == tail && tail[1..] == [];
      assert AddKey([], k1) == [k1];
      assert AddKeys([], keys) == AddKeys([k1], tail);
      assert AddKey([k1], k2) == [k1, k2];
      assert AddKeys([k1], tail) == AddKeys([k1, k2], []);
    }
    assert CollectHeaders(items) == Success([k1, k2]) by {
      assert Gather(items[1..], [k1, k2]) == Success([k1, k2]);
    }
    assert Records(items) == [fields];
    assert Lookup(fields, k1) == v1;
    assert Lookup(fields, k2) == v2;
    RenderCellsPair(fields, k1, k2, d, serialize, t1, t2);
    DocumentOfOne(fields, [k1, k2], d, serialize, [EscapeField(t1, d), EscapeField(t2, d)]);
    assert ParseLines(data, options, serialize)
           == Success([HeaderLine([k1, k2], d), Join([EscapeField(t1, d), EscapeField(t2, d)], d)]);
    HeaderLinePair(k1, k2, d);
    JoinPair(EscapeField(t1, d), EscapeField(t2, d), d);
    JoinPair(HeaderLine([k1, k2], d), Join([EscapeField(t1, d), EscapeField(t2, d)], d), "\n");
  }

  /** The three keys of a record, in order, as the header collects them. */
  lemma TripleHeader(k1: string, k2: string, k3: string)
    requires k1 != k2 && k1 != k3 && k2 != k3
    ensures AddKeys([], [k1, k2, k3]) == [k1, k2, k3]
  {
    var keys := [k1, k2, k3];
    var rest := [k2, k3];
    var last := [k3];
    assert keys[1..] == rest && rest[1..] == last && last[1..] == [];
    assert AddKey([], k1) == [k1];
    assert AddKeys([], keys) == AddKeys([k1], rest);
    assert AddKey([k1], k2) == [k1, k2];
    assert AddKeys([k1], rest) == AddKeys([k1, k2], last);
    assert AddKey([k1, k2], k3) == [k1, k2, k3];
    assert AddKeys([k1, k2], last) == AddKeys([k1, k2, k3], []);
  }

  /** Two records with the same three distinct keys give those keys as the header. */
  lemma SameKeysHeader(first: seq<(string, Value)>, second: seq<(string, Value)>, k1: string, k2: string, k3: string)
    requires k1 != k2 && k1 != k3 && k2 != k3
    requires Keys(first) == [k1, k2, k3] && Keys(second) == [k1, k2, k3]
    ensures CollectHeaders([Obj(first), Obj(second)]) == Success([k1, k2, k3])
    ensures Records([Obj(first), Obj(second)]) == [first, second]
  {
    var items := [Obj(first), Obj(second)];
    var keys := [k1, k2, k3];
    TripleHeader(k1, k2, k3);
    AddKnownKeys(keys, keys);
    var tail := items[1..];
    assert tail[1..] == [];
    assert Gather(items, []) == Gather(tail, keys);
    assert Gather(tail, keys) == Gather([], keys);
  }

  /** The text of a three-key header line and two data lines. */
  lemma TwoRecordText(k1: string, k2: string, k3: string, d: string, a1: string, a2: string, a3: string,
                      b1: string, b2: string, b3: string)
    ensures Join([HeaderLine([k1, k2, k3], d), Join([a1, a2, a3], d), Join([b1, b2, b3], d)], "\n")
            == EscapeField(k1, d) + d + (EscapeField(k2, d) + d + EscapeField(k3, d))
               + "\n" + (a1 + d + (a2 + d + a3) + "\n" + (b1 + d + (b2 + d + b3)))
  {
    HeaderLineTriple(k1, k2, k3, d);
    JoinThree(EscapeField(k1, d), EscapeField(k2, d), EscapeField(k3, d), d);
    JoinThree(a1, a2, a3, d);
    JoinThree(b1, b2, b3, d);
    JoinThree(HeaderLine([k1, k2, k3], d), Join([a1, a2, a3], d), Join([b1, b2, b3], d), "\n");
  }

  /** The row of a record with three distinct keys, under those keys. */
  lemma RecordOfThree(k1: string, k2: string, k3: string, v1: Value, v2: Value, v3: Value, d: string,
                      serialize: Serializer, x1: string, x2: string, x3: string)
    requires k1 != k2 && k1 != k3 && k2 != k3
    requires ValueToString(v1, serialize) == Success(x1)
    requires ValueToString(v2, serialize) == Success(x2)
    requires ValueToString(v3, serialize) == Success(x3)
    ensures Keys([(k1, v1), (k2, v2), (k3, v3)]) == [k1, k2, k3]
    ensures RenderCells([(k1, v1), (k2, v2), (k3, v3)], [k1, k2, k3], d, serialize)
            == Success([EscapeField(x1, d), EscapeField(x2, d), EscapeField(x3, d)])
  {
    TripleCellTexts(k1, k2, k3, v1, v2, v3, serialize);
    RenderCellsTriple([(k1, v1), (k2, v2), (k3, v3)], k1, k2, k3, d, serialize, x1, x2, x3);
  }

  /**
    Two records with the same three distinct keys, in the same order, convert
    to the escaped header line and one line of escaped values per record.
   */
  lemma ParseTwoRecords(k1: string, k2: string, k3: string, a1: Value, a2: Value, a3: Value,
                        b1: Value, b2: Value, b3: Value, options: Options, serialize: Serializer,
                        s1: string, s2: string, s3: string, t1: string, t2: string, t3: string)
    requires k1 != k2 && k1 != k3 && k2 != k3
    requires ValidDelimiter(options.delimiter)
    requires ValueToString(a1, serialize) == Success(s1)
    requires ValueToString(a2, serialize) == Success(s2)
    requires ValueToString(a3, serialize) == Success(s3)
    requires ValueToString(b1, serialize) == Success(t1)
    requires ValueToString(b2, serialize) == Success(t2)
    requires ValueToString(b3, serialize) == Success(t3)
    ensures
      var d := DelimiterOf(options);
      Parse(Arr([Obj([(k1, a1), (k2, a2), (k3, a3)]), Obj([(k1, b1), (k2, b2), (k3, b3)])]), options, serialize)
      == Success(EscapeField(k1, d) + d + (EscapeField(k2, d) + d + EscapeField(k3, d))
                 + "\n" + (EscapeField(s1, d) + d + (EscapeField(s2, d) + d + EscapeField(s3, d))
                 + "\n" + (EscapeField(t1, d) + d + (EscapeField(t2, d) + d + EscapeField(t3, d)))))
  {
    var d := DelimiterOf(options);
    var first := [(k1, a1), (k2, a2), (k3, a3)];
    var second := [(k1, b1), (k2, b2), (k3, b3)];
    var items := [Obj(first), Obj(second)];
    var keys := [k1, k2, k3];
    var cells1 := [EscapeField(s1, d), EscapeField(s2, d), EscapeField(s3, d)];
    var cells2 := [EscapeField(t1, d), EscapeField(t2, d), EscapeField(t3, d)];
    RecordOfThree(k1, k2, k3, a1, a2, a3, d, serialize, s1, s2, s3);
    RecordOfThree(k1, k2, k3, b1, b2, b3, d, serialize, t1, t2, t3);
    SameKeysHeader(first, second, k1, k2, k3);
    DocumentOfTwo(first, second, keys, d, serialize, cells1, cells2);
    ParseOfHeader(items, options, serialize, keys);
    TwoRecordText(k1, k2, k3, d, cells1[0], cells1[1], cells1[2], cells2[0], cells2[1], cells2[2]);
  }

  /** `String(25)` and `String(30)`. */
  lemma SmallNumbers()
    ensures IntToDecimal(25) == "25"
    ensures IntToDecimal(30) == "30"
  {
    assert NatToDecimal(2) == "2";
    assert NatToDecimal(3) == "3";
    assert DigitChar(5) == '5' && DigitChar(0) == '0';
  }

  /** The character facts about the header keys of the tests' records. */
  lemma KeyChars()
    ensures PlainField("name", ',') && PlainField("name", ';')
    ensures PlainField("title", ',') && PlainField("description", ',') && PlainField("quote", ',')
    ensures PlainField("age", ',') && PlainField("age", ';') && PlainField("city", ',')
  {
  }

  /** The header keys of the tests' records, none of which needs quoting under `,` or `;`. */
  lemma PlainKeys()
    ensures EscapeField("name", ",") == "name" && EscapeField("name", ";") == "name"
    ensures EscapeField("title", ",") == "title"
    ensures EscapeField("description", ",") == "description"
    ensures EscapeField("quote", ",") == "quote"
    ensures EscapeField("age", ",") == "age" && EscapeField("age", ";") == "age"
    ensures EscapeField("city", ",") == "city"
  {
    KeyChars();
    PlainText("name", ',');
    PlainText("name", ';');
    PlainText("title", ',');
    PlainText("description", ',');
    PlainText("quote", ',');
    PlainText("age", ',');
    PlainText("age", ';');
    PlainText("city", ',');
  }

  /** The character facts of the delimiter case. */
  lemma JrChars()
    ensures QuoteFreeText("John, Jr.") && "John, Jr."[4] == ',' && PlainField("Senior Developer", ',')
  {
  }

  lemma JrText()
    ensures "\"" + "John, Jr." + "\"" == "\"John, Jr.\""
  {
  }

  lemma JrLine()
    ensures "name" + "," + "title" == "name,title"
    ensures "\"John, Jr.\"" + "," + "Senior Developer" == "\"John, Jr.\",Senior Developer"
  {
  }

  lemma JrCells()
    ensures EscapeField("John, Jr.", ",") == "\"John, Jr.\""
    ensures EscapeField("Senior Developer", ",") == "Senior Developer"
  {
    JrChars();
    JrText();
    EnclosedOnly("John, Jr.", ',', 4);
    PlainText("Senior Developer", ',');
  }

  /** `{ name: 'John, Jr.', title: 'Senior Developer' }`: the field holding the delimiter is quoted. */
  lemma DelimiterFieldQuoted(serialize: Serializer)
    ensures Parse(Arr([Obj([("name", Str("John, Jr.")), ("title", Str("Senior Developer"))])]), Options(Undefined),
                  serialize)
            == Success("name,title" + "\n" + "\"John, Jr.\",Senior Developer")
  {
    ParseOneRecord("name", Str("John, Jr."), "title", Str("Senior Developer"), Options(Undefined), serialize,
                   "John, Jr.", "Senior Developer");
    PlainKeys();
    JrCells();
    JrLine();
  }

  lemma LineFeedChars()
    ensures PlainField("John", ',') && QuoteFreeText("Line 1\nLine 2") && "Line 1\nLine 2"[6] == '\n'
  {
  }

  lemma LineFeedText()
    ensures "\"" + "Line 1\nLine 2" + "\"" == "\"Line 1\nLine 2\""
  {
  }

  lemma LineFeedLine()
    ensures "name" + "," + "description" == "name,description"
    ensures "John" + "," + "\"Line 1\nLine 2\"" == "John,\"Line 1\nLine 2\""
  {
  }

  lemma LineFeedCells()
    ensures EscapeField("John", ",") == "John"
    ensures EscapeField("Line 1\nLine 2", ",") == "\"Line 1\nLine 2\""
  {
    LineFeedChars();
    LineFeedText();
    PlainText("John", ',');
    EnclosedOnly("Line 1\nLine 2", ',', 6);
  }

  /** `{ name: 'John', description: 'Line 1\nLine 2' }`: the field holding a line feed is quoted. */
  lemma LineFeedFieldQuoted(serialize: Serializer)
    ensures Parse(Arr([Obj([("name", Str("John")), ("description", Str("Line 1\nLine 2"))])]), Options(Undefined),
                  serialize)
            == Success("name,description" + "\n" + "John,\"Line 1\nLine 2\"")
  {
    ParseOneRecord("name", Str("John"), "description", Str("Line 1\nLine 2"), Options(Undefined), serialize,
                   "John", "Line 1\nLine 2");
    PlainKeys();
    LineFeedCells();
    LineFeedLine();
  }

  lemma JohnnyChars()
    ensures "John \"Johnny\" Doe"[5] == '"'
    ensures QuoteFreeText("John ") && QuoteFreeText("Johnny") && QuoteFreeText(" Doe")
  {
  }

  lemma JohnnyText()
    ensures "John \"Johnny\" Doe" == "John " + "\"" + "Johnny" + "\"" + " Doe"
    ensures "\"" + ("John " + "\"\"" + "Johnny" + "\"\"" + " Doe") + "\"" == "\"John \"\"Johnny\"\" Doe\""
  {
  }

  lemma JohnnyCell()
    ensures EscapeField("John \"Johnny\" Doe", ",") == "\"John \"\"Johnny\"\" Doe\""
  {
    JohnnyChars();
    JohnnyText();
    QuotedWithQuote("John \"Johnny\" Doe", ',', 5);
    QuotedPassage("John ", "Johnny", " Doe");
  }

  lemma HelloChars()
    ensures "He said \"Hello\""[8] == '"'
    ensures QuoteFreeText("He said ") && QuoteFreeText("Hello") && QuoteFreeText("")
  {
  }

  lemma HelloText()
    ensures "He said \"Hello\"" == "He said " + "\"" + "Hello" + "\"" + ""
    ensures "\"" + ("He said " + "\"\"" + "Hello" + "\"\"" + "") + "\"" == "\"He said \"\"Hello\"\"\""
  {
  }

  lemma HelloCell()
    ensures EscapeField("He said \"Hello\"", ",") == "\"He said \"\"Hello\"\"\""
  {
    HelloChars();
    HelloText();
    QuotedWithQuote("He said \"Hello\"", ',', 8);
    QuotedPassage("He said ", "Hello", "");
  }

  lemma QuotesLine()
    ensures "name" + "," + "quote" == "name,quote"
    ensures "\"John \"\"Johnny\"\" Doe\"" + "," + "\"He said \"\"Hello\"\"\""
            == "\"John \"\"Johnny\"\" Doe\",\"He said \"\"Hello\"\"\""
  {
  }

  /** `{ name: 'John "Johnny" Doe', quote: 'He said "Hello"' }`: quoted, with inner quotes doubled. */
  lemma QuotesDoubled(serialize: Serializer)
    ensures Parse(Arr([Obj([("name", Str("John \"Johnny\" Doe")), ("quote", Str("He said \"Hello\""))])]),
                  Options(Undefined), serialize)
            == Success("name,quote" + "\n" + "\"John \"\"Johnny\"\" Doe\",\"He said \"\"Hello\"\"\"")
  {
    ParseOneRecord("name", Str("John \"Johnny\" Doe"), "quote", Str("He said \"Hello\""), Options(Undefined),
                   serialize, "John \"Johnny\" Doe", "He said \"Hello\"");
    PlainKeys();
    JohnnyCell();
    HelloCell();
    QuotesLine();
  }

  lemma SemicolonChars()
    ensures QuoteFreeText("John;Smith") && "John;Smith"[4] == ';' && PlainField("30", ';')
  {
  }

  lemma SemicolonText()
    ensures "\"" + "John;Smith" + "\"" == "\"John;Smith\""
  {
  }

  lemma SemicolonLine()
    ensures "name" + ";" + "age" == "name;age"
    ensures "\"John;Smith\"" + ";" + "30" == "\"John;Smith\";30"
  {
  }

  lemma SemicolonCells()
    ensures EscapeField("John;Smith", ";") == "\"John;Smith\""
    ensures EscapeField("30", ";") == "30"
  {
    SemicolonChars();
    SemicolonText();
    EnclosedOnly("John;Smith", ';', 4);
    PlainText("30", ';');
  }

  /** `{ name: 'John;Smith', age: 30 }` under `;`: the field holding `;` is quoted. */
  lemma SemicolonQuoted(serialize: Serializer)
    ensures Parse(Arr([Obj([("name", Str("John;Smith")), ("age", Num(30))])]), Options(Str(";")), serialize)
            == Success("name;age" + "\n" + "\"John;Smith\";30")
  {
    SmallNumbers();
    ParseOneRecord("name", Str("John;Smith"), "age", Num(30), Options(Str(";")), serialize, "John;Smith", "30");
    PlainKeys();
    SemicolonCells();
    SemicolonLine();
  }

  lemma CommaChars()
    ensures PlainField("John, Jr.", ';')
  {
  }

  /** Under a custom delimiter a comma is ordinary text. */
  lemma CommaPlainUnderSemicolon()
    ensures EscapeField("John, Jr.", ";") == "John, Jr."
  {
    CommaChars();
    PlainText("John, Jr.", ';');
  }

  lemma NullChars()
    ensures PlainField("John", ',') && PlainField("", ',') && PlainField("25", ',') && PlainField("LA", ',')
    ensures '\n' !in "name,age,city" && '\n' !in "John,," && '\n' !in ",25,LA"
  {
  }

  lemma NullCells()
    ensures EscapeField("John", ",") == "John" && EscapeField("", ",") == ""
    ensures EscapeField("25", ",") == "25" && EscapeField("LA", ",") == "LA"
  {
    NullChars();
    PlainText("John", ',');
    PlainText("", ',');
    PlainText("25", ',');
    PlainText("LA", ',');
  }

  lemma NullText()
    ensures "name" + "," + ("age" + "," + "city") == "name,age,city"
    ensures "John" + "," + ("" + "," + "") == "John,,"
    ensures "" + "," + ("25" + "," + "LA") == ",25,LA"
  {
  }

  lemma NullLine()
    ensures "name,age,city" + "\n" + ("John,," + "\n" + ",25,LA") == "name,age,city\nJohn,,\n,25,LA"
  {
  }

  /** The lines of the null-and-undefined case, split again on line feeds. */
  lemma NullSplit()
    ensures Split("name,age,city\nJohn,,\n,25,LA", '\n') == ["name,age,city", "John,,", ",25,LA"]
  {
    var lines := ["name,age,city", "John,,", ",25,LA"];
    NullChars();
    NullLine();
    JoinThree(lines[0], lines[1], lines[2], "\n");
    SplitJoin(lines, '\n');
  }

  /**
    `[{ name: 'John', age: null, city: undefined }, { name: null, age: 25, city: 'LA' }]`:
    `null` and `undefined` give empty cells, and the data lines are `John,,` and `,25,LA`.
   */
  lemma NullAndUndefinedCells(serialize: Serializer)
    ensures
      var data := Arr([Obj([("name", Str("John")), ("age", Null), ("city", Undefined)]),
                       Obj([("name", Null), ("age", Num(25)), ("city", Str("LA"))])]);
      var out := Parse(data, Options(Undefined), serialize);
      && out == Success("name,age,city\nJohn,,\n,25,LA")
      && Split(out.value, '\n') == ["name,age,city", "John,,", ",25,LA"]
  {
    SmallNumbers();
    ParseTwoRecords("name", "age", "city", Str("John"), Null, Undefined, Null, Num(25), Str("LA"),
                    Options(Undefined), serialize, "John", "", "", "", "25", "LA");
    PlainKeys();
    NullCells();
    NullText();
    NullLine();
    NullSplit();
  }
}
