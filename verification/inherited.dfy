/**
  `row[header]` as the source writes it reads through the prototype chain: a
  record that lacks `header` still yields whatever plain objects inherit
  under that name from `Object.prototype`. The rest of the model reads own
  properties only (`JsValues.Lookup`), which is what the empty-cell rule for
  missing keys intends.
 */
module InheritedLookup {
  import opened Wrappers
  import opened JsValues
  import opened Errors
  import opened Escape
  import opened Stringify
  import opened Headers
  import opened Converter

  /**
    The inherited members of a record, first match wins, each paired with the
    text `String()` gives for its value.
   */
  type Prototype = seq<(string, string)>

  /** `String(f)` for a built-in function named `name`. */
  function NativeText(name: string): string {
    "function " + name + "() { [native code] }"
  }

  /** `String(Object.prototype.constructor)`: the text of the `Object` function. */
  const ObjectText: string := NativeText("Object")

  /** The function-valued members every plain object inherits from `Object.prototype`. */
  const ObjectPrototype: Prototype := [
    ("constructor", ObjectText),
    ("toString", NativeText("toString")),
    ("toLocaleString", NativeText("toLocaleString")),
    ("valueOf", NativeText("valueOf")),
    ("hasOwnProperty", NativeText("hasOwnProperty")),
    ("isPrototypeOf", NativeText("isPrototypeOf")),
    ("propertyIsEnumerable", NativeText("propertyIsEnumerable")),
    ("__defineGetter__", NativeText("__defineGetter__")),
    ("__defineSetter__", NativeText("__defineSetter__")),
    ("__lookupGetter__", NativeText("__lookupGetter__")),
    ("__lookupSetter__", NativeText("__lookupSetter__"))
  ]

  /** The text of the inherited member `key`, if the prototype has one. */
  function InheritedText(proto: Prototype, key: string): (r: Option<string>)
    ensures r.Some? ==> (key, r.value) in proto
    ensures r.None? ==> forall i :: 0 <= i < |proto| ==> proto[i].0 != key
    decreases |proto|
  {
    if |proto| == 0 then None
    else if proto[0].0 == key then Some(proto[0].1)
    else InheritedText(proto[1..], key)
  }

  /**
    The text of a cell as the source computes it: an own property as before,
    otherwise the text of an inherited member, otherwise the empty string.
   */
  function CellTextAsWritten(fields: seq<(string, Value)>, key: string, proto: Prototype, serialize: Serializer)
    : (r: Result<string, ConvertError>)
    ensures key in Keys(fields) ==> r == CellText(fields, key, serialize)
    ensures key !in Keys(fields) && InheritedText(proto, key).Some? ==> r == Success(InheritedText(proto, key).value)
    ensures key !in Keys(fields) && InheritedText(proto, key).None? ==> r == Success("")
    ensures InheritedText(proto, key).None? ==> r == CellText(fields, key, serialize)
  {
    if key in Keys(fields) then CellText(fields, key, serialize)
    else
      match InheritedText(proto, key)
      case Some(text) => Success(text)
      case None => Success("")
  }

  /** The escaped as-written cell for `key`, when its text renders. */
  function CellAsWritten(fields: seq<(string, Value)>, key: string, proto: Prototype, delimiter: string,
                         serialize: Serializer): string
    requires CellTextAsWritten(fields, key, proto, serialize).Success?
  {
    EscapeField(CellTextAsWritten(fields, key, proto, serialize).value, delimiter)
  }

  /** The escaped cells of one data row as the source computes them. */
  function RowAsWritten(fields: seq<(string, Value)>, headers: seq<string>, proto: Prototype, delimiter: string,
                        serialize: Serializer)
    : (r: Result<seq<string>, ConvertError>)
    ensures r.Success? ==> |r.value| == |headers|
    ensures r.Failure? ==> r.error == SerializationError
    decreases |headers|
  {
    if |headers| == 0 then Success([])
    else
      var text :- CellTextAsWritten(fields, headers[0], proto, serialize);
      var rest :- RowAsWritten(fields, headers[1..], proto, delimiter, serialize);
      Success([CellAsWritten(fields, headers[0], proto, delimiter, serialize)] + rest)
  }

  /** A rendered as-written row is its first cell followed by the row of the remaining keys. */
  lemma RowAsWrittenUnfold(fields: seq<(string, Value)>, headers: seq<string>, proto: Prototype,
                           delimiter: string, serialize: Serializer)
    requires RowAsWritten(fields, headers, proto, delimiter, serialize).Success?
    requires 0 < |headers|
    ensures CellTextAsWritten(fields, headers[0], proto, serialize).Success?
    ensures RowAsWritten(fields, headers[1..], proto, delimiter, serialize).Success?
    ensures RowAsWritten(fields, headers, proto, delimiter, serialize).value
            == [CellAsWritten(fields, headers[0], proto, delimiter, serialize)]
               + RowAsWritten(fields, headers[1..], proto, delimiter, serialize).value
  {
  }

  /** Cell `j` of the as-written row is the escaped as-written text for header key `j`. */
  lemma {:induction false} RowAsWrittenCell(fields: seq<(string, Value)>, headers: seq<string>, proto: Prototype,
                                            delimiter: string, serialize: Serializer, j: nat)
    requires RowAsWritten(fields, headers, proto, delimiter, serialize).Success?
    requires j < |headers|
    ensures CellTextAsWritten(fields, headers[j], proto, serialize).Success?
    ensures RowAsWritten(fields, headers, proto, delimiter, serialize).value[j]
            == CellAsWritten(fields, headers[j], proto, delimiter, serialize)
    decreases j
  {
    RowAsWrittenUnfold(fields, headers, proto, delimiter, serialize);
    if 0 < j {
      var tail := headers[1..];
      RowAsWrittenCell(fields, tail, proto, delimiter, serialize, j - 1);
      assert tail[j - 1] == headers[j];
    }
  }

  /**
    When the prototype has no member named by any header key, the as-written
    row is the own-property row of `Converter.RenderCells`, so every property
    proved of the corrected model holds of the source for such headers.
   */
  lemma {:induction false} UnshadowedRowAgrees(fields: seq<(string, Value)>, headers: seq<string>, proto: Prototype,
                                               delimiter: string, serialize: Serializer)
    requires forall j :: 0 <= j < |headers| ==> InheritedText(proto, headers[j]).None?
    ensures RowAsWritten(fields, headers, proto, delimiter, serialize) == RenderCells(fields, headers, delimiter, serialize)
    decreases |headers|
  {
    if 0 < |headers| {
      var tail := headers[1..];
      assert forall j :: 0 <= j < |tail| ==> tail[j] == headers[j + 1];
      UnshadowedRowAgrees(fields, tail, proto, delimiter, serialize);
      assert InheritedText(proto, headers[0]).None?;
      assert CellTextAsWritten(fields, headers[0], proto, serialize) == CellText(fields, headers[0], serialize);
    }
  }

  /** The header of `[{constructor: 'x'}, {a: 1}]` is `constructor,a`. */
  lemma ConstructorHeader()
    ensures CollectHeaders([Obj([("constructor", Str("x"))]), Obj([("a", Num(1))])]) == Success(["constructor", "a"])
  {
    var first := [("constructor", Str("x"))];
    var second := [("a", Num(1))];
    var data := [Obj(first), Obj(second)];
    assert Keys(first) == ["constructor"];
    assert Keys(second) == ["a"];
    assert AddKeys([], ["constructor"]) == ["constructor"];
    assert AddKeys(["constructor"], ["a"]) == ["constructor", "a"];
    assert Gather(data[1..], ["constructor"]) == Gather([], ["constructor", "a"]);
  }

  /** The cell of `a` in `{a: 1}` is `1` whichever way it is read. */
  lemma OwnCellOne(serialize: Serializer)
    ensures CellText([("a", Num(1))], "a", serialize) == Success("1")
    ensures CellTextAsWritten([("a", Num(1))], "a", ObjectPrototype, serialize) == Success("1")
    ensures EscapeField("1", ",") == "1"
  {
    var fields := [("a", Num(1))];
    assert Keys(fields) == ["a"];
    assert Lookup(fields, "a") == Num(1);
    NeedsQuotingChars("1", ',');
  }

  /** A record without `constructor` still yields the `Object` constructor's text under that name. */
  lemma ConstructorCellAsWritten(serialize: Serializer)
    ensures CellTextAsWritten([("a", Num(1))], "constructor", ObjectPrototype, serialize) == Success(ObjectText)
  {
    assert Keys([("a", Num(1))]) == ["a"];
    assert ObjectPrototype[0] == ("constructor", ObjectText);
  }

  /** Reading own properties only, the missing `constructor` gives the empty text. */
  lemma ConstructorCellOwn(serialize: Serializer)
    ensures CellText([("a", Num(1))], "constructor", serialize) == Success("")
    ensures EscapeField("", ",") == ""
  {
    assert Keys([("a", Num(1))]) == ["a"];
    assert !Contains("", ",");
  }

  /** The as-written row under a two-key header. */
  lemma RowAsWrittenPair(fields: seq<(string, Value)>, first: string, second: string, proto: Prototype,
                         delimiter: string, serialize: Serializer, text1: string, text2: string)
    requires CellTextAsWritten(fields, first, proto, serialize) == Success(text1)
    requires CellTextAsWritten(fields, second, proto, serialize) == Success(text2)
    ensures RowAsWritten(fields, [first, second], proto, delimiter, serialize)
            == Success([EscapeField(text1, delimiter), EscapeField(text2, delimiter)])
  {
    var headers := [first, second];
    var one := [second];
    assert headers[1..] == one && one[1..] == [];
    assert RowAsWritten(fields, [], proto, delimiter, serialize) == Success([]);
    var tail := RowAsWritten(fields, one, proto, delimiter, serialize);
    assert tail.Success? && tail.value == [EscapeField(text2, delimiter)];
    assert headers[0] == first;
    assert RowAsWritten(fields, headers, proto, delimiter, serialize)
           == Success([EscapeField(text1, delimiter)] + tail.value);
    assert [EscapeField(text1, delimiter)] + tail.value == [EscapeField(text1, delimiter), EscapeField(text2, delimiter)];
  }

  /**
    As written, the record `{a: 1}` under the header `constructor,a` (the
    header of `[{constructor: 'x'}, {a: 1}]`) renders the `Object`
    constructor's text in its first cell instead of an empty cell.
   */
  lemma ConstructorRowAsWritten(serialize: Serializer)
    ensures RowAsWritten([("a", Num(1))], ["constructor", "a"], ObjectPrototype, ",", serialize)
            == Success([EscapeField(ObjectText, ","), "1"])
  {
    OwnCellOne(serialize);
    ConstructorCellAsWritten(serialize);
    RowAsWrittenPair([("a", Num(1))], "constructor", "a", ObjectPrototype, ",", serialize, ObjectText, "1");
  }

  /** The inherited text is not empty once escaped. */
  lemma ConstructorTextEscaped()
    ensures EscapeField(ObjectText, ",") != ""
  {
    assert 0 < |ObjectText|;
  }

  /** Reading own properties only, the same record renders an empty first cell. */
  lemma ConstructorRowCorrected(serialize: Serializer)
    ensures RenderCells([("a", Num(1))], ["constructor", "a"], ",", serialize) == Success(["", "1"])
  {
    OwnCellOne(serialize);
    ConstructorCellOwn(serialize);
    RenderCellsPair([("a", Num(1))], "constructor", "a", ",", serialize, "", "1");
  }
}
