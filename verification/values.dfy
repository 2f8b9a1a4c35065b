/**
  The JavaScript values the converter reads: the `data` argument, each of its
  elements, each property value and the `delimiter` option.
 */
module JsValues {

  /**
    A JavaScript value. An object keeps its own enumerable string-keyed
    properties in `Object.keys` order; in a JavaScript object the keys are
    distinct. Numbers are safe integers (see `Decimal`).
   */
  datatype Value =
    | Undefined
    | Null
    | Bool(b: bool)
    | Num(n: int)
    | Str(s: string)
    | Obj(fields: seq<(string, Value)>)
    | Arr(elems: seq<Value>)

  /** `typeof v === 'object' && v !== null`: the values `JSON.stringify` is asked to render. */
  predicate IsStructured(v: Value) {
    v.Obj? || v.Arr?
  }

  /** `typeof v !== 'object' || v === null || Array.isArray(v)` is false: a plain record. */
  predicate IsRecord(v: Value) {
    v.Obj?
  }

  /** `Object.keys` of a record: its property names, in order. */
  function Keys(fields: seq<(string, Value)>): (ks: seq<string>)
    ensures |ks| == |fields|
    ensures forall i :: 0 <= i < |fields| ==> ks[i] == fields[i].0
  {
    seq(|fields|, i requires 0 <= i < |fields| => fields[i].0)
  }

  /**
    Reads the own property `key` of a record, `undefined` when the record has
    no such property. For a record with distinct keys the binding found is the
    only one.
   */
  function Lookup(fields: seq<(string, Value)>, key: string): (v: Value)
    ensures key !in Keys(fields) ==> v == Undefined
    ensures key in Keys(fields) ==> (key, v) in fields
    decreases |fields|
  {
    if |fields| == 0 then Undefined
    else if fields[0].0 == key then fields[0].1
    else
      assert Keys(fields) == [fields[0].0] + Keys(fields[1..]);
      Lookup(fields[1..], key)
  }
}
