/** `valueToString`: the text of one cell before escaping. */
module Stringify {
  import opened Wrappers
  import opened JsValues
  import opened Errors
  import opened Decimal

  /** `JSON.stringify` applied to an object or array; `None` when it throws. */
  type Serializer = Value -> Option<string>

  /**
    Renders a property value. `serialize` stands for `JSON.stringify` on an
    object or array; `None` means it threw, which becomes `SerializationError`.
   */
  function ValueToString(v: Value, serialize: Serializer): (r: Result<string, ConvertError>)
    ensures v.Null? || v.Undefined? ==> r == Success("")
    ensures v.Bool? ==> r == Success(if v.b then "true" else "false")
    ensures v.Num? ==> r.Success? && CanonicalDecimal(r.value) && ParseDecimal(r.value) == Some(v.n)
    ensures v.Str? ==> r == Success(v.s)
    ensures IsStructured(v) && r.Success? ==> serialize(v) == Some(r.value)
    ensures r.Failure? <==> IsStructured(v) && serialize(v).None?
    ensures r.Failure? ==> r.error == SerializationError
  {
    match v
    case Undefined => Success("")
    case Null => Success("")
    case Bool(b) => Success(if b then "true" else "false")
    case Num(n) => Success(IntToDecimal(n))
    case Str(s) => Success(s)
    case _ =>
      match serialize(v)
      case Some(text) => Success(text)
      case None => Failure(SerializationError)
  }
}
