/**
  The classified errors of the converter. Each constructor stands for one
  `JsonToCsvError` code; `Code()` gives the machine-readable code string.
 */
module Errors {

  datatype ConvertError =
    | InvalidInput
    | EmptyInput
    | InvalidDelimiter
    | InvalidDataType
    | NoProperties
    | SerializationError
      /** A failure while rendering data row `row` (1-based), wrapping its cause. */
    | RowProcessingError(row: nat, cause: ConvertError)
  {
    function Code(): string {
      match this
      case InvalidInput => "INVALID_INPUT"
      case EmptyInput => "EMPTY_INPUT"
      case InvalidDelimiter => "INVALID_DELIMITER"
      case InvalidDataType => "INVALID_DATA_TYPE"
      case NoProperties => "NO_PROPERTIES"
      case SerializationError => "SERIALIZATION_ERROR"
      case RowProcessingError(_, _) => "ROW_PROCESSING_ERROR"
    }
  }

  /**
    The code tells the kinds of error apart: two errors share a code exactly
    when they are the same error or both are row-processing errors (which
    differ only in the row and the cause they carry).
   */
  lemma CodeIdentifiesKind(a: ConvertError, b: ConvertError)
    ensures a.Code() == b.Code() <==> a == b || (a.RowProcessingError? && b.RowProcessingError?)
  {
  }
}
