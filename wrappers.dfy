/** Option and Result wrappers, and the Java exceptions the modelled code
    raises or propagates. A `null` of the source is `None`; a thrown
    exception is `Err`. */
module Wrappers {

  datatype Option<+T> = None | Some(value: T)

  /** Why a sheet layout is refused by the simple decoder. */
  datatype FormatIssue = SeveralMergedRegions | MergedRegionNotAtTop

  /** The exceptions of the modelled code, with the data their messages name. */
  datatype Exception =
    | NullPointer
    | StringIndexOutOfBounds
    | IllegalArgument(methodName: string)
    | IllegalAccess(id: string, classNames: seq<string>)
    | ClassCast
    | NoSuchMethod(names: seq<string>)
    | NoSuchField(field: string)
    | ClassNotFound(className: string)
    | IndexOutOfSheetSize(pageSize: int, pageIndex: int)
    | SheetIndexOutOfRange(pageIndex: int)
    | UnsupportFormat(issue: FormatIssue)

  datatype Result<+T> = Ok(value: T) | Err(error: Exception) {
    predicate IsFailure() {
      Err?
    }

    function PropagateFailure<U>(): Result<U>
      requires Err?
    {
      Err(error)
    }

    function Extract(): T
      requires Ok?
    {
      value
    }
  }
}
