/** Option and Result, the failure-compatible wrappers used for Python's `None` and exceptions. */
module Wrappers {

  datatype Option<+T> = None | Some(value: T) {
    predicate IsFailure() { None? }

    function PropagateFailure<U>(): Option<U>
      requires None?
    {
      None
    }

    function Extract(): T
      requires Some?
    {
      value
    }

    function GetOr(default: T): T {
      match this
      case Some(v) => v
      case None => default
    }
  }

  datatype Result<+R, +E> = Ok(value: R) | Err(error: E) {
    predicate IsFailure() { Err? }

    function PropagateFailure<U>(): Result<U, E>
      requires Err?
    {
      Err(error)
    }

    function Extract(): R
      requires Ok?
    {
      value
    }
  }
}

/** The Python exceptions that the modelled code raises or lets escape. */
module Errors {

  datatype Error =
    | UnknownDataset(name: string, available: seq<string>)  // ValueError from an unknown dataset key
    | DownloadFailed(url: string)                            // RuntimeError wrapping a request failure
    | SameFile(path: string)                                 // shutil.SameFileError
    | FileNotFound(path: string)                             // opening a file that does not exist
    | AttributeError(field: string)                          // `.strip()`/`.lower()` on a non-string
    | TypeError(field: string)                               // ordering or arithmetic between '' and a number
    | KeyError(key: string)                                  // `d[key]` on an absent key
    | ValueError(message: string)                            // invalid units
    | IndexError                                             // list index out of range
    | DecodeError(path: string)                              // UnicodeDecodeError reading a text file
}
