/**
 * Extraction code that reaches `panic!`, `unreachable!()`, an `unwrap()` of
 * `None` or an arithmetic overflow stops the whole extraction. The model
 * makes every such stop an explicit error value that callers pass on.
 */
module Panics {
  import opened Wrappers

  datatype Panic =
    | Unreachable          // `unreachable!()`
    | UnwrapNone           // `unwrap()` of `None` or of a failed parse
    | Overflow             // integer overflow, which Rust's checked arithmetic rejects
    | Message(text: string) // `panic!` with this message

  /** `o.unwrap()`. */
  function Unwrap<T>(o: Option<T>): (r: Result<T, Panic>)
    ensures r.Ok? <==> o.Some?
    ensures r.Ok? ==> r.value == o.value
    ensures r.Err? ==> r.error == UnwrapNone
  {
    match o
    case Some(v) => Ok(v)
    case None => Err(UnwrapNone)
  }
}
