/** JSON values (serde_json's `Value`), the crate's error type and the
    failure-compatible wrappers the rest of the model uses. */
module Values {

  /** A JSON value. Numbers are mathematical integers: the crate only ever
      reads them through `as_u64`/`as_i64`. */
  datatype Json =
    | Null
    | Bool(b: bool)
    | Num(n: int)
    | Str(s: string)
    | Arr(items: seq<Json>)
    | Obj(fields: map<string, Json>)

  /** The variants of `JsonError` the core returns. `Panic` stands for the
      places where the Rust code aborts instead of returning an error (an
      `unwrap` of `None`, a failed `assert!`, an out-of-range `Vec` index or
      insert, a `usize` subtraction below zero). */
  datatype JsonError =
    | InvalidOperation
    | InvalidPathFormat
    | InvalidPathElement
    | BadPath
    | Panic

  datatype Option<+T> = None | Some(value: T)

  datatype Result<+T> = Ok(value: T) | Err(error: JsonError) {
    predicate IsFailure() { Err? }

    function PropagateFailure<U>(): Result<U>
      requires Err?
    {
      Err(error)
    }

    function Extract(): T
      requires Ok?
    {
      value
    }
  }
}
