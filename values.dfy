/** Loosely-typed protocol values and the failure type shared by the model.

    A redraw notification arrives as nested arrays of dynamically typed
    values; the front-end re-encodes them and decodes them into Go records.
    `Value` stands for one such value after the transport has decoded it. */
module Values {

  /** One dynamically typed value of a redraw argument. Numbers are whole
      numbers only (the protocol sends integers). */
  datatype Value =
    | Null
    | Bool(b: bool)
    | Int(i: int)
    | Str(s: string)
    | Arr(elems: seq<Value>)
    | Obj(fields: map<string, Value>)

  /** Range of Go's `int32` (colours, runes). */
  predicate IsInt32(i: int) { -0x8000_0000 <= i < 0x8000_0000 }

  /** Range of Go's `int` on a 64-bit platform. */
  predicate IsInt64(i: int) { -0x8000_0000_0000_0000 <= i < 0x8000_0000_0000_0000 }

  type Int32 = i: int | IsInt32(i)
  type Int64 = i: int | IsInt64(i)

  /** A Go pointer field: nil or a value. */
  datatype Option<+T> = None | Some(value: T)

  /** Why the process aborts. Every one of these ends the session in the
      source: a decode error goes through the fatal error helper, the others
      are runtime panics (failed type assertion, index out of range). */
  datatype Fatal =
    | TypeMismatch      // a field of the wrong type
    | NotATuple         // an argument that is not an array
    | BadUpdate         // an update without a leading kind string
    | NoEntries         // `colors[len(colors)-1]` or `info[0]` on an empty list
    | IndexOutOfRange   // a grid write or copy outside the buffer

  datatype Result<+T> = Ok(value: T) | Err(error: Fatal) {
    predicate IsFailure() { Err? }

    function PropagateFailure<U>(): Result<U>
      requires Err?
    {
      Err(error)
    }

    function Extract(): T
      requires Ok?
    {
      value
    }
  }
}
