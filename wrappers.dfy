/** Option and Result, with the three ways the macro and the code it emits can fail. */
module Wrappers {

  datatype Option<+T> = None | Some(value: T) {
    predicate IsFailure() { None? }

    function PropagateFailure<U>(): Option<U>
      requires None?
    {
      None
    }

    function Extract(): T
      requires Some?
    {
      value
    }
  }

  /** How an operation fails:
      - CompileError: a `syn::Error` turned into a diagnostic at the attribute;
      - Panic: an `expect`, `panic!` or arithmetic overflow while expanding or running;
      - RuntimeError: an `mlua::Error` raised by the generated code inside Lua. */
  datatype Failure =
    | CompileError(message: string)
    | Panic(message: string)
    | RuntimeError(message: string)

  datatype Result<+T> = Ok(value: T) | Err(failure: Failure) {
    predicate IsFailure() { Err? }

    function PropagateFailure<U>(): Result<U>
      requires Err?
    {
      Err(failure)
    }

    function Extract(): T
      requires Ok?
    {
      value
    }
  }

  /** `Result::expect`: a failure becomes a panic carrying `message`. */
  function Expect<T>(r: Result<T>, message: string): (e: Result<T>)
    ensures e.Ok? <==> r.Ok?
    ensures e.Ok? ==> e.value == r.value
    ensures e.Err? ==> e.failure == Panic(message)
  {
    if r.Ok? then r else Err(Panic(message))
  }
}
