/** Shared outcome types. The source's `Result<T>` is `Res<T>`; error texts are not modelled. */
module Prelude {

  datatype Option<+T> = None | Some(value: T)

  /** The source's `Result`: a value, or a refusal whose message is left out. */
  datatype Res<+T> = Ok(value: T) | Err {

    predicate IsFailure() {
      Err?
    }

    function PropagateFailure<U>(): Res<U>
      requires Err?
    {
      Err
    }

    function Extract(): T
      requires Ok?
    {
      value
    }
  }

  /** No control character in a UTF-8 text: none of U+0000 to U+001F, U+007F, and U+0080 to U+009F, which start with 0xC2. */
  predicate NoControl(text: seq<int>) {
    && (forall k | 0 <= k < |text| :: text[k] >= 32 && text[k] != 127)
    && (forall k | 0 < k < |text| :: text[k - 1] == 0xC2 ==> text[k] >= 0xA0)
  }

  function ToRes<T>(o: Option<T>): Res<T> {
    match o
    case Some(v) => Ok(v)
    case None => Err
  }
}
