/**
  The `Task<T>` an `async` C# method hands back. Awaiting it yields `Result`.
  It is an object: a call that is not awaited still evaluates to a non-null
  reference, whatever the result it will carry.
 */
module Async {

  class Task<T> {
    const Result: T

    constructor FromResult(result: T)
      ensures Result == result
    {
      Result := result;
    }
  }
}
