/** Shared result types. */
module Common {
  datatype Option<+T> = None | Some(value: T)

  /** A call that either returns a value or throws an error code. */
  datatype Result<+T> = Ok(value: T) | Throws(error: ErrorCode)

  /** A system error code: a number for each pair of category and value. The original's codes test as
      errors exactly when their value is not zero, whatever the category; such codes are all the same
      here. The 32-bit integers stand for the values of the system category. */
  type ErrorCode = int

  const SUCCESS: ErrorCode := 0

  /** The parser's report that the buffer for the body is full, a code of a category of its own. */
  const NEED_BUFFER: ErrorCode := 0x1_0000_0000

  function Min(a: nat, b: nat): nat {
    if a < b then a else b
  }

  function Max(a: nat, b: nat): nat {
    if a < b then b else a
  }

  lemma Assoc<T>(a: seq<T>, b: seq<T>, c: seq<T>)
    ensures a + (b + c) == (a + b) + c
  {
  }
}
