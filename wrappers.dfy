// Shared result types: the exceptions the tools throw become error values.
module Wrappers {

  datatype Option<+T> = None | Some(value: T)

  /** Why an ArgumentException was thrown. */
  datatype Problem =
    | EmptyCollection
    | CollectionContainsNull
    | CollectionIsNotHomogeneous
    | PolyCountInMeshTooHigh
    | VertexCountInStripTooHigh
    | VertexNormalCountMismatch
    | InvalidName(name: string)
    | OffsetPlusCountGreaterThanBufferLength
    | NoDosHeader
    | NoPeHeader
    | UnexpectedOptionalHeaderSize
    | UnexpectedOptionalHeaderMagic

  /** The exceptions of the modelled code, one constructor per exception type. */
  datatype Exception =
    | ArgumentNull(paramName: string)
    | ArgumentOutOfRange(paramName: string)
    | Argument(problem: Problem)
    | OutOfSection(position: int)       // IOException: no section maps the position
    | NotSupported
    | UnexpectedData(message: string)
    | EndOfStream
    | NullReference
    | Overflow                          // OverflowException of a checked conversion
    | OutsideBuffer                     // an unchecked pointer read past the end of a buffer: the value is undefined
    | RecursionLimit                    // stands for the stack overflow of unbounded recursion

  datatype Result<+T> = Ok(value: T) | Err(error: Exception)
  {
    predicate IsFailure() { Err? }
    function PropagateFailure<U>(): Result<U> requires Err? { Err(error) }
    function Extract(): T requires Ok? { value }
  }

  /** `r` with `xs` in front of the elements it collected; a failure stays as it is. */
  function Prepended<T>(xs: seq<T>, r: Result<seq<T>>): Result<seq<T>>
  {
    if r.Ok? then Ok(xs + r.value) else Err(r.error)
  }

  /** `r` with `x` in front of the elements it collected; a failure stays as it is. */
  function Consed<T>(x: T, r: Result<seq<T>>): Result<seq<T>>
  {
    if r.Ok? then Ok([x] + r.value) else Err(r.error)
  }

  lemma PrependedNothing<T>(r: Result<seq<T>>)
    ensures Prepended([], r) == r
  {
    if r.Ok? {
      assert [] + r.value == r.value;
    }
  }

  lemma PrependedToEmpty<T>(xs: seq<T>)
    ensures Prepended(xs, Ok([])) == Ok(xs)
  {
    assert xs + [] == xs;
  }

  /** Moving one element from the collected part to the front of what is still to collect. */
  lemma PrependedConsed<T>(xs: seq<T>, x: T, r: Result<seq<T>>)
    ensures Prepended(xs, Consed(x, r)) == Prepended(xs + [x], r)
  {
    if r.Ok? {
      assert xs + ([x] + r.value) == xs + [x] + r.value;
    }
  }
}
