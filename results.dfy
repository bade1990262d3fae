/** Failure-compatible result types shared by every decoder.

    The decoders never recover from a failure: the first error aborts the
    whole decode, exactly as an uncaught Python exception does. */
module Results {

  /** The ways a decode can fail. */
  datatype Fault =
    | IndexPastEnd(offset: nat)          // a single-byte index beyond the buffer (Python IndexError)
    | AttributeNotFound(typeId: nat)     // the attribute locator found no attribute of this type
    | OddNameBytes(length: nat)          // UTF-16LE decoding of an odd number of bytes ("truncated data")
    | PartitionTableUnbound              // GPT header gives a start LBA of 0 or 1: no array sector was ever read
    | NoSentinel                         // GPT array runs to the end of the image without a zero start LBA

  datatype Option<+T> = None | Some(value: T)

  datatype Result<+T> = Ok(value: T) | Err(error: Fault) {
    predicate IsFailure() { Err? }

    function PropagateFailure<U>(): Result<U>
      requires Err?
    {
      Err(error)
    }

    function Extract(): T
      requires Ok?
    {
      value
    }
  }

  /** `Prepend(done, rest)`: the items a loop has already emitted followed
      by those its remaining turns emit, or the failure that aborts it. */
  function Prepend<T>(done: seq<T>, rest: Result<seq<T>>): Result<seq<T>>
  {
    match rest
    case Ok(s) => Ok(done + s)
    case Err(e) => Err(e)
  }

  lemma {:induction false} PrependEmpty<T>(rest: Result<seq<T>>)
    ensures Prepend([], rest) == rest
  {
    if rest.Ok? {
      assert [] + rest.value == rest.value;
    }
  }

  lemma {:induction false} PrependAssoc<T>(x: seq<T>, y: seq<T>, rest: Result<seq<T>>)
    ensures Prepend(x, Prepend(y, rest)) == Prepend(x + y, rest)
  {
    if rest.Ok? {
      assert x + (y + rest.value) == x + y + rest.value;
    }
  }
}
