// Options and results for all modules, and the error strings of nanopb as an enumeration.
module Results {

  datatype Error =
      // pb_decode.c
    | EndOfStream
    | VarintOverflow
    | InvalidWireType
    | ParentTooShort
    | ArrayOverflow
    | BytesOverflow
    | SizeTooLarge
    | StringOverflow
    | IncorrectFixedLength
    | IntegerTooLarge
    | MissingRequired
      // pb_encode.c
    | StreamFull
    | ArraySizeExceeded
    | BytesSizeExceeded
    | SubmsgSizeChanged
      // both
    | InvalidDataSize
    | InvalidFieldType
    | InvalidDescriptor

  datatype Result<+T> = Ok(value: T) | Err(error: Error) {
    predicate IsFailure() { Err? }

    function PropagateFailure<U>(): Result<U>
      requires Err?
    {
      Err(error)
    }

    function Extract(): T
      requires Ok?
    {
      value
    }
  }

  datatype Option<+T> = None | Some(value: T)
}
