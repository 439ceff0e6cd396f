/** Failure-compatible results of the inibin reader. */
module Results {

  /** The ways a parse can end without a map.  `InvalidData` and
      `UnexpectedEof` are the `io::ErrorKind`s the reader returns;
      `OffsetOutOfRange` and `InvalidUtf8` are the two panics of the
      string extraction (a slice that starts past the end of its buffer,
      and `unwrap` on a failed UTF-8 conversion). */
  datatype Error = InvalidData | UnexpectedEof | OffsetOutOfRange | InvalidUtf8 {
    /** True for the two conditions that abort the thread in the source
        rather than being returned as an `io::Error`. */
    predicate IsPanic() {
      OffsetOutOfRange? || InvalidUtf8?
    }
  }

  datatype Option<+T> = None | Some(value: T)

  datatype Result<+T> = Ok(value: T) | Err(error: Error) {
    predicate IsFailure() {
      Err?
    }

    function PropagateFailure<U>(): Result<U>
      requires Err?
    {
      Err(error)
    }

    function Extract(): T
      requires Ok?
    {
      value
    }
  }
}
