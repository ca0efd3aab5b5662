/** Failure-compatible result types shared by every reader in the model.
    An `Err` stands for the exception the original code throws; the kind
    names the runtime exception or the reader's own InvalidDataException. */
module Wrappers {

  datatype Option<+T> = None | Some(value: T) {
    predicate IsFailure() {
      None?
    }

    function PropagateFailure<U>(): Option<U>
      requires None?
    {
      None
    }

    function Extract(): T
      requires Some?
    {
      value
    }

    function GetOr(default: T): T {
      match this
      case Some(v) => v
      case None => default
    }
  }

  /** The exceptions the readers can raise. */
  datatype Error =
    | EndOfStream              // BinaryReader ran out of bytes for a fixed-width read
    | ArgumentOutOfRange       // a count above int.MaxValue, a negative count
    | Argument                 // a Guid built from a byte array that is not 16 long
    | IndexOutOfRange          // a table index or array slot that does not exist
    | Overflow                 // Math.Abs(int.MinValue), int.Parse overflow
    | InvalidOperation         // Pop on an empty stack
    | InvalidSignature         // header signature is not the package magic
    | InvalidChunkSignature    // compressed chunk signature is not the package magic
    | UnsupportedVersion       // save version outside the supported window
    | MissingPackageSignature  // save preamble not followed by the package magic
    | UndefinedBlockCount      // chunk with block size 0
    | DecompressionFailed      // the block decompressor reported an error
    | RelativePath             // PathHelper.MakeRelative given a relative path
    | NotSupported             // a JSON converter asked to read
    | NullReference            // a member of a null string dereferenced

  datatype Result<+T> = Ok(value: T) | Err(error: Error) {
    predicate IsFailure() {
      Err?
    }

    function PropagateFailure<U>(): Result<U>
      requires Err?
    {
      Err(error)
    }

    function Extract(): T
      requires Ok?
    {
      value
    }
  }
}
