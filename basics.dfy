/** Small value types shared by every part of the codec model. */
module Basics {

  /** A byte of the archive stream. */
  type Byte = b: int | 0 <= b < 256

  /** A stream object a decoder reads from, as the bytes it holds. */
  datatype Source = Source(bytes: seq<Byte>)

  datatype Option<+T> = None | Some(value: T)

  /** The Python exceptions the codec raises, by kind. */
  datatype Error =
    | ValueError(msg: string)     // bad argument or unparsable integer
    | ValidationError             // the schema check rejected the record
    | KeyError(key: string)       // a dictionary lookup of a missing key
    | AttributeError(name: string) // a call of a method the object does not have
    | TypeError(what: string)     // an operation given a value of the wrong type (None for bytes)

  datatype Result<+T> = Ok(value: T) | Err(error: Error)
}
