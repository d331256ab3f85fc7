/** The optional value used for lookups that may find nothing and for the
    library steps that may raise. */
module Wrappers {

  datatype Option<+T> = None | Some(value: T)

  /** A byte of a PDF stream or an encoded image. */
  newtype byte = b: int | 0 <= b < 256

  type bytes = seq<byte>
}
