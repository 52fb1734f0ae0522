/** The optional value used wherever the source holds `T | null` or an
    optional property. */
module Wrappers {

  datatype Option<+T> = None | Some(value: T)
}
