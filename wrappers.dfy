/** The optional value used for the service's dataframe slot and for
    operations that can fail. */
module Wrappers {
  datatype Option<+T> = None | Some(value: T)
}
