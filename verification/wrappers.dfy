/** The optional-value datatype used for the operating-system probes, whose
    failures (an `OSError` in the analyzer) are represented by `None`. */
module Wrappers {

  datatype Option<+T> = None | Some(value: T)
}
