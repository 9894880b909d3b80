/** The conventional Some/None datatype: a pdfplumber cell that may be absent,
    and the result of a pattern search that may find nothing. */
module Wrappers {

  datatype Option<+T> = None | Some(value: T)
}
