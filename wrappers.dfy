/** An optional value: a grouped price that may be missing (a gap in a chart), or a
    query whose first row may not exist. */
module Wrappers {
  datatype Option<+T> = None | Some(value: T)
}
