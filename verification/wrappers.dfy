/** The optional value the dashboard uses for its edit cursor, where the
    source holds either an index or `null`. */
module Wrappers {

  datatype Option<+T> = None | Some(value: T)
}
