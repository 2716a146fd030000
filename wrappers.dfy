/** The optional value a GraphQL field resolves to: a record, or `null`. */
module Wrappers {
  datatype Option<+T> = None | Some(value: T)
}
