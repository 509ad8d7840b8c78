/** Optional values: JavaScript's `undefined` for a property that may be missing. */
module Wrappers {

  datatype Option<+T> = None | Some(value: T)

  /** A text property of a JSON record: missing (`undefined`), `null`, or a string. */
  datatype TextValue = Missing | NullValue | Text(value: string)
}
