/** The optional-value type used wherever the source has `T | null` or an
    optional property (`assignee?: string`). */
module Wrappers {

  datatype Option<+T> = None | Some(value: T)
}
