/** The status codes shared by every component (include/geistshell/status.h). */
module Statuses {
  datatype Status =
    | Ok
    | InvalidArg
    | NotFound
    | Overflow
    | Limit
    | Io
    | Format
    | Schema
    | PolicyDenied
    | Internal

  datatype Option<+T> = None | Some(value: T)

  function Min(a: int, b: int): int {
    if a < b then a else b
  }
}
