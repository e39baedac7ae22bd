/** The optional value used wherever the editor holds `null` or "not found". */
module Opt {
  datatype Option<+T> = None | Some(value: T)
}
