/** The source's `null`-or-value results (a voice index, the stored voice selection). */
module Opt {
  datatype Option<+T> = None | Some(value: T)
}
