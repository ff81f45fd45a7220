/** Option and Result, the two shapes the scripts' `null`/`undefined` results and thrown errors take here. */
module Wrappers {

  /** `None` stands for JavaScript's `null`, `undefined` or `NaN`, depending on the call. */
  datatype Option<+T> = None | Some(value: T)

  /** `Err` stands for an exception the script throws, or for a run it ends early. */
  datatype Result<+T, +E> = Ok(value: T) | Err(error: E)
}
