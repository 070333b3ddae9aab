/** Option and Result values for JavaScript's `undefined` results and thrown errors. */
module Wrappers {

  /** `None` stands for JavaScript's `undefined` (e.g. `Array.prototype.find` finding nothing). */
  datatype Option<+T> = None | Some(value: T)

  /** `Err` stands for an exception that the modelled JavaScript code would throw. */
  datatype Result<+T, +E> = Ok(value: T) | Err(error: E)
}
