/** Types and constants shared by the modules that model the executor and the research code. */
module Common {
  datatype Option<+T> = None | Some(value: T)

  datatype Result<+T> = Ok(value: T) | Err(error: string)

  datatype Side = Long | Short

  datatype OrderSide = Buy | Sell

  /** A base size this small is no position at all. */
  const DUST_BASE: real := 0.000001
}
