/** Optional values and the success-or-message outcome that every fallible
    operation of the icon generator returns. A thrown JavaScript `Error` is
    modelled by its message string. */
module Results {

  datatype Option<+T> = None | Some(value: T)

  /** `Ok(v)` is a resolved promise or returned value, `Err(msg)` a thrown
      `Error` carrying `msg`. */
  datatype Result<+T> = Ok(value: T) | Err(msg: string)
}
