/** Optional values (a value or an absent one) and results (a value or the
    error that stopped the computation). */
module Options {

  datatype Option<+T> = None | Some(value: T)

  datatype Result<+T, +E> = Ok(value: T) | Err(error: E)
}
