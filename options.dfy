/** Optional values and error-or-value results, used wherever the JavaScript
    code reads `undefined` or rejects a request. */
module Options {

  datatype Option<+T> = None | Some(value: T)

  datatype Result<+T, +E> = Ok(value: T) | Err(error: E)
}
