/** Optional values and outcomes shared by the model: `Option` for a C pointer
    that may be NULL, `Result` for a step that either yields a value or stops
    with an error. */
module Results {

  datatype Option<+T> = None | Some(value: T)

  datatype Result<+T, +E> = Ok(value: T) | Err(error: E)
}
