/** Optional values and outcomes that either carry a value or say why the
    computation stopped (the source's exceptions and failed assertions). */
module Results {

  datatype Option<T> = None | Some(value: T)

  datatype Result<T, E> = Ok(value: T) | Err(error: E)
}
