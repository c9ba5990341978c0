/**
 Outcomes shared by every component: an optional value, and the result of an
 operation that can fail with one of the proxy's error kinds.
 */
module Results {

  datatype Option<+T> = None | Some(value: T)

  /** The kinds of `ProxyError`; their message texts are not modelled. */
  datatype ProxyError = Config | Forbidden | BadRequest | TooLarge | Docker | Internal

  datatype Result<+T> = Ok(value: T) | Err(error: ProxyError)
}
