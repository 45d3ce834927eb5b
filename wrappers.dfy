/** Option and Result values, bytes, and the errors the configuration scripts raise. */
module Wrappers {

  /** An element of a Python `bytes` value. */
  newtype byte = b: int | 0 <= b < 256

  datatype Option<+T> = None | Some(value: T) {
    /** Python's `x or default` when the only falsy value is None. */
    function GetOr(default: T): T {
      match this
      case Some(v) => v
      case None => default
    }
  }

  /** The `ValueError`s raised along the pipeline, by cause. */
  datatype Error =
    | NoSections            // build_from_text: no [Interface] and no [Peer]
    | EmptyEndpoint         // _split_endpoint on ""
    | EndpointWithoutColon  // _split_endpoint / print.py rsplit unpacking without ':'
    | BadPort(text: string) // int() rejected the port text

  datatype Result<+T> = Ok(value: T) | Err(error: Error)
}
