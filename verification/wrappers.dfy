/** Failure-compatible wrappers shared by every module of the model. */
module Wrappers {

  /** An optional value: the model's stand-in for Python's `None`. */
  datatype Option<+T> = None | Some(value: T)

  /** The outcome of an operation that raises in the source: `Failure` carries
      the error the source would raise. */
  datatype Result<+R, +E> = Success(value: R) | Failure(error: E) {
    predicate IsFailure() {
      Failure?
    }

    function PropagateFailure<U>(): Result<U, E>
      requires Failure?
    {
      Failure(error)
    }

    function Extract(): R
      requires Success?
    {
      value
    }
  }
}

/** The errors the modelled code raises, one constructor per raise site family. */
module Errors {

  datatype Error =
    /** `decode_header`: the header is not exactly 8 bytes long. */
    | InvalidHeaderLength(length: nat)
    /** `decode_header` / `_parse_header`: the first byte is not the 0x24 sentinel. */
    | InvalidMagic(magic: int)
    /** `_parse_header`: fewer than 8 bytes. */
    | HeaderTooShort
    /** `struct.pack` / `struct.unpack`: a value or a buffer does not fit the format. */
    | StructError
    /** `_get_stream_info` before `connect`. */
    | NotConnected
    /** The device listing request failed. */
    | DeviceListUnavailable
    /** No resource with the serial and a positive resource type. */
    | DeviceNotFound
    /** The listing has no relay entry for the resource. */
    | VtmInfoNotFound
    /** The relay-token request failed or returned no token. */
    | TokensUnavailable
    /** `get_vtdu_tokens` before the auth server address is known. */
    | AuthUrlNotSet
    /** The session token does not have exactly three dot-separated parts. */
    | InvalidJwt
    /** The redirect URL does not match `ysproto://host:port/`. */
    | RedirectNotFound
}
