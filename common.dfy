/**
 * Types shared by the server and client models: optional values, the
 * outcome of an endpoint, the error kinds the server raises, and the
 * permission tiers of the access ledger.
 */
module Common {

  datatype Option<T> = None | Some(value: T)

  /** One octet of a file body, a file name or an HTTP header. */
  newtype byte = b: int | 0 <= b < 256

  /** Identities are opaque; the store hands out fresh ones (uuid4 in the source). */
  type UserId = nat
  type FileId = nat

  /** The permission tiers stored in the `access_type` column. */
  datatype Permission = Owner | Edit | Read

  /**
   * The exceptions the server raises, one per exception class, plus
   * `ServerError` for a Python error that escapes every handler
   * (a `TypeError` or an uncaught `OSError`), which the framework turns
   * into a 500 response.
   */
  datatype ApiError =
    | InvalidCredentials
    | TokenExpired
    | Unauthorized
    | InvalidRequest
    | NotFound
    | Forbidden
    | ServerError

  datatype Result<T> = Ok(value: T) | Err(error: ApiError)

  /**
   * The settings the server reads from its environment: the two token
   * secrets, the algorithm accepted when decoding, the two lifetimes in
   * minutes, and the directory prefix of stored files.
   */
  datatype Settings = Settings(
    accessSecret: string,
    refreshSecret: string,
    algorithm: string,
    accessExpireMinutes: int,
    refreshExpireMinutes: int,
    fileBasePath: string)

  /** Concatenation of a sequence of chunks. */
  function Concat<T>(chunks: seq<seq<T>>): seq<T>
  {
    if chunks == [] then [] else Concat(chunks[..|chunks| - 1]) + chunks[|chunks| - 1]
  }

  lemma {:induction false} ConcatAppend<T>(chunks: seq<seq<T>>, c: seq<T>)
    ensures Concat(chunks + [c]) == Concat(chunks) + c
  {
    assert (chunks + [c])[..|chunks|] == chunks;
  }
}
