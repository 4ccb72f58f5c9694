/** Error kinds of the authentication service, and the Result/Option wrappers
    that carry them. Each constructor stands for one error value the Go code
    returns; where the Go code compares errors with errors.Is, the model
    compares constructors. */
module Errors {

  datatype Error =
    // application errors (auth helper package)
    | InvalidUserOrPwd
    | InvalidToken
    | UserAlreadyExists
    | UserNotFound
    // transport errors (http helper package)
    | MissingAuthHeader
    | InvalidAuthHeader
    // persistence (gorm) errors
    | RecordNotFound
    | DuplicateKey
    | DbUnavailable
    // cache errors
    | CacheDisabled
    | CacheUnavailable
    | CacheMiss
    // token codec errors
    | SecretRequired
    | TokenMalformed
    | UnexpectedSigningMethod
    | TokenSignatureInvalid
    | TokenExpired
    // identity verifier failure (network, parse or rejection)
    | VerifierFailed
    // bcrypt errors
    | PasswordTooLong
    | InvalidCost
    // register command validation
    | RequestRequired
    | RequiredFieldsMissing
    // strconv errors
    | NumSyntax
    | NumRange

  datatype Option<+T> = None | Some(value: T)

  datatype Result<+T> = Ok(value: T) | Err(error: Error)

  /** The translation every flow applies to a store error: a not-found record
      becomes InvalidToken, anything else propagates unchanged. */
  function NotFoundAsInvalid(e: Error): Error
  {
    if e == RecordNotFound then InvalidToken else e
  }
}
