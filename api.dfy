/** `crate::api::KdfType`: which key-stretching algorithm the account uses. */
module Api {
  datatype KdfType = Pbkdf2 | Argon2id
}

/** The error variants of the crate's prelude that the identity pipeline produces,
    and its `Result`. */
module Prelude {
  datatype Error =
    | Pbkdf2ZeroIterations  // the iteration count is zero
    | Pbkdf2                // the pbkdf2 crate failed
    | Argon2                // the argon2 crate failed
    | HkdfExpand            // Hkdf::from_prk or Hkdf::expand failed

  datatype Result<T> = Ok(value: T) | Err(error: Error)
}
