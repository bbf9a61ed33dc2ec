/** The external cryptographic crates the identity pipeline calls into:
    `pbkdf2` with `hmac::Hmac<sha2::Sha256>` (RFC 8018 section 5.2), `sha2::Sha256`
    (FIPS 180-4), `argon2::hash_raw` (Argon2 as in RFC 9106) and `hkdf::Hkdf<Sha256>`
    (HKDF-Expand, section 2.3 of RFC 5869).

    Their internals are not modelled. Each primitive is a field of `Primitives`, a value
    of function type that the pipeline is handed, so nothing is known about it except
    what `Valid` states: the length of what it produces. A fallible primitive returns
    `None` where the crate returns its error. */
module Crypto {

  type Byte = bv8
  type Bytes = seq<Byte>

  /** Rust's `u32`. */
  type U32 = x: int | 0 <= x < 0x1_0000_0000

  datatype Option<T> = None | Some(value: T)

  /** Output length of SHA-256, in bytes. */
  const Sha256Len: nat := 32

  /** `argon2::Variant` */
  datatype Argon2Variant = Argon2d | Argon2i | Argon2id

  /** `argon2::Version`: 0x10 and 0x13 */
  datatype Argon2Version = Version10 | Version13

  /** `argon2::ThreadMode` */
  datatype ThreadMode = Sequential | Parallel

  /** `argon2::Config`: memory cost in KiB, time cost in passes, lanes,
      optional secret and associated data, and the tag length in bytes. */
  datatype Argon2Config = Argon2Config(
    variant: Argon2Variant,
    version: Argon2Version,
    memCost: U32,
    timeCost: U32,
    lanes: U32,
    threadMode: ThreadMode,
    secret: Bytes,
    ad: Bytes,
    hashLength: U32)

  /** The primitives, as the crates expose them to the pipeline.
      - pbkdf2HmacSha256(password, salt, rounds, dkLen): the derived key filling an
        output slice of dkLen bytes, or None for the crate's error;
      - sha256(message): the digest;
      - argon2HashRaw(password, salt, config): the raw tag, or None for argon2's error;
      - hkdfAcceptsPrk(prk): whether `Hkdf::from_prk` accepts prk as pseudorandom key;
      - hkdfExpand(prk, info, len): HKDF-Expand output filling a slice of len bytes,
        or None for the crate's error. */
  datatype Primitives = Primitives(
    pbkdf2HmacSha256: (Bytes, Bytes, U32, nat) -> Option<Bytes>,
    sha256: Bytes -> Bytes,
    argon2HashRaw: (Bytes, Bytes, Argon2Config) -> Option<Bytes>,
    hkdfAcceptsPrk: Bytes -> bool,
    hkdfExpand: (Bytes, Bytes, nat) -> Option<Bytes>)

  /** All that is assumed of the primitives: the lengths of their outputs, and that
      `Hkdf::from_prk` accepts every key at least as long as a SHA-256 output (it
      rejects only shorter ones). */
  ghost predicate Valid(p: Primitives) {
    && (forall password, salt, rounds, dkLen ::
          p.pbkdf2HmacSha256(password, salt, rounds, dkLen).Some? ==>
            |p.pbkdf2HmacSha256(password, salt, rounds, dkLen).value| == dkLen)
    && (forall message :: |p.sha256(message)| == Sha256Len)
    && (forall password, salt, config ::
          p.argon2HashRaw(password, salt, config).Some? ==>
            |p.argon2HashRaw(password, salt, config).value| == config.hashLength)
    && (forall prk :: |prk| >= Sha256Len ==> p.hkdfAcceptsPrk(prk))
    && (forall prk, info, len ::
          p.hkdfExpand(prk, info, len).Some? ==> |p.hkdfExpand(prk, info, len).value| == len)
  }

  /** `hkdf::Hkdf<Sha256>`: the extracted state. `from_prk` keeps its own copy of the
      pseudorandom key, so later writes to the buffer it was read from do not reach it. */
  datatype Hkdf = Hkdf(prk: Bytes)

  /** `Hkdf::from_prk`: the state holding a copy of prk, or None when the crate
      rejects the key. */
  function FromPrk(p: Primitives, prk: Bytes): (r: Option<Hkdf>)
    requires Valid(p)
    ensures |prk| >= Sha256Len ==> r.Some?
    ensures r.Some? ==> r.value.prk == prk
  {
    if p.hkdfAcceptsPrk(prk) then Some(Hkdf(prk)) else None
  }

  /** `Hkdf::expand(info, okm)` with `okm` a slice of len bytes: the bytes written to okm. */
  function Expand(p: Primitives, h: Hkdf, info: Bytes, len: nat): (r: Option<Bytes>)
    requires Valid(p)
    ensures r.Some? ==> |r.value| == len
  {
    p.hkdfExpand(h.prk, info, len)
  }
}
