/** `Identity::new` of src/identity.rs: derives an account's 64-byte key buffer
    (encryption key, then MAC key) and its 32-byte master-password hash from the
    email and the master password.

    `Derive` is the pipeline stage by stage, as values; `New` is the pipeline as the
    source runs it, writing into a zeroed 64-byte `keys` buffer and a 32-byte `hash`
    buffer in place, and is proved to compute exactly what `Derive` does. */
module Identity {
  import opened Crypto
  import Api
  import opened Prelude

  /** `Identity`: the email (as its UTF-8 bytes), the key buffer and the
      master-password hash. */
  datatype Identity = Identity(email: Bytes, keys: Bytes, masterPasswordHash: Bytes)

  /** Length of the stretched key, of each half of the key buffer and of the hash. */
  const KeyLen: nat := 32
  /** Length of the key buffer: encryption key in [0, 32), MAC key in [32, 64). */
  const KeysLen: nat := 64

  /** The HKDF info strings b"enc" and b"mac". */
  const EncInfo: Bytes := [0x65, 0x6e, 0x63]
  const MacInfo: Bytes := [0x6d, 0x61, 0x63]

  /** What the Argon2id branch needs of its caller once the iteration count is known
      to be positive: it unwraps both optional parameters, and multiplies the memory
      (in MiB) by 1024 as a u32. */
  predicate Argon2ParamsGiven(kdf: Api.KdfType, memory: Option<U32>, parallelism: Option<U32>) {
    kdf.Argon2id? ==> memory.Some? && parallelism.Some? && memory.value * 1024 < 0x1_0000_0000
  }

  /** The `argon2::Config` the Argon2id branch builds. */
  function Argon2Params(iterations: U32, memory: U32, parallelism: U32): Argon2Config
    requires memory * 1024 < 0x1_0000_0000
  {
    Argon2Config(
      variant := Argon2Variant.Argon2id,
      version := Version13,
      memCost := memory * 1024,
      timeCost := iterations,
      lanes := parallelism,
      threadMode := Parallel,
      secret := [],
      ad := [],
      hashLength := KeyLen)
  }

  /** Stretching: PBKDF2 salted with the raw email, or Argon2id salted with the
      SHA-256 digest of the email. A failure is tagged with the branch's error. */
  function Stretch(p: Primitives, kdf: Api.KdfType, password: Bytes, email: Bytes,
                   iterations: U32, memory: Option<U32>, parallelism: Option<U32>): (r: Result<Bytes>)
    requires Valid(p)
    requires iterations > 0
    requires Argon2ParamsGiven(kdf, memory, parallelism)
    ensures r.Ok? ==> |r.value| == KeyLen
    ensures r.Err? ==> r.error == (if kdf.Pbkdf2? then Error.Pbkdf2 else Error.Argon2)
  {
    match kdf
    case Pbkdf2 =>
      (match p.pbkdf2HmacSha256(password, email, iterations, KeyLen)
       case None => Err(Error.Pbkdf2)
       case Some(key) => Ok(key))
    case Argon2id =>
      var salt := p.sha256(email);
      match p.argon2HashRaw(password, salt, Argon2Params(iterations, memory.value, parallelism.value))
      case None => Err(Error.Argon2)
      case Some(key) => Ok(key)
  }

  /** The master-password hash: one round of PBKDF2-HMAC-SHA256 with the stretched
      key as the secret and the password as the salt. */
  function PasswordHash(p: Primitives, stretched: Bytes, password: Bytes): (r: Result<Bytes>)
    requires Valid(p)
    ensures r.Ok? ==> |r.value| == KeyLen
    ensures r.Err? ==> r.error == Error.Pbkdf2
  {
    match p.pbkdf2HmacSha256(stretched, password, 1, KeyLen)
    case None => Err(Error.Pbkdf2)
    case Some(hash) => Ok(hash)
  }

  /** The key buffer: the stretched key as HKDF pseudorandom key, expanded with
      "enc" into the first half and with "mac" into the second. */
  function ExpandKeys(p: Primitives, stretched: Bytes): (r: Result<Bytes>)
    requires Valid(p)
    ensures r.Ok? ==> |r.value| == KeysLen
    ensures r.Err? ==> r.error == HkdfExpand
  {
    match FromPrk(p, stretched)
    case None => Err(HkdfExpand)
    case Some(hkdf) =>
      match Expand(p, hkdf, EncInfo, KeyLen)
      case None => Err(HkdfExpand)
      case Some(encKey) =>
        match Expand(p, hkdf, MacInfo, KeyLen)
        case None => Err(HkdfExpand)
        case Some(macKey) => Ok(encKey + macKey)
  }

  /** The whole derivation: zero-iteration check, stretching, hash, key expansion,
      assembly; the first failing stage decides the error. */
  function Derive(p: Primitives, email: Bytes, password: Bytes, kdf: Api.KdfType,
                  iterations: U32, memory: Option<U32>, parallelism: Option<U32>): (r: Result<Identity>)
    requires Valid(p)
    requires iterations > 0 ==> Argon2ParamsGiven(kdf, memory, parallelism)
  {
    if iterations == 0 then Err(Pbkdf2ZeroIterations)
    else
      match Stretch(p, kdf, password, email, iterations, memory, parallelism)
      case Err(e) => Err(e)
      case Ok(stretched) =>
        match PasswordHash(p, stretched, password)
        case Err(e) => Err(e)
        case Ok(hash) =>
          match ExpandKeys(p, stretched)
          case Err(e) => Err(e)
          case Ok(keys) => Ok(Identity(email, keys, hash))
  }

  /** `Identity::new`, in the order the source runs it. The stretched key is written
      into keys[0..32] (the `enc_key` slice) and read back from there for the hash
      and for `from_prk`; the "enc" expansion then overwrites that slice, and the
      "mac" expansion uses the copy the HKDF state took. */
  method New(p: Primitives, email: Bytes, password: Bytes, kdf: Api.KdfType,
             iterations: U32, memory: Option<U32>, parallelism: Option<U32>) returns (r: Result<Identity>)
    requires Valid(p)
    requires iterations > 0 ==> Argon2ParamsGiven(kdf, memory, parallelism)
    ensures r == Derive(p, email, password, kdf, iterations, memory, parallelism)
  {
    if iterations == 0 {
      return Err(Pbkdf2ZeroIterations);
    }

    var keys := new Byte[KeysLen](_ => 0);

    match kdf {
      case Pbkdf2 =>
        var out := p.pbkdf2HmacSha256(password, email, iterations, KeyLen);
        if out.None? {
          return Err(Error.Pbkdf2);
        }
        // pbkdf2 fills the enc_key slice
        forall k | 0 <= k < KeyLen {
          keys[k] := out.value[k];
        }
      case Argon2id =>
        var salt := p.sha256(email);
        var config := Argon2Params(iterations, memory.value, parallelism.value);
        var out := p.argon2HashRaw(password, salt, config);
        if out.None? {
          return Err(Error.Argon2);
        }
        // enc_key.copy_from_slice(&hash)
        for i := 0 to KeyLen
          invariant forall k :: 0 <= k < i ==> keys[k] == out.value[k]
        {
          keys[i] := out.value[i];
        }
    }
    ghost var stretched := Stretch(p, kdf, password, email, iterations, memory, parallelism).value;
    assert keys[..KeyLen] == stretched;

    var hash := new Byte[KeyLen](_ => 0);
    var hashOut := p.pbkdf2HmacSha256(keys[..KeyLen], password, 1, KeyLen);
    if hashOut.None? {
      return Err(Error.Pbkdf2);
    }
    // pbkdf2 fills the hash buffer
    forall k | 0 <= k < KeyLen {
      hash[k] := hashOut.value[k];
    }

    assert PasswordHash(p, stretched, password) == Ok(hashOut.value);
    assert keys[..KeyLen] == stretched;

    var hkdf := FromPrk(p, keys[..KeyLen]);
    if hkdf.None? {
      return Err(HkdfExpand);
    }
    var encKey := Expand(p, hkdf.value, EncInfo, KeyLen);
    if encKey.None? {
      return Err(HkdfExpand);
    }
    // expand fills enc_key, overwriting the stretched key
    forall k | 0 <= k < KeyLen {
      keys[k] := encKey.value[k];
    }
    var macKey := Expand(p, hkdf.value, MacInfo, KeyLen);
    if macKey.None? {
      return Err(HkdfExpand);
    }
    // expand fills the mac_key slice keys[32..64]
    forall k | KeyLen <= k < KeysLen {
      keys[k] := macKey.value[k - KeyLen];
    }

    assert hash[..] == hashOut.value;
    assert keys[..] == encKey.value + macKey.value;
    r := Ok(Identity(email, keys[..], hash[..]));
  }
}
