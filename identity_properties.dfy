/** What `Identity::new` promises, stated end to end in terms of the primitives:
    which salt and parameters reach which algorithm, the layout of the key buffer,
    that the hash and both HKDF expansions are computed from the stretched key, and
    which error each failing stage produces. Since `Identity.New` is proved equal to
    `Identity.Derive`, each of these holds of `New` too. */
module IdentityProperties {
  import opened Crypto
  import Api
  import opened Prelude
  import opened Identity

  /** id is what the stages after stretching make of the stretched key: the hash is
      one PBKDF2 round keyed by the stretched key and salted with the password, and
      the stretched key, accepted as HKDF pseudorandom key, expands with "enc" into
      keys[0..32] and with "mac" into keys[32..64]. */
  ghost predicate DerivedFrom(p: Primitives, password: Bytes, stretched: Bytes, id: Identity) {
    && |id.keys| == KeysLen
    && p.pbkdf2HmacSha256(stretched, password, 1, KeyLen) == Some(id.masterPasswordHash)
    && p.hkdfAcceptsPrk(stretched)
    && p.hkdfExpand(stretched, EncInfo, KeyLen) == Some(id.keys[..KeyLen])
    && p.hkdfExpand(stretched, MacInfo, KeyLen) == Some(id.keys[KeyLen..])
  }

  /** The configuration the Argon2id branch passes to `argon2::hash_raw`: Argon2id v1.3
      with the iterations as time cost, the memory times 1024 as memory cost (in KiB),
      the parallelism as lanes, parallel thread mode, no secret, no associated data and
      a 32-byte tag. */
  ghost predicate IsArgon2idConfig(c: Argon2Config, iterations: U32, memory: U32, parallelism: U32) {
    && c.variant == Argon2Variant.Argon2id
    && c.version == Version13
    && c.memCost == memory * 1024
    && c.timeCost == iterations
    && c.lanes == parallelism
    && c.threadMode == Parallel
    && c.secret == []
    && c.ad == []
    && c.hashLength == KeyLen
  }

  /** An iteration count of zero is rejected with `Pbkdf2ZeroIterations` for both
      algorithms, before either Argon2id parameter is looked at, and no later stage
      ever reports that error. */
  lemma ZeroIterations(p: Primitives, email: Bytes, password: Bytes, kdf: Api.KdfType,
                       iterations: U32, memory: Option<U32>, parallelism: Option<U32>)
    requires Valid(p)
    requires iterations > 0 ==> Argon2ParamsGiven(kdf, memory, parallelism)
    ensures Derive(p, email, password, kdf, iterations, memory, parallelism) == Err(Pbkdf2ZeroIterations)
            <==> iterations == 0
  {
  }

  /** On success the key buffer is 64 bytes, the hash 32, and the email is the input's. */
  lemma SuccessLayout(p: Primitives, email: Bytes, password: Bytes, kdf: Api.KdfType,
                      iterations: U32, memory: Option<U32>, parallelism: Option<U32>, id: Identity)
    requires Valid(p)
    requires iterations > 0 ==> Argon2ParamsGiven(kdf, memory, parallelism)
    requires Derive(p, email, password, kdf, iterations, memory, parallelism) == Ok(id)
    ensures |id.keys| == KeysLen && |id.masterPasswordHash| == KeyLen
    ensures id.email == email
  {
  }

  /** The key buffer is the "enc" expansion followed by the "mac" expansion. */
  lemma KeysAreEncThenMac(p: Primitives, password: Bytes, stretched: Bytes, id: Identity)
    requires Valid(p)
    requires DerivedFrom(p, password, stretched, id)
    ensures id.keys == p.hkdfExpand(stretched, EncInfo, KeyLen).value
                       + p.hkdfExpand(stretched, MacInfo, KeyLen).value
  {
    assert id.keys == id.keys[..KeyLen] + id.keys[KeyLen..];
  }

  /** After a successful stretch to `stretched`, the pipeline yields id exactly when
      id carries the input email and is `DerivedFrom` the stretched key. */
  lemma AfterStretch(p: Primitives, email: Bytes, password: Bytes, kdf: Api.KdfType,
                     iterations: U32, memory: Option<U32>, parallelism: Option<U32>,
                     stretched: Bytes, id: Identity)
    requires Valid(p)
    requires Argon2ParamsGiven(kdf, memory, parallelism)
    requires iterations > 0
    requires Stretch(p, kdf, password, email, iterations, memory, parallelism) == Ok(stretched)
    ensures Derive(p, email, password, kdf, iterations, memory, parallelism) == Ok(id)
            <==> id.email == email && DerivedFrom(p, password, stretched, id)
  {
    if id.email == email && DerivedFrom(p, password, stretched, id) {
      KeysAreEncThenMac(p, password, stretched, id);
    }
  }

  /** Pbkdf2 branch: the pipeline succeeds with id exactly when the iteration count is
      positive, PBKDF2-HMAC-SHA256 of the password salted with the raw email bytes, at
      that iteration count, gives a 32-byte stretched key, and id is derived from it. */
  lemma Pbkdf2Derivation(p: Primitives, email: Bytes, password: Bytes,
                         iterations: U32, memory: Option<U32>, parallelism: Option<U32>, id: Identity)
    requires Valid(p)
    ensures Derive(p, email, password, Api.Pbkdf2, iterations, memory, parallelism) == Ok(id)
            <==> && iterations > 0
                 && p.pbkdf2HmacSha256(password, email, iterations, KeyLen).Some?
                 && id.email == email
                 && DerivedFrom(p, password, p.pbkdf2HmacSha256(password, email, iterations, KeyLen).value, id)
  {
    if iterations > 0 {
      var out := p.pbkdf2HmacSha256(password, email, iterations, KeyLen);
      if out.Some? {
        AfterStretch(p, email, password, Api.Pbkdf2, iterations, memory, parallelism, out.value, id);
      }
    }
  }

  /** Argon2id branch: the pipeline succeeds with id exactly when the iteration count is
      positive, Argon2id of the password salted with SHA-256 of the email, under the
      configuration `IsArgon2idConfig` describes, gives a stretched key, and id is
      derived from it. */
  lemma Argon2idDerivation(p: Primitives, email: Bytes, password: Bytes,
                           iterations: U32, memory: U32, parallelism: U32, id: Identity)
    requires Valid(p)
    requires memory * 1024 < 0x1_0000_0000
    ensures var config := Argon2Params(iterations, memory, parallelism);
            var out := p.argon2HashRaw(password, p.sha256(email), config);
            && IsArgon2idConfig(config, iterations, memory, parallelism)
            && (Derive(p, email, password, Api.Argon2id, iterations, Some(memory), Some(parallelism)) == Ok(id)
                <==> && iterations > 0
                     && out.Some?
                     && id.email == email
                     && DerivedFrom(p, password, out.value, id))
  {
    if iterations > 0 {
      var out := p.argon2HashRaw(password, p.sha256(email), Argon2Params(iterations, memory, parallelism));
      if out.Some? {
        AfterStretch(p, email, password, Api.Argon2id, iterations, Some(memory), Some(parallelism), out.value, id);
      }
    }
  }

  /** The stretched key is always accepted as HKDF pseudorandom key, so the `from_prk`
      error path is never taken; an `HkdfExpand` error after a successful stretch comes
      from one of the two expansions. */
  lemma StretchedKeyAccepted(p: Primitives, email: Bytes, password: Bytes, kdf: Api.KdfType,
                             iterations: U32, memory: Option<U32>, parallelism: Option<U32>,
                             stretched: Bytes)
    requires Valid(p)
    requires Argon2ParamsGiven(kdf, memory, parallelism)
    requires iterations > 0
    requires Stretch(p, kdf, password, email, iterations, memory, parallelism) == Ok(stretched)
    ensures FromPrk(p, stretched) == Some(Hkdf(stretched))
    ensures Derive(p, email, password, kdf, iterations, memory, parallelism) == Err(HkdfExpand) ==>
              || p.hkdfExpand(stretched, EncInfo, KeyLen).None?
              || p.hkdfExpand(stretched, MacInfo, KeyLen).None?
  {
  }

  /** A failing stretch is reported as `Pbkdf2` or `Argon2`, according to the algorithm. */
  lemma StretchFailure(p: Primitives, email: Bytes, password: Bytes, kdf: Api.KdfType,
                       iterations: U32, memory: Option<U32>, parallelism: Option<U32>)
    requires Valid(p)
    requires Argon2ParamsGiven(kdf, memory, parallelism)
    requires iterations > 0
    ensures kdf.Pbkdf2? && p.pbkdf2HmacSha256(password, email, iterations, KeyLen).None? ==>
              Derive(p, email, password, kdf, iterations, memory, parallelism) == Err(Error.Pbkdf2)
    ensures kdf.Argon2id? &&
            p.argon2HashRaw(password, p.sha256(email),
                            Argon2Params(iterations, memory.value, parallelism.value)).None? ==>
              Derive(p, email, password, kdf, iterations, memory, parallelism) == Err(Error.Argon2)
  {
  }

  /** After a successful stretch, a failing hash is reported as `Pbkdf2`, and otherwise
      a rejected pseudorandom key or a failing expansion as `HkdfExpand`. */
  lemma LaterStageFailure(p: Primitives, email: Bytes, password: Bytes, kdf: Api.KdfType,
                          iterations: U32, memory: Option<U32>, parallelism: Option<U32>,
                          stretched: Bytes)
    requires Valid(p)
    requires Argon2ParamsGiven(kdf, memory, parallelism)
    requires iterations > 0
    requires Stretch(p, kdf, password, email, iterations, memory, parallelism) == Ok(stretched)
    ensures p.pbkdf2HmacSha256(stretched, password, 1, KeyLen).None? ==>
              Derive(p, email, password, kdf, iterations, memory, parallelism) == Err(Error.Pbkdf2)
    ensures p.pbkdf2HmacSha256(stretched, password, 1, KeyLen).Some? &&
            (|| !p.hkdfAcceptsPrk(stretched)
             || p.hkdfExpand(stretched, EncInfo, KeyLen).None?
             || p.hkdfExpand(stretched, MacInfo, KeyLen).None?) ==>
              Derive(p, email, password, kdf, iterations, memory, parallelism) == Err(HkdfExpand)
  {
  }
}
