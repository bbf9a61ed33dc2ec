# rbw identity derivation, modelled in Dafny

This project models `Identity::new` of rbw, a Bitwarden client. `Identity::new` turns an
account's email and master password into:
- a 64-byte key buffer, with the encryption key in bytes [0, 32) and the MAC key in bytes [32, 64);
- a 32-byte master-password hash;
- a copy of the email.

The derivation runs in four stages:
1. Reject a zero iteration count.
2. Stretch the password into the first half of a zeroed 64-byte buffer. PBKDF2-HMAC-SHA256 uses
   the raw email as salt. Argon2id v1.3 uses the SHA-256 digest of the email as salt.
3. Compute the hash with one PBKDF2 round. Its roles are swapped: the stretched key is the
   secret and the password is the salt.
4. Take the stretched key as an HKDF pseudorandom key. Expand `"enc"` over the slot it was
   read from, then expand `"mac"` into the second half.

Files:
- `crypto.dfy` (module `Crypto`) holds the external primitives: PBKDF2 (RFC 8018 section 5.2),
  SHA-256 (FIPS 180-4), Argon2id (RFC 9106) and HKDF-Expand (section 2.3 of RFC 5869).
  - Each primitive is a function-valued field of `Primitives`. The pipeline is handed these
    values; nothing checks what they compute.
  - `Valid` is all that is assumed about them: the length of what they return, and the HKDF
    crate's rule that `from_prk` accepts every key of at least 32 bytes.
  - A fallible primitive returns `None` where its crate returns an error.
  - `Hkdf` is the HKDF state. It holds its own copy of the pseudorandom key.
- `api.dfy` holds `Api.KdfType`, plus the error variants and the `Result` of the crate's
  prelude (`Prelude`).
- `identity.dfy` (module `Identity`) holds two versions of the pipeline:
  - `Derive` computes it stage by stage on values.
  - `New` runs it as the source does. It writes into a local 64-byte `keys` array and a 32-byte
    `hash` array, reads the stretched key back out of `keys[0..32]` for the hash and for
    `from_prk`, and overwrites that slot with the `"enc"` key.

  `New` is proved to return exactly what `Derive` returns.
- `identity_properties.dfy` (module `IdentityProperties`) states the promises of the pipeline
  in terms of the primitives, for both algorithms:
  - which salt and which parameters reach which primitive;
  - the layout of the key buffer;
  - that the hash and both expansions use the stretched key;
  - which error each failing stage produces.

Notes on the source:
- **`memory` is in MiB.** The source multiplies it by 1024 to get Argon2's memory cost, which is
  in KiB (src/identity.rs:48).
- **Argon2id parameters.** With a positive iteration count, the Argon2id branch unwraps `memory`
  and `parallelism` and computes `memory*1024` as a u32 (src/identity.rs:48, 50). The model
  makes these a precondition only when the iteration count is positive
  (`iterations > 0 ==> Identity.Argon2ParamsGiven(...)`). A zero count is rejected before either
  parameter is looked at (src/identity.rs:21-22).
- **Order of the hash.** The hash is computed from the stretched key before `"enc"` overwrites
  it (src/identity.rs:63-73).

## Model

| member | source | states |
|---|---|---|
| `Identity.New` | src/identity.rs:13-87 | Running the pipeline in place gives exactly what `Derive` gives. The stretched key is written to `keys[0..32]` and read back from there for the hash and for `from_prk`. `"enc"` then overwrites that slot, and `"mac"` is expanded from the HKDF state's copy of the stretched key. |
| `Identity.Derive` | src/identity.rs:13-87 | The value-level model of `Identity::new`: the zero check, then stretching, the hash, key expansion and assembly, with the first failing stage deciding the error. It has no contract of its own; its promises are the `IdentityProperties` lemmas. |
| `Identity.Argon2Params` | src/identity.rs:45-55 | The `argon2::Config` literal. It has no contract of its own; `IdentityProperties.Argon2idDerivation` states every field. |
| `Identity.Stretch` | src/identity.rs:29-59 | A stretched key is always 32 bytes. A failed stretch is reported as `Pbkdf2` for the Pbkdf2 branch and as `Argon2` for the Argon2id branch. |
| `Identity.PasswordHash` | src/identity.rs:61-69 | The hash stage yields 32 bytes, or fails with `Pbkdf2`. |
| `Identity.ExpandKeys` | src/identity.rs:71-77 | The key expansion yields a 64-byte buffer, or fails with `HkdfExpand`. |
| `Crypto.FromPrk` | src/identity.rs:71-72 | Every key at least as long as a SHA-256 output (32 bytes) is accepted. A successful state holds the key it was given. |
| `IdentityProperties.StretchedKeyAccepted` | src/identity.rs:71-72 | After a successful stretch, `from_prk` accepts the stretched key, so its error path is never taken. An `HkdfExpand` error then comes from the `"enc"` or the `"mac"` expansion. |
| `Crypto.Expand` | src/identity.rs:73-76 | A successful expansion fills exactly the requested number of bytes. |
| `IdentityProperties.ZeroIterations` | src/identity.rs:21-22 | Both algorithms return `Pbkdf2ZeroIterations` if and only if the iteration count is 0. This holds even when an Argon2id parameter is missing. No later stage reports that error. |
| `IdentityProperties.SuccessLayout` | src/identity.rs:24-86 | On success the key buffer has 64 bytes and the hash has 32. The email equals the input email. |
| `IdentityProperties.KeysAreEncThenMac` | src/identity.rs:73-77 | The key buffer is the `"enc"` expansion followed by the `"mac"` expansion, both of the same pseudorandom key. |
| `IdentityProperties.AfterStretch` | src/identity.rs:60-86 | Given a stretched key, the call returns `Ok(id)` if and only if `id` has the input email and `id` is derived from that key. "Derived" means: the hash is PBKDF2(secret = stretched key, salt = password, 1 round, 32 bytes), keys[0..32] is HKDF-Expand(stretched key, "enc", 32) and keys[32..64] is HKDF-Expand(stretched key, "mac", 32). |
| `IdentityProperties.Pbkdf2Derivation` | src/identity.rs:30-37 | In the Pbkdf2 branch, the call returns `Ok(id)` if and only if all of these hold: the iteration count is positive, PBKDF2-HMAC-SHA256(password, salt = raw email bytes, iterations, 32 bytes) succeeds, `id` has the input email, and `id` is derived from that stretched key. |
| `IdentityProperties.Argon2idDerivation` | src/identity.rs:40-57 | The Argon2id configuration is Argon2id v1.3 with time cost = iterations, memory cost = memory*1024, lanes = parallelism, parallel thread mode, empty secret and associated data, and a 32-byte tag. The call returns `Ok(id)` if and only if the iteration count is positive, Argon2id(password, salt = SHA-256(email), that configuration) succeeds, `id` has the input email, and `id` is derived from its output. |
| `IdentityProperties.StretchFailure` | src/identity.rs:29-59 | With a positive iteration count, a failing PBKDF2 stretch returns `Err(Pbkdf2)` and a failing Argon2id stretch returns `Err(Argon2)`. |
| `IdentityProperties.LaterStageFailure` | src/identity.rs:63-77 | After a successful stretch, a failing hash returns `Err(Pbkdf2)`. After that, a rejected pseudorandom key or a failing `"enc"` or `"mac"` expansion returns `Err(HkdfExpand)`. |

## Left out

- Internals of PBKDF2, HMAC, SHA-256, Argon2id and HKDF: they live in external crates. They are function parameters constrained only by output length (and the `from_prk` length rule), so reference test vectors cannot be stated.
- `crate::locked` (zero-on-release secret buffers, `Keys`, `PasswordHash`, `Password`): a memory-hygiene concern. The buffers are plain arrays and sequences here, and zeroing on drop is not modelled.
- Argon2 lanes as real parallelism and `ThreadMode::Parallel`: these are tuning inside the argon2 crate. The thread mode is passed through as a value only.
- `Identity.New`: when the iteration count is positive, requires `memory*1024` to fit in a u32. The source's u32 multiplication panics beyond that in a debug build and wraps around in a release build; neither is modelled.
- `Identity.New`: when the iteration count is positive, requires both Argon2id parameters to be present, because the source then panics on `unwrap` without them.
- `Identity.New`: reads the email as its UTF-8 bytes (`str::as_bytes`). UTF-8 validity of the email is not modelled.
- `copy_from_slice` panics when the Argon2 tag is not 32 bytes. `Crypto.Valid` excludes this case, because the crate returns a tag of exactly the configured length.
- Determinism across repeated calls holds by construction, because `Derive` is a function. No separate lemma states it.
- The claims that a different email or password gives different keys or a different hash: they rest on the collision resistance of the primitives, which their length-only contracts cannot express.
