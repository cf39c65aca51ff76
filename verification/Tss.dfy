/** Return codes, hash algorithm identifiers and C pointers, as the ESAPI crypto layer uses them. */
module Tss {
  /** A pointer that may be NULL, together with what it points to. */
  datatype Option<+T> = None | Some(value: T)

  /** The TSS2_RC values of the ESAPI layer that the modelled functions produce. Other(code) is
      a code handed up unaltered from another layer. */
  datatype RC =
    | Success
    | GeneralFailure
    | NotImplemented
    | BadReference
    | BadValue
    | BadSize
    | Memory
    | CallbackNull
    | Other(code: nat)

  type uint16 = x: nat | x < 0x1_0000
  type uint32 = x: nat | x < 0x1_0000_0000
  const TWO32: nat := 0x1_0000_0000

  /** TPM2_ALG_ID */
  type AlgId = uint16
  const ALG_SHA1: AlgId := 0x0004
  const ALG_SHA256: AlgId := 0x000B
  const ALG_SHA384: AlgId := 0x000C
  const ALG_SHA512: AlgId := 0x000D
  const ALG_NULL: AlgId := 0x0010
  const ALG_SM3_256: AlgId := 0x0012

  /** iesys_crypto_hash_get_digest_size; None is its TSS2_ESYS_RC_BAD_VALUE. */
  function DigestSize(alg: AlgId): (size: Option<nat>)
    ensures size.Some? ==> 20 <= size.value <= 64
    ensures size.Some? ==> alg != ALG_NULL
  {
    if alg == ALG_SHA1 then Some(20)
    else if alg == ALG_SHA256 then Some(32)
    else if alg == ALG_SHA384 then Some(48)
    else if alg == ALG_SHA512 then Some(64)
    else if alg == ALG_SM3_256 then Some(32)
    else None
  }

  /** The digest sizes that the names promise, in bits over eight, by the registered identifiers. */
  lemma DigestSizesFollowNames(alg: AlgId)
    ensures DigestSize(0x0004) == Some(160 / 8) && DigestSize(0x000B) == DigestSize(0x0012) == Some(256 / 8)
    ensures DigestSize(0x000C) == Some(384 / 8) && DigestSize(0x000D) == Some(512 / 8)
    ensures alg !in {0x0004, 0x000B, 0x000C, 0x000D, 0x0012} ==> DigestSize(alg) == None
  {
  }
}
