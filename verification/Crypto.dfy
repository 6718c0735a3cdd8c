/** Hashing and signing, seen only through their types: keccak yields 32 bytes, secp256k1 signs a hash or fails. */
module Crypto {
  import opened Encoding

  datatype Option<+T> = None | Some(value: T)

  type Keccak = Bytes -> Word

  /** 64 bytes and a recovery id of 0 or 1. */
  type RawSignature = s: Bytes | |s| == 65 && s[64] <= 1 witness seq(65, _ => 0)

  /** The same with the recovery id Ethereum expects. */
  type Signature = s: Bytes | |s| == 65 && 27 <= s[64] <= 28 witness seq(65, _ => 27)

  type Signer = Word -> Option<RawSignature>

  /** sig[64] += 27 */
  function EthereumSignature(raw: RawSignature): Signature {
    raw[64 := raw[64] + 27]
  }

  /** What the signer gives for this hash, byte by byte but for the recovery id, which is raised by 27. */
  predicate IsSignatureOver(sign: Signer, h: Word, s: Signature) {
    && sign(h).Some? && s[64] == sign(h).value[64] + 27
    && forall i | 0 <= i < 64 :: s[i] == sign(h).value[i]
  }

  lemma EthereumSignatureIsOver(sign: Signer, h: Word)
    requires sign(h).Some?
    ensures IsSignatureOver(sign, h, EthereumSignature(sign(h).value))
  {
  }

  ghost predicate Collision(keccak: Keccak, x: Bytes, y: Bytes) {
    x != y && keccak(x) == keccak(y)
  }
}
