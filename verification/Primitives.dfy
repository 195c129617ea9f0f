/** The library primitives the protocol code calls, as parameters with their interface laws. */
module Primitives {
  import opened Bytes

  type Digest = s: seq<byte> | |s| == 32 witness Zeros(32)
  type Digest20 = s: seq<byte> | |s| == 20 witness Zeros(20)
  type Block = s: seq<byte> | |s| == 16 witness Zeros(16)
  type AesKey = s: seq<byte> | |s| == 16 || |s| == 24 || |s| == 32 witness Zeros(32)

  /** A hash function applied to the concatenation of its parts. */
  type Hash = seq<byte> -> Digest

  /** A block cipher: for each key one transformation of blocks and the reverse one. */
  datatype Cipher = Cipher(encrypt: (AesKey, Block) -> Block, decrypt: (AesKey, Block) -> Block) {

    /** The interface law of a block cipher: under every key the two are inverse permutations. */
    ghost predicate Valid() {
      && (forall k: AesKey, b: Block :: decrypt(k, encrypt(k, b)) == b)
      && (forall k: AesKey, b: Block :: encrypt(k, decrypt(k, b)) == b)
    }
  }
}
