/** RSA_PAD and the SHA-1 envelope of the handshake (mtproto/crypto.go). */
module RsaPadding {
  import opened Bytes
  import opened Primitives
  import opened Streams
  import opened Wrappers
  import IGE
  import opened KeyAgreement

  datatype PublicKey = PublicKey(n: nat, e: nat) {
    /** rsa.PublicKey.Size: the length of the modulus in bytes. */
    function Size(): nat {
      |BigBytes(n)|
    }
  }

  /** A private exponent of the key: raising to e and then to it gives back every number below n. */
  ghost predicate PrivateExponent(key: PublicKey, d: nat) {
    key.n > 0 && forall m: nat :: m < key.n ==> ModExp(ModExp(m, key.e, key.n), d, key.n) == m
  }

  const ZERO_IV: Digest := Zeros(32)

  /** rsaRawEncrypt: the power as a numeral padded to the key size. */
  function RsaRawEncrypt(key: PublicKey, plain: seq<byte>): seq<byte>
    requires key.n > 0
  {
    PadBig(ModExp(FromBE(plain), key.e, key.n), key.Size())
  }

  /** The 256-byte block one attempt raises to the key exponent. */
  function KeyAesEncrypted(sha256: Hash, aes: Cipher, padded: seq<byte>, tempKey: Digest): seq<byte> {
    var sealed := IGE.Seal(aes, tempKey, ZERO_IV, Reverse(padded) + sha256(tempKey + padded));
    Xor(tempKey, sha256(sealed)) + sealed
  }

  /** Attempts on a stream of random bytes: 192 - |data| padding bytes and a 32-byte key each. */
  function RsaPadSpec(sha256: Hash, aes: Cipher, key: PublicKey, data: seq<byte>, random: seq<byte>,
                      attempts: nat): Option<seq<byte>>
    requires |data| <= 144 && key.n > 0
  {
    var fill := 192 - |data|;
    if attempts == 0 || |random| < fill + 32 then None
    else
      var block := KeyAesEncrypted(sha256, aes, data + random[..fill], random[fill..fill + 32]);
      if FromBE(block) >= key.n then
        RsaPadSpec(sha256, aes, key, data, random[fill + 32..], attempts - 1)
      else
        Some(RsaRawEncrypt(key, block))
  }

  /** What the attempts leave of the random bytes; nothing when they run out. */
  function RsaPadLeft(sha256: Hash, aes: Cipher, key: PublicKey, data: seq<byte>, random: seq<byte>,
                      attempts: nat): seq<byte>
    requires |data| <= 144 && key.n > 0
  {
    var fill := 192 - |data|;
    if attempts == 0 then random
    else if |random| < fill + 32 then []
    else
      var block := KeyAesEncrypted(sha256, aes, data + random[..fill], random[fill..fill + 32]);
      if FromBE(block) >= key.n then RsaPadLeft(sha256, aes, key, data, random[fill + 32..], attempts - 1)
      else random[fill + 32..]
  }

  /** What the holder of the private exponent does with the result. */
  function RsaUnpad(sha256: Hash, aes: Cipher, key: PublicKey, d: nat, encrypted: seq<byte>): Option<seq<byte>>
    requires key.n > 0
  {
    var block := PadBig(ModExp(FromBE(encrypted), d, key.n), 256);
    if |block| != 256 then None
    else
      var sealed := block[32..];
      var tempKey: Digest := Xor(block[..32], sha256(sealed));
      var inner := IGE.Open(aes, tempKey, ZERO_IV, sealed);
      if |inner| != 224 then None
      else
        var padded := Reverse(inner[..192]);
        if sha256(tempKey + padded) == inner[192..] then Some(padded) else None
  }

  lemma SealedLength(sha256: Hash, aes: Cipher, padded: seq<byte>, tempKey: Digest)
    requires aes.Valid() && |padded| == 192
    ensures |KeyAesEncrypted(sha256, aes, padded, tempKey)| == 256
  {
    IGE.SealOpenInverse(aes, tempKey, ZERO_IV, Reverse(padded) + sha256(tempKey + padded));
  }

  /** Undoing the RSA step gives back the 256-byte block itself. */
  lemma RsaStepUndone(key: PublicKey, d: nat, block: seq<byte>)
    requires PrivateExponent(key, d) && key.Size() == 256
    requires |block| == 256 && FromBE(block) < key.n
    ensures var c := RsaRawEncrypt(key, block);
            |c| == 256 && PadBig(ModExp(FromBE(c), d, key.n), 256) == block
  {
    hide BigBytes, PadBig, ModExp;
    BigBytesLength(key.n, 256);
    var c := ModExp(FromBE(block), key.e, key.n);
    PadBigRoundTrip(c, 256);
    PadBigRoundTrip(FromBE(block), 256);
    FromBEInjective(PadBig(FromBE(block), 256), block);
  }

  /** Undoing the key XOR, the block mode and the reversal gives back the padded data. */
  lemma BlockUndone(sha256: Hash, aes: Cipher, padded: seq<byte>, tempKey: Digest)
    requires aes.Valid() && |padded| == 192
    ensures var block := KeyAesEncrypted(sha256, aes, padded, tempKey);
            && |block| == 256
            && Xor(block[..32], sha256(block[32..])) == tempKey
            && IGE.Open(aes, tempKey, ZERO_IV, block[32..]) == Reverse(padded) + sha256(tempKey + padded)
  {
    hide Xor;
    var inner := Reverse(padded) + sha256(tempKey + padded);
    IGE.SealOpenInverse(aes, tempKey, ZERO_IV, inner);
    var sealed := IGE.Seal(aes, tempKey, ZERO_IV, inner);
    XorCancel(tempKey, sha256(sealed));
    var block := KeyAesEncrypted(sha256, aes, padded, tempKey);
    assert block[..32] == Xor(tempKey, sha256(sealed)) && block[32..] == sealed;
  }

  lemma AttemptRecoverable(sha256: Hash, aes: Cipher, key: PublicKey, d: nat, padded: seq<byte>, tempKey: Digest)
    requires aes.Valid() && PrivateExponent(key, d) && key.Size() == 256 && |padded| == 192
    requires FromBE(KeyAesEncrypted(sha256, aes, padded, tempKey)) < key.n
    ensures var encrypted := RsaRawEncrypt(key, KeyAesEncrypted(sha256, aes, padded, tempKey));
            RsaUnpad(sha256, aes, key, d, encrypted) == Some(padded)
  {
    hide Xor, PadBig, ModExp, FromBE, RsaRawEncrypt, KeyAesEncrypted;
    var block := KeyAesEncrypted(sha256, aes, padded, tempKey);
    BlockUndone(sha256, aes, padded, tempKey);
    RsaStepUndone(key, d, block);
    var inner := Reverse(padded) + sha256(tempKey + padded);
    assert inner[..192] == Reverse(padded) && inner[192..] == sha256(tempKey + padded);
    ReverseTwice(padded);
  }

  /**
   * Whatever the random stream, a result of RSA_PAD has 256 bytes and the private-key holder
   * recovers from it a 192-byte block that starts with the data and whose hash check holds.
   */
  lemma {:induction false} RsaPadRecoverable(sha256: Hash, aes: Cipher, key: PublicKey, d: nat, data: seq<byte>,
                                             random: seq<byte>, attempts: nat)
    requires aes.Valid() && PrivateExponent(key, d) && key.Size() == 256 && |data| <= 144
    requires RsaPadSpec(sha256, aes, key, data, random, attempts).Some?
    ensures var encrypted := RsaPadSpec(sha256, aes, key, data, random, attempts).value;
            var padded := RsaUnpad(sha256, aes, key, d, encrypted);
            |encrypted| == 256 && padded.Some? && |padded.value| == 192 && data <= padded.value
    decreases attempts
  {
    hide KeyAesEncrypted, RsaRawEncrypt, RsaUnpad;
    var fill := 192 - |data|;
    var padded, tempKey: Digest := data + random[..fill], random[fill..fill + 32];
    var block := KeyAesEncrypted(sha256, aes, padded, tempKey);
    if FromBE(block) >= key.n {
      RsaPadRecoverable(sha256, aes, key, d, data, random[fill + 32..], attempts - 1);
    } else {
      SealedLength(sha256, aes, padded, tempKey);
      RsaStepUndone(key, d, block);
      AttemptRecoverable(sha256, aes, key, d, padded, tempKey);
    }
  }

  /** The body of one attempt, on the drawn padding and key. */
  method EncryptAttempt(sha256: Hash, aes: Cipher, dataWithPadding: seq<byte>,
                        tempKey: Digest) returns (block: seq<byte>)
    requires aes.Valid() && |dataWithPadding| == 192
    ensures block == KeyAesEncrypted(sha256, aes, dataWithPadding, tempKey) && |block| == 256
  {
    hide Xor;
    var dataPadReversed := ReverseBytes(dataWithPadding);
    var dataWithHash := dataPadReversed[..] + sha256(tempKey + dataWithPadding);
    var aesEncrypted := IGE.AesIGEEncrypt(aes, dataWithHash, tempKey, ZERO_IV);
    var tempKeyXor := XorBytes(tempKey, sha256(aesEncrypted.value));
    block := tempKeyXor[..] + aesEncrypted.value;
    SealedLength(sha256, aes, dataWithPadding, tempKey);
  }

  /** How the attempts end: with this result, and with this left of the random bytes. */
  ghost predicate PadsTo(sha256: Hash, aes: Cipher, key: PublicKey, data: seq<byte>, random: seq<byte>, attempts: nat,
                         r: Option<seq<byte>>, left: seq<byte>)
    requires |data| <= 144 && key.n > 0
  {
    && r == RsaPadSpec(sha256, aes, key, data, random, attempts)
    && left == RsaPadLeft(sha256, aes, key, data, random, attempts)
  }

  /** The attempts left on the rest of the bytes end as all the attempts on all of them do. */
  ghost predicate EndsAlike(sha256: Hash, aes: Cipher, key: PublicKey, data: seq<byte>, all: seq<byte>,
                            random: seq<byte>, attempts: nat)
    requires |data| <= 144 && key.n > 0
  {
    && RsaPadSpec(sha256, aes, key, data, all, 32) == RsaPadSpec(sha256, aes, key, data, random, attempts)
    && RsaPadLeft(sha256, aes, key, data, all, 32) == RsaPadLeft(sha256, aes, key, data, random, attempts)
  }

  lemma RsaPadStep(sha256: Hash, aes: Cipher, key: PublicKey, data: seq<byte>, all: seq<byte>, random: seq<byte>,
                   attempts: nat)
    requires |data| <= 144 && key.n > 0 && EndsAlike(sha256, aes, key, data, all, random, attempts)
    ensures attempts == 0 ==> PadsTo(sha256, aes, key, data, all, 32, None, random)
    ensures attempts > 0 && |random| < 224 - |data| ==> PadsTo(sha256, aes, key, data, all, 32, None, [])
    ensures attempts > 0 && |random| >= 224 - |data| ==>
              var padding, tempKey := random[..192 - |data|], random[192 - |data|..224 - |data|];
              var block, rest := KeyAesEncrypted(sha256, aes, data + padding, tempKey), random[224 - |data|..];
              if FromBE(block) < key.n then
                PadsTo(sha256, aes, key, data, all, 32, Some(RsaRawEncrypt(key, block)), rest)
              else
                EndsAlike(sha256, aes, key, data, all, rest, attempts - 1)
  {
    hide FromBE, RsaRawEncrypt, KeyAesEncrypted;
  }

  /** rsaPad: up to 32 attempts on the random stream. */
  method RsaPad(sha256: Hash, aes: Cipher, key: PublicKey, data: seq<byte>,
                rng: ByteSource) returns (r: Option<seq<byte>>)
    requires aes.Valid() && key.n > 0
    modifies rng
    ensures |data| > 144 || key.Size() != 256 ==> r == None && rng.bytes == old(rng.bytes)
    ensures |data| <= 144 && key.Size() == 256 ==>
              PadsTo(sha256, aes, key, data, old(rng.bytes), 32, r, rng.bytes)
  {
    hide FromBE, RsaRawEncrypt, KeyAesEncrypted, RsaPadSpec, RsaPadLeft, BigBytes, PadsTo;
    if |data| > 144 {
      return None;
    }
    if key.Size() != 256 {
      return None;
    }
    var fill := 192 - |data|;
    ghost var all := rng.bytes;
    assert EndsAlike(sha256, aes, key, data, all, all, 32);
    hide EndsAlike;
    for attempt := 0 to 32
      invariant EndsAlike(sha256, aes, key, data, all, rng.bytes, 32 - attempt)
    {
      ghost var random := rng.bytes;
      RsaPadStep(sha256, aes, key, data, all, random, 32 - attempt);
      var padding := rng.ReadFull(fill);
      if padding == None {
        return None;
      }
      var dataWithPadding := data + padding.value;
      var tempKey := rng.ReadFull(32);
      if tempKey == None {
        return None;
      }
      assert tempKey.value == random[fill..fill + 32] && rng.bytes == random[fill + 32..];
      var block := EncryptAttempt(sha256, aes, dataWithPadding, tempKey.value);
      if FromBE(block) < key.n {
        return Some(RsaRawEncrypt(key, block));
      }
    }
    RsaPadStep(sha256, aes, key, data, all, rng.bytes, 0);
    return None;
  }

  // The SHA-1 envelope.

  type Hash20 = seq<byte> -> Digest20

  /** addSHA1AndPad16 with the given padding bytes, of which there are fewer than 16. */
  function AddSHA1(sha1: Hash20, data: seq<byte>, padding: seq<byte>): seq<byte> {
    sha1(data) + data + padding
  }

  /** The amount of padding addSHA1AndPad16 draws. */
  function SHA1PaddingLength(data: seq<byte>): (n: nat)
    ensures n <= 15
    ensures (20 + |data| + n) % 16 == 0
  {
    var padding := 16 - (20 + |data|) % 16;
    if padding == 16 then 0 else padding
  }

  /**
   * stripSHA1AndPadding: the longest prefix with the announced hash, among those that leave at
   * most 15 bytes of padding.
   */
  method StripSHA1AndPadding(sha1: Hash20, data: seq<byte>) returns (r: Option<seq<byte>>)
    ensures |data| < 20 ==> r == None
    ensures |data| >= 20 ==>
              var payload := data[20..];
              match r
              case Some(found) =>
                && found <= payload && |payload| - |found| <= 15 && sha1(found) == data[..20]
                && forall n :: |found| < n <= |payload| ==> sha1(payload[..n]) != data[..20]
              case None =>
                forall n :: 0 <= n <= |payload| && |payload| - n <= 15 ==> sha1(payload[..n]) != data[..20]
  {
    if |data| < 20 {
      return None;
    }
    var want, payload := data[..20], data[20..];
    var n := |payload|;
    while n >= 0 && |payload| - n <= 15
      invariant -1 <= n <= |payload|
      invariant forall k :: n < k <= |payload| ==> sha1(payload[..k]) != want
    {
      var candidate := payload[..n];
      var equal := EqualBytes(sha1(candidate), want);
      if equal {
        return Some(candidate);
      }
      n := n - 1;
    }
    return None;
  }

  /**
   * Stripping what was added gives back the data exactly when no longer prefix of data and
   * padding has the same hash.
   */
  method StripAddedSHA1(sha1: Hash20, data: seq<byte>, padding: seq<byte>) returns (r: Option<seq<byte>>)
    requires |padding| == SHA1PaddingLength(data)
    ensures r == Some(data) <==>
              forall n :: 0 < n <= |padding| ==> sha1(data + padding[..n]) != sha1(data)
  {
    var whole := AddSHA1(sha1, data, padding);
    var payload := data + padding;
    assert whole[..20] == sha1(data) && whole[20..] == payload;
    r := StripSHA1AndPadding(sha1, whole);
    assert payload[..|data|] == data;
    forall n | 0 < n <= |padding|
      ensures payload[..|data| + n] == data + padding[..n]
    {
    }
    if r == Some(data) {
      forall n | 0 < n <= |padding|
        ensures sha1(data + padding[..n]) != sha1(data)
      {
        assert sha1(payload[..|data| + n]) != sha1(data);
      }
    } else {
      assert r.Some? && |r.value| >= |data| by {
        assert sha1(payload[..|data|]) == whole[..20];
      }
      var found := r.value;
      assert found == payload[..|found|];
      assert found == data + padding[..|found| - |data|];
      assert |found| > |data|;
    }
  }
}
