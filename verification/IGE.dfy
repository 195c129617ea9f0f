/** AES in infinite garble extension mode (mtproto/crypto.go). */
module IGE {
  import opened Bytes
  import opened Primitives
  import opened Wrappers

  /** The mode over one block permutation, from the previous ciphertext and plaintext blocks. */
  function Encrypt(E: Block -> Block, prevC: Block, prevP: Block, plain: seq<byte>): seq<byte>
    decreases |plain|
  {
    if |plain| < 16 then []
    else
      var p: Block := plain[..16];
      var c: Block := Xor(E(Xor(p, prevC)), prevP);
      c + Encrypt(E, c, p, plain[16..])
  }

  function Decrypt(D: Block -> Block, prevC: Block, prevP: Block, cipher: seq<byte>): seq<byte>
    decreases |cipher|
  {
    if |cipher| < 16 then []
    else
      var c: Block := cipher[..16];
      var p: Block := Xor(D(Xor(c, prevP)), prevC);
      p + Decrypt(D, c, p, cipher[16..])
  }

  lemma {:induction false} DecryptEncrypt(E: Block -> Block, D: Block -> Block, prevC: Block, prevP: Block,
                                          plain: seq<byte>, n: nat)
    requires |plain| == 16 * n
    requires forall b: Block :: D(E(b)) == b
    ensures Decrypt(D, prevC, prevP, Encrypt(E, prevC, prevP, plain)) == plain
    ensures |Encrypt(E, prevC, prevP, plain)| == |plain|
    decreases n
  {
    if n > 0 {
      hide Xor;
      var p: Block := plain[..16];
      var masked: Block := Xor(p, prevC);
      var c: Block := Xor(E(masked), prevP);
      XorCancel(E(masked), prevP);
      XorCancel(p, prevC);
      DecryptEncrypt(E, D, c, p, plain[16..], n - 1);
      var r := Encrypt(E, prevC, prevP, plain);
      assert r[..16] == c && r[16..] == Encrypt(E, c, p, plain[16..]);
    }
  }

  lemma {:induction false} EncryptDecrypt(E: Block -> Block, D: Block -> Block, prevC: Block, prevP: Block,
                                          cipher: seq<byte>, n: nat)
    requires |cipher| == 16 * n
    requires forall b: Block :: E(D(b)) == b
    ensures Encrypt(E, prevC, prevP, Decrypt(D, prevC, prevP, cipher)) == cipher
    ensures |Decrypt(D, prevC, prevP, cipher)| == |cipher|
    decreases n
  {
    if n > 0 {
      hide Xor;
      var c: Block := cipher[..16];
      var masked: Block := Xor(c, prevP);
      var p: Block := Xor(D(masked), prevC);
      XorCancel(D(masked), prevC);
      XorCancel(c, prevP);
      EncryptDecrypt(E, D, c, p, cipher[16..], n - 1);
      var r := Decrypt(D, prevC, prevP, cipher);
      assert r[..16] == p && r[16..] == Decrypt(D, c, p, cipher[16..]);
    }
  }

  function LastBlock(first: Block, s: seq<byte>): Block {
    if |s| < 16 then first else s[|s| - 16..]
  }

  lemma EncryptFront(E: Block -> Block, prevC: Block, prevP: Block, p: Block, rest: seq<byte>)
    ensures var c: Block := Xor(E(Xor(p, prevC)), prevP);
            Encrypt(E, prevC, prevP, p + rest) == c + Encrypt(E, c, p, rest)
  {
    hide Xor;
    assert (p + rest)[..16] == p && (p + rest)[16..] == rest;
  }

  lemma LastOfFront(first: Block, b: Block, rest: seq<byte>, n: nat)
    requires |rest| == 16 * n
    ensures LastBlock(first, b + rest) == LastBlock(b, rest)
  {
  }

  /** Encrypting a concatenation is encrypting the halves, carrying the last blocks across. */
  lemma {:induction false} EncryptConcat(E: Block -> Block, prevC: Block, prevP: Block,
                                         a: seq<byte>, n: nat, b: seq<byte>)
    requires |a| == 16 * n
    ensures var first := Encrypt(E, prevC, prevP, a);
            Encrypt(E, prevC, prevP, a + b)
            == first + Encrypt(E, LastBlock(prevC, first), LastBlock(prevP, a), b)
    ensures |Encrypt(E, prevC, prevP, a)| == |a|
    decreases n
  {
    if n == 0 {
      assert a + b == b;
    } else {
      hide Xor, Encrypt, LastBlock;
      var p: Block, rest := a[..16], a[16..];
      var c: Block := Xor(E(Xor(p, prevC)), prevP);
      EncryptConcat(E, c, p, rest, n - 1, b);
      assert a == p + rest && a + b == p + (rest + b);
      EncryptFront(E, prevC, prevP, p, rest);
      EncryptFront(E, prevC, prevP, p, rest + b);
      var first := Encrypt(E, c, p, rest);
      LastOfFront(prevC, c, first, n - 1);
      LastOfFront(prevP, p, rest, n - 1);
      TwoParts(c, first, Encrypt(E, LastBlock(c, first), LastBlock(p, rest), b));
    }
  }

  /** The sizes aesIGEEncrypt and aesIGEDecrypt accept. */
  predicate ValidSizes(text: seq<byte>, key: seq<byte>, iv: seq<byte>) {
    |text| % 16 == 0 && |iv| == 32 && (|key| == 16 || |key| == 24 || |key| == 32)
  }

  /** The mode under a cipher, a key and an initialisation vector. */
  function Seal(aes: Cipher, key: AesKey, iv: Digest, plain: seq<byte>): seq<byte> {
    Encrypt(b => aes.encrypt(key, b), iv[..16], iv[16..], plain)
  }

  function Open(aes: Cipher, key: AesKey, iv: Digest, cipher: seq<byte>): seq<byte> {
    Decrypt(b => aes.decrypt(key, b), iv[..16], iv[16..], cipher)
  }

  /** For every key, every 32-byte vector and any number of blocks, the two directions are inverse. */
  lemma SealOpenInverse(aes: Cipher, key: AesKey, iv: Digest, text: seq<byte>)
    requires aes.Valid() && |text| % 16 == 0
    ensures Open(aes, key, iv, Seal(aes, key, iv, text)) == text
    ensures Seal(aes, key, iv, Open(aes, key, iv, text)) == text
    ensures |Seal(aes, key, iv, text)| == |Open(aes, key, iv, text)| == |text|
  {
    var E, D := (b: Block) => aes.encrypt(key, b), (b: Block) => aes.decrypt(key, b);
    var n := |text| / 16;
    DecryptEncrypt(E, D, iv[..16], iv[16..], text, n);
    EncryptDecrypt(E, D, iv[..16], iv[16..], text, n);
  }

  lemma EncryptStep(E: Block -> Block, prevC: Block, prevP: Block, s: seq<byte>, off: nat)
    requires off + 16 <= |s|
    ensures var p: Block := s[off..off + 16];
            var c: Block := Xor(E(Xor(p, prevC)), prevP);
            Encrypt(E, prevC, prevP, s[off..]) == c + Encrypt(E, c, p, s[off + 16..])
  {
    hide Xor;
    assert s[off..][..16] == s[off..off + 16] && s[off..][16..] == s[off + 16..];
  }

  lemma DecryptStep(D: Block -> Block, prevC: Block, prevP: Block, s: seq<byte>, off: nat)
    requires off + 16 <= |s|
    ensures var c: Block := s[off..off + 16];
            var p: Block := Xor(D(Xor(c, prevP)), prevC);
            Decrypt(D, prevC, prevP, s[off..]) == p + Decrypt(D, c, p, s[off + 16..])
  {
    hide Xor;
    assert s[off..][..16] == s[off..off + 16] && s[off..][16..] == s[off + 16..];
  }

  /** Copies a block into the output buffer. */
  method CopyBlock(out: array<byte>, off: nat, b: Block)
    requires off + 16 <= out.Length
    modifies out
    ensures out[..off + 16] == old(out[..off]) + b
  {
    forall i | 0 <= i < 16 {
      out[off + i] := b[i];
    }
  }

  /** aesIGEEncrypt: the block loop over an output buffer; None is the source's size errors. */
  method AesIGEEncrypt(aes: Cipher, plain: seq<byte>, key: seq<byte>, iv: seq<byte>) returns (r: Option<seq<byte>>)
    ensures r.Some? <==> ValidSizes(plain, key, iv)
    ensures r.Some? ==> r.value == Seal(aes, key, iv, plain)
  {
    if !ValidSizes(plain, key, iv) {
      return None;
    }
    hide Xor, Encrypt;
    var out := new byte[|plain|];
    var prevC: Block, prevP: Block := iv[..16], iv[16..];
    ghost var E := (b: Block) => aes.encrypt(key, b);
    ghost var n, i := |plain| / 16, 0;
    var off := 0;
    assert plain[0..] == plain;
    while off < |plain|
      invariant off == 16 * i <= |plain| == 16 * n
      invariant out[..off] + Encrypt(E, prevC, prevP, plain[off..]) == Seal(aes, key, iv, plain)
    {
      var p: Block := plain[off..off + 16];
      var c: Block := Xor(aes.encrypt(key, Xor(p, prevC)), prevP);
      EncryptStep(E, prevC, prevP, plain, off);
      ghost var done := out[..off];
      CopyBlock(out, off, c);
      Regroup(done, c, Encrypt(E, c, p, plain[off + 16..]));
      prevC, prevP, off, i := c, p, off + 16, i + 1;
    }
    NothingLeft(E, prevC, prevP, plain[off..]);
    r := Some(out[..]);
  }

  lemma Regroup(a: seq<byte>, b: seq<byte>, c: seq<byte>)
    ensures a + (b + c) == (a + b) + c
  {
  }

  lemma NothingLeft(F: Block -> Block, prevC: Block, prevP: Block, s: seq<byte>)
    requires s == []
    ensures Encrypt(F, prevC, prevP, s) == [] && Decrypt(F, prevC, prevP, s) == []
  {
  }

  /** aesIGEDecrypt. */
  method AesIGEDecrypt(aes: Cipher, cipher: seq<byte>, key: seq<byte>, iv: seq<byte>) returns (r: Option<seq<byte>>)
    ensures r.Some? <==> ValidSizes(cipher, key, iv)
    ensures r.Some? ==> r.value == Open(aes, key, iv, cipher)
  {
    if !ValidSizes(cipher, key, iv) {
      return None;
    }
    hide Xor, Decrypt;
    var out := new byte[|cipher|];
    var prevC: Block, prevP: Block := iv[..16], iv[16..];
    ghost var D := (b: Block) => aes.decrypt(key, b);
    ghost var n, i := |cipher| / 16, 0;
    var off := 0;
    assert cipher[0..] == cipher;
    while off < |cipher|
      invariant off == 16 * i <= |cipher| == 16 * n
      invariant out[..off] + Decrypt(D, prevC, prevP, cipher[off..]) == Open(aes, key, iv, cipher)
    {
      var c: Block := cipher[off..off + 16];
      var p: Block := Xor(aes.decrypt(key, Xor(c, prevP)), prevC);
      DecryptStep(D, prevC, prevP, cipher, off);
      ghost var done := out[..off];
      CopyBlock(out, off, p);
      Regroup(done, p, Decrypt(D, c, p, cipher[off + 16..]));
      prevC, prevP, off, i := c, p, off + 16, i + 1;
    }
    NothingLeft(D, prevC, prevP, cipher[off..]);
    r := Some(out[..]);
  }

  /**
   * Block by block: each ciphertext block is the encryption of the plaintext block masked with the
   * ciphertext block before it, masked with the plaintext block before it; the vector is both of the
   * blocks before the first, ciphertext then plaintext.
   */
  lemma SealBlocks(aes: Cipher, key: AesKey, iv: Digest, plain: seq<byte>, n: nat, i: nat)
    requires |plain| == 16 * n && i < n
    ensures var cipher := Seal(aes, key, iv, plain);
            && |cipher| == |plain|
            && var prevC: Block := if i == 0 then iv[..16] else cipher[16 * i - 16..16 * i];
               var prevP: Block := if i == 0 then iv[16..] else plain[16 * i - 16..16 * i];
               cipher[16 * i..16 * i + 16] == Xor(aes.encrypt(key, Xor(plain[16 * i..16 * i + 16], prevC)), prevP)
  {
    hide Xor, Encrypt;
    var E := (b: Block) => aes.encrypt(key, b);
    var a, b := plain[..16 * i], plain[16 * i..];
    assert plain == a + b;
    EncryptConcat(E, iv[..16], iv[16..], a, i, b);
    var first := Encrypt(E, iv[..16], iv[16..], a);
    var p: Block, rest := b[..16], b[16..];
    assert b == p + rest;
    var prevC, prevP := LastBlock(iv[..16], first), LastBlock(iv[16..], a);
    EncryptFront(E, prevC, prevP, p, rest);
    var c: Block := Xor(E(Xor(p, prevC)), prevP);
    EncryptConcat(E, c, p, rest, n - 1 - i, []);
    var cipher := Seal(aes, key, iv, plain);
    var later := Encrypt(E, c, p, rest);
    assert rest + [] == rest && later + [] == later;
    assert cipher == first + (c + later);
    SliceAt(first, c, later, 16 * i);
    SliceAt(a, p, rest, 16 * i);
  }

  lemma SliceAt(a: seq<byte>, b: Block, rest: seq<byte>, n: nat)
    requires |a| == n
    ensures var s := a + (b + rest);
            s[n..n + 16] == b && forall k :: 0 <= k <= n ==> s[k..n] == a[k..]
  {
  }
}
