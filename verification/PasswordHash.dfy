/** The loops behind the password proof: the key derivation and the random exponent (mtproto/password.go). */
module PasswordHash {
  import opened Bytes
  import opened Streams
  import opened Wrappers

  type Digest64 = s: seq<byte> | |s| == 64 witness Zeros(64)

  /** A keyed hash: the pseudorandom function of the derivation, on a key and a message. */
  type Mac = (seq<byte>, seq<byte>) -> Digest64

  // PBKDF2 as section 5.2 of RFC 8018 defines it.

  /** INT(i): the four low bytes of a block index, most significant first. */
  function BlockIndex(i: nat): (s: seq<byte>)
    ensures |s| == 4
  {
    [i / 0x100_0000 % 256, i / 0x1_0000 % 256, i / 0x100 % 256, i % 256]
  }

  lemma FourBytes(a: byte, b: byte, c: byte, d: byte)
    ensures FromBE([a, b, c, d]) == 256 * (256 * (256 * a + b) + c) + d
  {
    var s: seq<byte> := [a, b, c, d];
    assert s[..3] == [a, b, c] && [a, b, c][..2] == [a, b] && [a, b][..1] == [a] && [a][..0] == [];
    assert FromBE([a]) == a;
    assert FromBE([a, b]) == 256 * a + b;
    assert FromBE([a, b, c]) == 256 * (256 * a + b) + c;
  }

  lemma FourDigits(i: nat)
    ensures 256 * (256 * (256 * (i / 0x100_0000 % 256) + i / 0x1_0000 % 256) + i / 0x100 % 256) + i % 256 == i
            <==> i < 0x1_0000_0000
  {
    var x1, x2, x3 := i / 0x100, i / 0x1_0000, i / 0x100_0000;
    assert x2 == x1 / 0x100 && x3 == x2 / 0x100;
    assert i == 256 * (256 * (256 * x3 + x2 % 256) + x1 % 256) + i % 256;
  }

  /** The index is encoded faithfully exactly while it fits four bytes. */
  lemma BlockIndexExact(i: nat)
    ensures FromBE(BlockIndex(i)) == i <==> i < 0x1_0000_0000
  {
    hide FromBE;
    FourBytes(i / 0x100_0000 % 256, i / 0x1_0000 % 256, i / 0x100 % 256, i % 256);
    FourDigits(i);
  }

  /** U_i of a block. */
  function Iterate(prf: Mac, password: seq<byte>, salt: seq<byte>, block: nat, i: nat): Digest64
    requires i >= 1
  {
    if i == 1 then prf(password, salt + BlockIndex(block))
    else prf(password, Iterate(prf, password, salt, block, i - 1))
  }

  /** U_1 xor ... xor U_iter. */
  function BlockKey(prf: Mac, password: seq<byte>, salt: seq<byte>, block: nat, iter: nat): Digest64
    requires iter >= 1
  {
    if iter == 1 then Iterate(prf, password, salt, block, 1)
    else Xor(BlockKey(prf, password, salt, block, iter - 1), Iterate(prf, password, salt, block, iter))
  }

  /** T_1 || ... || T_n. */
  function BlockKeys(prf: Mac, password: seq<byte>, salt: seq<byte>, iter: nat, n: nat): (s: seq<byte>)
    requires iter >= 1
    ensures |s| == 64 * n
  {
    if n == 0 then [] else BlockKeys(prf, password, salt, iter, n - 1) + BlockKey(prf, password, salt, n, iter)
  }

  function BlockCount(keyLen: nat): (n: nat)
    ensures keyLen <= 64 * n < keyLen + 64
  {
    (keyLen + 63) / 64
  }

  function DerivedKey(prf: Mac, password: seq<byte>, salt: seq<byte>, iter: nat, keyLen: nat): (s: seq<byte>)
    requires iter >= 1
    ensures |s| == keyLen
  {
    BlockKeys(prf, password, salt, iter, BlockCount(keyLen))[..keyLen]
  }

  lemma {:induction false} BlockKeysPrefix(prf: Mac, password: seq<byte>, salt: seq<byte>, iter: nat, m: nat, n: nat)
    requires iter >= 1 && m <= n
    ensures BlockKeys(prf, password, salt, iter, m) <= BlockKeys(prf, password, salt, iter, n)
  {
    if m < n {
      BlockKeysPrefix(prf, password, salt, iter, m, n - 1);
    }
  }

  /** Asking for a longer key only adds bytes. */
  lemma DerivedKeyPrefix(prf: Mac, password: seq<byte>, salt: seq<byte>, iter: nat, short: nat, long: nat)
    requires iter >= 1 && short <= long
    ensures DerivedKey(prf, password, salt, iter, short) <= DerivedKey(prf, password, salt, iter, long)
  {
    hide BlockKeys;
    BlockKeysPrefix(prf, password, salt, iter, BlockCount(short), BlockCount(long));
  }

  /** The hashes of one block: of the salt with the block's number in four bytes, and then each of the one before. */
  ghost predicate HashChain(prf: Mac, password: seq<byte>, salt: seq<byte>, number: seq<byte>, us: seq<Digest64>) {
    && us != [] && us[0] == prf(password, salt + number)
    && forall i :: 1 <= i < |us| ==> us[i] == prf(password, us[i - 1])
  }

  /** Whether an odd number of hashes have bit b of byte j set. */
  ghost predicate OddBit(us: seq<Digest64>, j: nat, b: nat)
    requires j < 64
    decreases |us|
  {
    us != [] && (NthBit(us[|us| - 1][j], b) == 1) != OddBit(us[..|us| - 1], j, b)
  }

  lemma {:induction false} ChainIterates(prf: Mac, password: seq<byte>, salt: seq<byte>, block: nat,
                                         us: seq<Digest64>, i: nat)
    requires i < |us| && HashChain(prf, password, salt, BlockIndex(block), us)
    ensures us[i] == Iterate(prf, password, salt, block, i + 1)
  {
    if i > 0 {
      ChainIterates(prf, password, salt, block, us, i - 1);
    }
  }

  /** A block of the key has a bit set exactly when an odd number of its hashes have. */
  lemma {:induction false} BlockBits(prf: Mac, password: seq<byte>, salt: seq<byte>, block: nat, us: seq<Digest64>,
                                     j: nat, b: nat)
    requires HashChain(prf, password, salt, BlockIndex(block), us) && j < 64 && b < 8
    ensures NthBit(BlockKey(prf, password, salt, block, |us|)[j], b) == 1 <==> OddBit(us, j, b)
    decreases |us|
  {
    hide NthBit, BlockIndex, Iterate;
    var n := |us| - 1;
    ChainIterates(prf, password, salt, block, us, n);
    if n == 0 {
      assert us[..0] == [] && !OddBit([], j, b);
    } else {
      BlockBits(prf, password, salt, block, us[..n], j, b);
      XorBitsAt(BlockKey(prf, password, salt, block, n)[j], us[n][j], 8, b);
    }
  }

  /** The key is its blocks one after the other, numbered from one. */
  lemma {:induction false} KeyBlocks(prf: Mac, password: seq<byte>, salt: seq<byte>, iter: nat, n: nat, i: nat)
    requires iter >= 1 && i < n
    ensures BlockKeys(prf, password, salt, iter, n)[64 * i..64 * i + 64] == BlockKey(prf, password, salt, i + 1, iter)
  {
    hide BlockKey;
    if i < n - 1 {
      KeyBlocks(prf, password, salt, iter, n - 1, i);
    }
  }

  /**
   * Every bit of a derived key: byte j of the block with some number, given by its four bytes, is
   * the exclusive or of that byte in all hashes of the chain.
   */
  lemma DerivedKeyBits(prf: Mac, password: seq<byte>, salt: seq<byte>, keyLen: nat, at: nat, number: seq<byte>,
                       us: seq<Digest64>, b: nat)
    requires at < keyLen && at / 64 + 1 < 0x1_0000_0000 && b < 8
    requires |number| == 4 && FromBE(number) == at / 64 + 1 && HashChain(prf, password, salt, number, us)
    ensures NthBit(DerivedKey(prf, password, salt, |us|, keyLen)[at], b) == 1 <==> OddBit(us, at % 64, b)
  {
    hide NthBit, BlockIndex, BlockKey, BlockKeys, OddBit, FromBE;
    var i := at / 64;
    BlockIndexExact(i + 1);
    FromBEInjective(number, BlockIndex(i + 1));
    BlockBits(prf, password, salt, i + 1, us, at % 64, b);
    var n := BlockCount(keyLen);
    KeyBlocks(prf, password, salt, |us|, n, i);
    assert BlockKeys(prf, password, salt, |us|, n)[64 * i..64 * i + 64][at % 64]
           == BlockKeys(prf, password, salt, |us|, n)[at];
  }

  /** One block: the running hash is folded into the buffer t in place. */
  method DeriveBlock(prf: Mac, password: seq<byte>, salt: seq<byte>, block: nat, iter: nat) returns (t: array<byte>)
    requires iter >= 1
    ensures fresh(t) && t[..] == BlockKey(prf, password, salt, block, iter)
  {
    hide XorByte, BlockIndex;
    var u := prf(password, salt + BlockIndex(block));
    t := new byte[64](j requires 0 <= j < 64 => u[j]);
    assert t[..] == u;
    for i := 1 to iter
      invariant u == Iterate(prf, password, salt, block, i)
      invariant t[..] == BlockKey(prf, password, salt, block, i)
    {
      u := prf(password, u);
      ghost var before := t[..];
      for j := 0 to t.Length
        invariant forall k :: 0 <= k < j ==> t[k] == XorByte(before[k], u[k])
        invariant forall k :: j <= k < t.Length ==> t[k] == before[k]
      {
        t[j] := XorByte(t[j], u[j]);
      }
      assert t[..] == Xor(before, u);
    }
  }

  /** pbkdf2HMACSHA512: the derived key, or nothing when no iterations or bytes are asked for. */
  method Pbkdf2(prf: Mac, password: seq<byte>, salt: seq<byte>, iter: int, keyLen: int) returns (key: seq<byte>)
    ensures iter <= 0 || keyLen <= 0 ==> key == []
    ensures iter > 0 && keyLen > 0 ==> key == DerivedKey(prf, password, salt, iter, keyLen)
  {
    if iter <= 0 || keyLen <= 0 {
      return [];
    }
    hide BlockKey;
    var numBlocks := BlockCount(keyLen);
    var out := [];
    for block := 1 to numBlocks + 1
      invariant out == BlockKeys(prf, password, salt, iter, block - 1)
    {
      var t := DeriveBlock(prf, password, salt, block, iter);
      out := out + t[..];
    }
    key := out[..keyLen];
  }

  // The random exponent.

  /** The first draw of `size` bytes whose number lies strictly between zero and max. */
  function FirstBelow(max: nat, size: nat, stream: seq<byte>): (n: Option<nat>)
    requires size > 0
    ensures n.Some? ==> 0 < n.value < max
  {
    if |stream| < size then None
    else if 0 < FromBE(stream[..size]) < max then Some(FromBE(stream[..size]))
    else FirstBelow(max, size, stream[size..])
  }

  /** What that draw leaves of the stream; nothing when there is none. */
  function AfterBelow(max: nat, size: nat, stream: seq<byte>): seq<byte>
    requires size > 0
  {
    if |stream| < size then []
    else if 0 < FromBE(stream[..size]) < max then stream[size..]
    else AfterBelow(max, size, stream[size..])
  }

  /** Every number below max comes from exactly one draw, so uniform draws give uniform numbers. */
  lemma OneDrawForEach(max: nat, v: nat, draw: seq<byte>, later: seq<byte>)
    requires 0 < v < max
    ensures var size := |BigBytes(max)|;
            size > 0 && |PadBig(v, size)| == size
            && (|draw| == size ==> (FirstBelow(max, size, draw) == Some(v) <==> draw == PadBig(v, size)))
            && FirstBelow(max, size, PadBig(v, size) + later) == Some(v)
  {
    hide BigBytes, FromBE, PadBig;
    var size := |BigBytes(max)|;
    BigBytesLength(max, size);
    PadBigRoundTrip(v, size);
    BigBytesNonEmpty(max);
    assert (PadBig(v, size) + later)[..size] == PadBig(v, size);
    if |draw| == size {
      assert draw[..size] == draw && draw[size..] == [];
      if FromBE(draw) == v {
        FromBEInjective(draw, PadBig(v, size));
      }
    }
  }

  lemma BigBytesNonEmpty(v: nat)
    ensures v > 0 <==> BigBytes(v) != []
  {
  }

  /** randomBigIntLessThan, which draws until a number fits; here until the stream runs out. */
  method RandomBelow(max: int, rng: ByteSource) returns (n: Option<nat>)
    modifies rng
    ensures max <= 0 ==> n == None && rng.bytes == old(rng.bytes)
    ensures max > 0 ==>
              var size := |BigBytes(max)|;
              && size > 0 && n == FirstBelow(max, size, old(rng.bytes))
              && rng.bytes == AfterBelow(max, size, old(rng.bytes))
  {
    if max <= 0 {
      return None;
    }
    var size := |BigBytes(max)|;
    BigBytesNonEmpty(max);
    hide BigBytes, FromBE;
    while true
      invariant FirstBelow(max, size, old(rng.bytes)) == FirstBelow(max, size, rng.bytes)
      invariant AfterBelow(max, size, old(rng.bytes)) == AfterBelow(max, size, rng.bytes)
      decreases |rng.bytes|
    {
      var b := rng.ReadFull(size);
      if b == None {
        return None;
      }
      var v := FromBE(b.value);
      if v > 0 && v < max {
        return Some(v);
      }
    }
  }
}
