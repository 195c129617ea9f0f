/** Bytes, machine integers and the byte-string operations every other module rests on. */
module Bytes {
  import opened Arithmetic

  type byte = x: int | 0 <= x < 256
  type u32 = x: int | 0 <= x < 0x1_0000_0000
  type u64 = x: int | 0 <= x < 0x1_0000_0000_0000_0000
  type i32 = x: int | -0x8000_0000 <= x < 0x8000_0000
  type i64 = x: int | -0x8000_0000_0000_0000 <= x < 0x8000_0000_0000_0000

  const MAX_I64: i64 := 0x7fff_ffff_ffff_ffff

  // Two's-complement reinterpretation and wrap-around, as Go's integer conversions do it.

  function Wrap32(x: int): i32 {
    var m := x % 0x1_0000_0000;
    if m < 0x8000_0000 then m else m - 0x1_0000_0000
  }

  function Wrap64(x: int): i64 {
    var m := x % 0x1_0000_0000_0000_0000;
    if m < 0x8000_0000_0000_0000 then m else m - 0x1_0000_0000_0000_0000
  }

  function U32(x: int): u32 {
    x % 0x1_0000_0000
  }

  function U64(x: int): u64 {
    x % 0x1_0000_0000_0000_0000
  }

  lemma Wrap32U32(x: i32)
    ensures Wrap32(U32(x)) == x
  {
  }

  lemma Wrap64U64(x: i64)
    ensures Wrap64(U64(x)) == x
  {
  }

  /** A conversion keeps the value modulo the word size and lands in the range of its type. */
  lemma WrapsCongruent(x: int)
    ensures (Wrap32(x) - x) % 0x1_0000_0000 == 0 && (Wrap64(x) - x) % 0x1_0000_0000_0000_0000 == 0
    ensures -0x8000_0000 <= x < 0x8000_0000 ==> Wrap32(x) == x
    ensures -0x8000_0000_0000_0000 <= x < 0x8000_0000_0000_0000 ==> Wrap64(x) == x
  {
    SameResidue(x, 0x1_0000_0000, Wrap32(x));
    SameResidue(x, 0x1_0000_0000_0000_0000, Wrap64(x));
  }

  lemma SameResidue(x: int, m: int, r: int)
    requires m > 0 && (r == x % m || r == x % m - m)
    ensures (r - x) % m == 0
  {
    var k := if r == x % m then -(x / m) else -(x / m) - 1;
    assert r - x == m * k;
    MulMod(m, k);
  }

  // Little-endian and big-endian numerals of a fixed width.

  function Pow256(n: nat): (p: nat)
    ensures p > 0
  {
    if n == 0 then 1 else 256 * Pow256(n - 1)
  }

  function LE(v: nat, n: nat): (s: seq<byte>)
    ensures |s| == n
  {
    if n == 0 then [] else [v % 256] + LE(v / 256, n - 1)
  }

  function FromLE(s: seq<byte>): (v: nat)
    ensures v < Pow256(|s|)
  {
    if s == [] then 0 else s[0] + 256 * FromLE(s[1..])
  }

  lemma {:induction false} FromLEInvertsLE(v: nat, n: nat)
    requires v < Pow256(n)
    ensures FromLE(LE(v, n)) == v
  {
    if n > 0 {
      FromLEInvertsLE(v / 256, n - 1);
    }
  }

  lemma {:induction false} LEInvertsFromLE(s: seq<byte>)
    ensures LE(FromLE(s), |s|) == s
  {
    if s != [] {
      LEInvertsFromLE(s[1..]);
      FirstDigit(s[0], FromLE(s[1..]));
      LEUnrolled(FromLE(s), |s|);
      hide LE;
      assert s == [s[0]] + s[1..];
    }
  }

  lemma FirstDigit(low: byte, high: nat)
    ensures (low + 256 * high) % 256 == low && (low + 256 * high) / 256 == high
  {
  }

  lemma LEUnrolled(v: nat, n: nat)
    requires n > 0
    ensures LE(v, n) == [v % 256] + LE(v / 256, n - 1)
  {
  }

  lemma U32Wrap32(x: u32)
    ensures U32(Wrap32(x)) == x
  {
  }

  lemma U64Wrap64(x: u64)
    ensures U64(Wrap64(x)) == x
  {
  }

  function Reverse<T>(s: seq<T>): (r: seq<T>)
    ensures |r| == |s|
    ensures forall i :: 0 <= i < |s| ==> r[i] == s[|s| - 1 - i]
  {
    seq(|s|, i requires 0 <= i < |s| => s[|s| - 1 - i])
  }

  lemma ReverseTwice<T>(s: seq<T>)
    ensures Reverse(Reverse(s)) == s
  {
  }

  /** Big-endian value of a byte string, most significant byte first. */
  function FromBE(s: seq<byte>): (v: nat)
    ensures v < Pow256(|s|)
  {
    if s == [] then 0 else 256 * FromBE(s[..|s| - 1]) + s[|s| - 1]
  }

  /** The minimal big-endian numeral: no leading zero byte, empty for zero. */
  function BigBytes(v: nat): (s: seq<byte>)
    ensures FromBE(s) == v
    ensures s != [] ==> s[0] != 0
  {
    if v == 0 then []
    else
      var init, last := BigBytes(v / 256), [v % 256];
      assert (init + last)[..|init|] == init;
      init + last
  }

  /** A minimal numeral is as short as its value allows. */
  lemma {:induction false} BigBytesLength(v: nat, n: nat)
    ensures v < Pow256(n) <==> |BigBytes(v)| <= n
  {
    if v > 0 && n > 0 {
      BigBytesLength(v / 256, n - 1);
    }
  }

  function Zeros(n: nat): (s: seq<byte>)
    ensures |s| == n
  {
    seq(n, _ => 0)
  }

  /** padBigIntBytes: left-pad the minimal numeral with zeros up to `size` bytes. */
  function PadBig(v: nat, size: nat): (s: seq<byte>)
  {
    var b := BigBytes(v);
    if |b| >= size then b else Zeros(size - |b|) + b
  }

  lemma {:induction false} LeadingZeros(n: nat, s: seq<byte>)
    ensures FromBE(Zeros(n) + s) == FromBE(s)
    decreases n + |s|
  {
    if s == [] {
      if n > 0 {
        assert (Zeros(n) + s)[..n - 1] == Zeros(n - 1) + s;
        LeadingZeros(n - 1, s);
      }
    } else {
      assert (Zeros(n) + s)[..n + |s| - 1] == Zeros(n) + s[..|s| - 1];
      LeadingZeros(n, s[..|s| - 1]);
    }
  }

  /** Fixed-width encoding: exactly `size` bytes when the value fits, and it always decodes back. */
  lemma PadBigRoundTrip(v: nat, size: nat)
    ensures FromBE(PadBig(v, size)) == v
    ensures v < Pow256(size) <==> |PadBig(v, size)| == size
  {
    var b := BigBytes(v);
    BigBytesLength(v, size);
    if |b| < size {
      LeadingZeros(size - |b|, b);
    }
  }

  lemma {:induction false} FromBEInjective(a: seq<byte>, b: seq<byte>)
    requires |a| == |b| && FromBE(a) == FromBE(b)
    ensures a == b
  {
    if a != [] {
      var n := |a| - 1;
      FromBEInjective(a[..n], b[..n]);
      assert a == a[..n] + [a[n]] && b == b[..n] + [b[n]];
    }
  }

  // Exclusive or, bit by bit.

  function Pow2(n: nat): (p: nat)
    ensures p > 0
  {
    if n == 0 then 1 else 2 * Pow2(n - 1)
  }

  function XorBits(a: nat, b: nat, n: nat): (r: nat)
    ensures r < Pow2(n)
  {
    if n == 0 then 0 else (if a % 2 == b % 2 then 0 else 1) + 2 * XorBits(a / 2, b / 2, n - 1)
  }

  /** The defining equation, on a number given as its lowest bit and the rest. */
  lemma XorBitsStep(bit: nat, high: nat, b: nat, n: nat)
    requires bit < 2 && n > 0
    ensures XorBits(bit + 2 * high, b, n) == (if bit == b % 2 then 0 else 1) + 2 * XorBits(high, b / 2, n - 1)
  {
    var x := bit + 2 * high;
    assert x % 2 == bit && x / 2 == high;
  }

  lemma {:induction false} XorBitsCancel(bit: nat, high: nat, b: nat, n: nat)
    requires bit < 2 && n > 0 && high < Pow2(n - 1)
    ensures XorBits(XorBits(bit + 2 * high, b, n), b, n) == bit + 2 * high
    decreases n
  {
    hide XorBits;
    var low, rest := if bit == b % 2 then 0 else 1, XorBits(high, b / 2, n - 1);
    XorBitsStep(bit, high, b, n);
    XorBitsStep(low, rest, b, n);
    assert XorBits(rest, b / 2, n - 1) == high by {
      if n > 1 {
        assert high == high % 2 + 2 * (high / 2);
        XorBitsCancel(high % 2, high / 2, b / 2, n - 1);
      } else {
        XorBitsZero(high, b / 2);
        XorBitsZero(rest, b / 2);
      }
    }
  }

  lemma XorBitsZero(a: nat, b: nat)
    ensures XorBits(a, b, 0) == 0
  {
  }

  function XorByte(a: byte, b: byte): byte {
    assert Pow2(8) == 256;
    XorBits(a, b, 8)
  }

  lemma XorByteCancel(a: byte, b: byte)
    ensures XorByte(XorByte(a, b), b) == a
  {
    assert Pow2(8) == 256;
    XorBitsCancel(a % 2, a / 2, b, 8);
  }

  function Xor(a: seq<byte>, b: seq<byte>): (r: seq<byte>)
    requires |a| <= |b|
    ensures |r| == |a|
  {
    seq(|a|, i requires 0 <= i < |a| => XorByte(a[i], b[i]))
  }

  lemma XorCancel(a: seq<byte>, b: seq<byte>)
    requires |a| <= |b|
    ensures Xor(Xor(a, b), b) == a
  {
    hide XorByte;
    forall i | 0 <= i < |a| ensures Xor(Xor(a, b), b)[i] == a[i] {
      XorByteCancel(a[i], b[i]);
    }
  }

  /** xorBytes. */
  method XorBytes(a: seq<byte>, b: seq<byte>) returns (out: array<byte>)
    requires |a| <= |b|
    ensures fresh(out) && out[..] == Xor(a, b)
  {
    hide XorByte;
    out := new byte[|a|];
    for i := 0 to |a|
      invariant forall k :: 0 <= k < i ==> out[k] == XorByte(a[k], b[k])
    {
      out[i] := XorByte(a[i], b[i]);
    }
  }

  /** reverseBytes. */
  method ReverseBytes(b: seq<byte>) returns (out: array<byte>)
    ensures fresh(out) && out[..] == Reverse(b)
  {
    out := new byte[|b|];
    for i := 0 to |b|
      invariant forall k :: 0 <= k < i ==> out[k] == b[|b| - 1 - k]
    {
      out[i] := b[|b| - 1 - i];
    }
  }

  // Comparison that folds every difference into one byte.

  function OrBits(a: nat, b: nat, n: nat): (r: nat)
    ensures r < Pow2(n)
  {
    if n == 0 then 0 else (if a % 2 == 1 || b % 2 == 1 then 1 else 0) + 2 * OrBits(a / 2, b / 2, n - 1)
  }

  lemma {:induction false} OrBitsZero(a: nat, b: nat, n: nat)
    requires a < Pow2(n) && b < Pow2(n)
    ensures OrBits(a, b, n) == 0 <==> a == 0 && b == 0
  {
    if n > 0 {
      OrBitsZero(a / 2, b / 2, n - 1);
    }
  }

  function OrByte(a: byte, b: byte): byte {
    assert Pow2(8) == 256;
    OrBits(a, b, 8)
  }

  lemma OrByteZero(a: byte, b: byte)
    ensures OrByte(a, b) == 0 <==> a == 0 && b == 0
  {
    assert Pow2(8) == 256;
    OrBitsZero(a, b, 8);
  }

  lemma {:induction false} XorBitsEqual(a: nat, b: nat, n: nat)
    requires a < Pow2(n) && b < Pow2(n)
    ensures XorBits(a, b, n) == 0 <==> a == b
  {
    if n > 0 {
      XorBitsEqual(a / 2, b / 2, n - 1);
      assert a == 2 * (a / 2) + a % 2 && b == 2 * (b / 2) + b % 2;
    }
  }

  lemma XorByteZero(a: byte, b: byte)
    ensures XorByte(a, b) == 0 <==> a == b
  {
    assert Pow2(8) == 256;
    XorBitsEqual(a, b, 8);
  }

  /** equalBytes: no early exit on contents, and still exactly equality. */
  method EqualBytes(a: seq<byte>, b: seq<byte>) returns (equal: bool)
    ensures equal <==> a == b
  {
    if |a| != |b| {
      return false;
    }
    hide XorByte, OrByte;
    var v: byte := 0;
    for i := 0 to |a|
      invariant v == 0 <==> forall k :: 0 <= k < i ==> a[k] == b[k]
    {
      XorByteZero(a[i], b[i]);
      OrByteZero(v, XorByte(a[i], b[i]));
      v := OrByte(v, XorByte(a[i], b[i]));
    }
    equal := v == 0;
  }

  /** Byte i of a little-endian word is its digit of weight 256^i. */
  lemma {:induction false} LEDigits(v: nat, n: nat, i: nat)
    requires i < n
    ensures LE(v, n)[i] == v / Pow256(i) % 256
  {
    if i > 0 {
      LEDigits(v / 256, n - 1, i - 1);
      DivideTwice(v, 256, Pow256(i - 1));
    }
  }

  /** Big-endian is little-endian read from the other end. */
  lemma {:induction false} FromBEReversed(s: seq<byte>)
    ensures FromBE(s) == FromLE(Reverse(s))
  {
    if s != [] {
      FromBEReversed(s[..|s| - 1]);
      assert Reverse(s)[0] == s[|s| - 1] && Reverse(s)[1..] == Reverse(s[..|s| - 1]);
    }
  }

  function NthBit(v: nat, k: nat): (bit: nat)
    ensures bit < 2
  {
    v / Pow2(k) % 2
  }

  lemma LowestBit(v: nat)
    ensures NthBit(v, 0) == v % 2
  {
    assert Pow2(0) == 1;
  }

  lemma HigherBit(v: nat, k: nat)
    requires k > 0
    ensures NthBit(v, k) == NthBit(v / 2, k - 1)
  {
    assert Pow2(k) == 2 * Pow2(k - 1);
    hide Pow2;
    DivideTwice(v, 2, Pow2(k - 1));
  }

  /** Exclusive or decides every bit on its own. */
  lemma {:induction false} XorBitsAt(a: nat, b: nat, n: nat, k: nat)
    requires k < n
    ensures NthBit(XorBits(a, b, n), k) == if NthBit(a, k) == NthBit(b, k) then 0 else 1
  {
    hide XorBits, NthBit;
    var low, rest := if a % 2 == b % 2 then 0 else 1, XorBits(a / 2, b / 2, n - 1);
    XorBitsUnrolled(a, b, n);
    var r := low + 2 * rest;
    assert r % 2 == low && r / 2 == rest;
    if k == 0 {
      LowestBit(a);
      LowestBit(b);
      LowestBit(r);
    } else {
      XorBitsAt(a / 2, b / 2, n - 1, k - 1);
      HigherBit(a, k);
      HigherBit(b, k);
      HigherBit(r, k);
    }
  }

  lemma XorBitsUnrolled(a: nat, b: nat, n: nat)
    requires n > 0
    ensures XorBits(a, b, n) == (if a % 2 == b % 2 then 0 else 1) + 2 * XorBits(a / 2, b / 2, n - 1)
  {
  }

  // Reassociation of concatenations.

  lemma TwoParts(a: seq<byte>, b: seq<byte>, t: seq<byte>)
    ensures a + b + t == a + (b + t)
  {
  }

  lemma ThreeParts(a: seq<byte>, b: seq<byte>, c: seq<byte>, t: seq<byte>)
    ensures a + b + c + t == a + (b + (c + t))
  {
  }

  lemma FourParts(a: seq<byte>, b: seq<byte>, c: seq<byte>, d: seq<byte>, t: seq<byte>)
    ensures a + b + c + d + t == a + (b + (c + (d + t)))
  {
  }
}
