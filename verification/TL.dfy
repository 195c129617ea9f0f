/**
 * The type-language codec (mtproto/tl.go): little-endian words and length-prefixed, 4-aligned
 * byte strings. The Code functions and Read functions are the format; TlBuffer and TlReader are
 * the growing buffer and the advancing reader that implement it.
 */
module TL {
  import opened Bytes
  import opened Wrappers

  /** A parse: a value with the input left after it, or a failure. */
  datatype Res<+T> = Ok(value: T, rest: seq<byte>) | Err {
    predicate IsFailure() {
      Err?
    }
    function PropagateFailure<U>(): Res<U>
      requires Err?
    {
      Err
    }
    function Extract(): (T, seq<byte>)
      requires Ok?
    {
      (value, rest)
    }
  }

  /** A successful parse of s used up at least n bytes. */
  ghost predicate Consumes<T>(r: Res<T>, s: seq<byte>, n: nat) {
    r.Ok? ==> |r.rest| + n <= |s|
  }

  // Words.

  lemma WordSizes()
    ensures Pow256(3) == 0x100_0000
    ensures Pow256(4) == 0x1_0000_0000
    ensures Pow256(8) == 0x1_0000_0000_0000_0000
  {
    assert Pow256(4) == 0x1_0000_0000;
  }

  function IntCode(v: u32): (s: seq<byte>)
    ensures |s| == 4
  {
    LE(v, 4)
  }

  function LongCode(v: u64): (s: seq<byte>)
    ensures |s| == 8
  {
    LE(v, 8)
  }

  function ReadInt(s: seq<byte>): (r: Res<u32>)
    ensures Consumes(r, s, 4)
    ensures r.Ok? <==> |s| >= 4
  {
    if |s| < 4 then Err else
      WordSizes();
      Ok(FromLE(s[..4]), s[4..])
  }

  function ReadLong(s: seq<byte>): (r: Res<u64>)
    ensures Consumes(r, s, 8)
    ensures r.Ok? <==> |s| >= 8
  {
    if |s| < 8 then Err else
      WordSizes();
      Ok(FromLE(s[..8]), s[8..])
  }

  lemma ReadIntCode(v: u32, t: seq<byte>)
    ensures ReadInt(IntCode(v) + t) == Ok(v, t)
  {
    WordSizes();
    FromLEInvertsLE(v, 4);
    assert (IntCode(v) + t)[..4] == IntCode(v);
  }

  lemma ReadLongCode(v: u64, t: seq<byte>)
    ensures ReadLong(LongCode(v) + t) == Ok(v, t)
  {
    WordSizes();
    FromLEInvertsLE(v, 8);
    assert (LongCode(v) + t)[..8] == LongCode(v);
  }

  /** What was read as a word is the code of its value. */
  lemma ReadIntSplits(s: seq<byte>)
    requires |s| >= 4
    ensures s == IntCode(ReadInt(s).value) + ReadInt(s).rest
  {
    LEInvertsFromLE(s[..4]);
  }

  lemma ReadLongSplits(s: seq<byte>)
    requires |s| >= 8
    ensures s == LongCode(ReadLong(s).value) + ReadLong(s).rest
  {
    LEInvertsFromLE(s[..8]);
  }

  function ReadRaw(s: seq<byte>, n: int): (r: Res<seq<byte>>)
    ensures Consumes(r, s, if n < 0 then 0 else n)
    ensures r.Ok? <==> 0 <= n <= |s|
    ensures r.Ok? ==> |r.value| == n && s == r.value + r.rest
  {
    if n < 0 || |s| < n then Err else Ok(s[..n], s[n..])
  }

  lemma AlignedShift(n: nat, words: nat)
    ensures Aligned(n + 4 * words) == Aligned(n) + 4 * words
  {
    assert (n + 4 * words) % 4 == n % 4;
  }

  // Byte strings.

  /** k rounded up to a multiple of four. */
  function Aligned(k: nat): (a: nat)
    ensures a % 4 == 0 && k <= a < k + 4
  {
    if k % 4 == 0 then k else k - k % 4 + 4
  }

  /** The length prefix; lengths of 2^24 and more lose their high bits, as in the source. */
  function LengthHeader(n: nat): (s: seq<byte>)
    ensures |s| == if n < 254 then 1 else 4
  {
    if n < 254 then [n] else [254, n % 256, n / 256 % 256, n / 65536 % 256]
  }

  /** A three-byte little-endian length. */
  function Length24(low: int, mid: int, high: int): int {
    low + 256 * mid + 65536 * high
  }

  function BytesCode(v: seq<byte>): (s: seq<byte>)
    ensures |s| % 4 == 0
  {
    var h := LengthHeader(|v|);
    h + v + Zeros(Aligned(|h| + |v|) - |h| - |v|)
  }

  function HeaderSize(first: byte): nat {
    if first < 254 then 1 else 4
  }

  /** The payload length announced by the header at the front of s. */
  function PayloadLength(s: seq<byte>): nat
    requires |s| >= 1 && |s| >= HeaderSize(s[0])
  {
    if s[0] < 254 then s[0] else Length24(s[1], s[2], s[3])
  }

  function ReadBytes(s: seq<byte>): (r: Res<seq<byte>>)
    ensures Consumes(r, s, 4)
    ensures r.Ok? ==> |r.value| < 0x100_0000
  {
    if |s| < 1 || |s| < HeaderSize(s[0]) then Err
    else
      var h, n := HeaderSize(s[0]), PayloadLength(s);
      var size := Aligned(h + n);
      if |s| < size then Err else Ok(s[h..h + n], s[size..])
  }

  lemma LengthDigits(n: nat)
    requires n < 0x100_0000
    ensures Length24(n % 256, n / 256 % 256, n / 65536 % 256) == n
  {
    assert n / 65536 == n / 256 / 256;
  }

  lemma HeaderReads(n: nat, t: seq<byte>)
    requires n < 0x100_0000
    ensures var s := LengthHeader(n) + t;
            HeaderSize(s[0]) == |LengthHeader(n)| && PayloadLength(s) == n
  {
    LengthDigits(n);
  }

  /** A parse of header, payload and padding, in that order. */
  lemma ReadBytesParts(s: seq<byte>, h: seq<byte>, v: seq<byte>, pad: seq<byte>, t: seq<byte>)
    requires s == h + v + pad + t && |h| > 0
    requires |h| == HeaderSize(s[0]) && PayloadLength(s) == |v| && |h| + |v| + |pad| == Aligned(|h| + |v|)
    ensures ReadBytes(s) == Ok(v, t)
  {
    hide HeaderSize, PayloadLength, Aligned;
    assert s[|h|..|h| + |v|] == v;
    assert s[|h| + |v| + |pad|..] == t;
  }

  /** A byte string reads back, with what follows it untouched, exactly when it is shorter than 2^24. */
  lemma ReadBytesCode(v: seq<byte>, t: seq<byte>)
    ensures ReadBytes(BytesCode(v) + t) == Ok(v, t) <==> |v| < 0x100_0000
  {
    hide LengthHeader, PayloadLength, HeaderSize, Aligned;
    if |v| < 0x100_0000 {
      var h := LengthHeader(|v|);
      var pad := Zeros(Aligned(|h| + |v|) - |h| - |v|);
      HeaderReads(|v|, v + pad + t);
      assert h + (v + pad + t) == h + v + pad + t;
      ReadBytesParts(BytesCode(v) + t, h, v, pad, t);
    }
  }

  // The buffer and the reader.

  /** A reader's outcome agrees with the format: the same value and rest, or failure in both. */
  ghost predicate Agrees<T(!new)>(got: Option<T>, left: seq<byte>, want: Res<T>) {
    match want
    case Ok(v, rest) => got == Some(v) && left == rest
    case Err => got == None
  }

  class TlBuffer {
    var buf: seq<byte>

    constructor ()
      ensures buf == []
    {
      buf := [];
    }

    method PutInt(v: u32)
      modifies this
      ensures buf == old(buf) + IntCode(v)
    {
      buf := buf + LE(v, 4);
    }

    method PutLong(v: u64)
      modifies this
      ensures buf == old(buf) + LongCode(v)
    {
      buf := buf + LE(v, 8);
    }

    method PutBytes(v: seq<byte>)
      modifies this
      ensures buf == old(buf) + BytesCode(v)
    {
      hide LengthHeader;
      var n := |v|;
      var header := if n < 254 then 1 else 4;
      buf := buf + LengthHeader(n);
      buf := buf + v;
      ghost var start, first := buf, header;
      while (header + n) % 4 != 0
        invariant first <= header <= Aligned(first + n) - n
        invariant buf == start + Zeros(header - first)
        decreases Aligned(first + n) - header
      {
        buf := buf + [0];
        header := header + 1;
      }
    }
  }

  class TlReader {
    const buf: seq<byte>
    var off: nat

    ghost predicate Valid()
      reads this
    {
      off <= |buf|
    }

    function Rest(): seq<byte>
      reads this
      requires Valid()
    {
      buf[off..]
    }

    constructor (buf: seq<byte>)
      ensures Valid() && this.buf == buf && off == 0 && Rest() == buf
    {
      this.buf, off := buf, 0;
    }

    method Int() returns (r: Option<u32>)
      requires Valid()
      modifies this
      ensures Valid() && old(off) <= off
      ensures Agrees(r, Rest(), ReadInt(old(Rest())))
      ensures r.Some? ==> off == old(off) + 4
    {
      if |buf| - off < 4 {
        return None;
      }
      WordSizes();
      assert Rest()[..4] == buf[off..off + 4];
      r := Some(FromLE(buf[off..off + 4]));
      off := off + 4;
    }

    method Long() returns (r: Option<u64>)
      requires Valid()
      modifies this
      ensures Valid() && old(off) <= off
      ensures Agrees(r, Rest(), ReadLong(old(Rest())))
      ensures r.Some? ==> off == old(off) + 8
    {
      if |buf| - off < 8 {
        return None;
      }
      WordSizes();
      assert Rest()[..8] == buf[off..off + 8];
      r := Some(FromLE(buf[off..off + 8]));
      off := off + 8;
    }

    method Raw(n: int) returns (r: Option<seq<byte>>)
      requires Valid()
      modifies this
      ensures Valid() && old(off) <= off
      ensures Agrees(r, Rest(), ReadRaw(old(Rest()), n))
      ensures r.Some? ==> off == old(off) + n
    {
      if n < 0 || |buf| - off < n {
        return None;
      }
      assert Rest()[..n] == buf[off..off + n];
      r := Some(buf[off..off + n]);
      off := off + n;
    }

    /** The padding loop behind a header and payload of n and size bytes. */
    method SkipPadding(size: nat, n: nat) returns (ok: bool)
      requires Valid()
      modifies this
      ensures Valid() && old(off) <= off
      ensures ok <==> |buf| - old(off) >= Aligned(size + n) - size - n
      ensures ok ==> off == old(off) + Aligned(size + n) - size - n
    {
      var header := size;
      while (header + n) % 4 != 0
        invariant Valid() && off - old(off) == header - size
        invariant size <= header <= Aligned(size + n) - n
        decreases Aligned(size + n) - header
      {
        if |buf| - off < 1 {
          return false;
        }
        off := off + 1;
        header := header + 1;
      }
      return true;
    }

    /** The length byte, and the three bytes behind it when they hold the length. */
    method StringHeader() returns (r: Option<(nat, nat)>)
      requires Valid()
      modifies this
      ensures Valid() && old(off) <= off
      ensures var s := old(Rest());
              r.Some? <==> |s| >= 1 && |s| >= HeaderSize(s[0])
      ensures r.Some? ==>
                && r.value == (PayloadLength(old(Rest())), HeaderSize(old(Rest())[0]))
                && off == old(off) + r.value.1
    {
      if |buf| - off < 1 {
        return None;
      }
      var first := buf[off];
      off := off + 1;
      if first < 254 {
        return Some((first, 1));
      }
      if |buf| - off < 3 {
        return None;
      }
      var n := Length24(buf[off], buf[off + 1], buf[off + 2]);
      off := off + 3;
      r := Some((n, 4));
    }

    method ByteString() returns (r: Option<seq<byte>>)
      requires Valid()
      modifies this
      ensures Valid() && old(off) <= off
      ensures Agrees(r, Rest(), ReadBytes(old(Rest())))
    {
      hide HeaderSize, PayloadLength, Aligned;
      ghost var s, start := Rest(), off;
      var lengths := StringHeader();
      if lengths == None {
        return None;
      }
      var (n, header) := lengths.value;
      if |buf| - off < n {
        return None;
      }
      var v := buf[off..off + n];
      SliceOfRest(buf, start, header, n);
      off := off + n;
      var ok := SkipPadding(header, n);
      if !ok {
        return None;
      }
      SliceOfRest(buf, start, Aligned(header + n), 0);
      r := Some(v);
    }
  }

  lemma SliceOfRest(buf: seq<byte>, start: nat, k: nat, n: nat)
    requires start + k + n <= |buf|
    ensures buf[start..][k..k + n] == buf[start + k..start + k + n]
    ensures buf[start..][k..] == buf[start + k..]
  {
  }

  /** A byte string: its length in one byte, or 254 and three bytes, lowest first; the bytes; zeros to a whole word. */
  lemma BytesLayout(v: seq<byte>)
    requires |v| < 0x100_0000
    ensures var s, n := BytesCode(v), |v|;
            var h := if n < 254 then 1 else 4;
            && |s| == Aligned(h + n) && s[h..h + n] == v && (forall i :: h + n <= i < |s| ==> s[i] == 0)
            && (if n < 254 then s[0] == n
                else
                  var low: int, mid: int, high: int := s[1], s[2], s[3];
                  s[0] == 254 && low + 0x100 * mid + 0x1_0000 * high == n)
  {
    hide Aligned;
    LengthDigits(|v|);
  }
}
