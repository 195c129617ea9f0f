/** The abridged transport framing and the unencrypted envelope (mtproto/abridged.go). */
module Abridged {
  import opened Bytes
  import opened Streams
  import opened TL
  import opened Wrappers

  const MAX_WORDS := 0xFF_FFFF

  /** The packets abridgedWrite accepts. */
  predicate Framable(payload: seq<byte>) {
    |payload| % 4 == 0 && |payload| / 4 <= MAX_WORDS
  }

  /** The frame header: the length in words, in one byte or behind the marker 0x7f in three. */
  function FrameHeader(words: nat): (h: seq<byte>)
    ensures |h| == if words < 127 then 1 else 4
  {
    if words < 127 then [words] else [0x7f, words % 256, words / 256 % 256, words / 65536 % 256]
  }

  function Frame(payload: seq<byte>): seq<byte> {
    FrameHeader(|payload| / 4) + payload
  }

  function FrameHeaderSize(first: byte): nat {
    if first == 0x7f then 4 else 1
  }

  function FrameWords(s: seq<byte>): nat
    requires |s| >= 1 && |s| >= FrameHeaderSize(s[0])
  {
    if s[0] == 0x7f then Length24(s[1], s[2], s[3]) else s[0]
  }

  /** The frame at the front of a byte stream. */
  function ReadFrame(s: seq<byte>): (r: Res<seq<byte>>)
    ensures Consumes(r, s, 5)
    ensures r.Ok? ==> r.value != []
  {
    if |s| < 1 || |s| < FrameHeaderSize(s[0]) then Err
    else
      var h, words := FrameHeaderSize(s[0]), FrameWords(s);
      if words == 0 || |s| < h + 4 * words then Err
      else Ok(s[h..h + 4 * words], s[h + 4 * words..])
  }

  lemma FrameHeaderReads(words: nat, t: seq<byte>)
    requires words <= MAX_WORDS
    ensures var s := FrameHeader(words) + t;
            FrameHeaderSize(s[0]) == |FrameHeader(words)| && FrameWords(s) == words
  {
    LengthDigits(words);
  }

  /** A frame reads back, leaving the rest of the stream, exactly when its payload is not empty. */
  lemma ReadFrameOfFrame(payload: seq<byte>, t: seq<byte>)
    requires Framable(payload)
    ensures ReadFrame(Frame(payload) + t) == Ok(payload, t) <==> payload != []
  {
    hide FrameHeader, FrameHeaderSize, FrameWords;
    var words := |payload| / 4;
    var h := FrameHeader(words);
    if payload != [] {
      var s := Frame(payload) + t;
      FrameHeaderReads(words, payload + t);
      assert h + (payload + t) == s;
      assert s[|h|..|h| + 4 * words] == payload;
      assert s[|h| + 4 * words..] == t;
    }
  }

  /** The bytes of several packets written one after the other. */
  function Frames(payloads: seq<seq<byte>>): seq<byte> {
    if payloads == [] then [] else Frame(payloads[0]) + Frames(payloads[1..])
  }

  /** Reading frames until the stream ends or does not start with one. */
  function ReadFrames(s: seq<byte>): Res<seq<seq<byte>>>
    decreases |s|
  {
    match ReadFrame(s)
    case Err => Ok([], s)
    case Ok(payload, t) => var (later, left) :- ReadFrames(t); Ok([payload] + later, left)
  }

  ghost predicate AllFramable(payloads: seq<seq<byte>>) {
    forall i :: 0 <= i < |payloads| ==> Framable(payloads[i]) && payloads[i] != []
  }

  /** The stream of any sequence of non-empty packets decodes to exactly that sequence, with nothing over. */
  lemma {:induction false} StreamDecodes(payloads: seq<seq<byte>>)
    requires AllFramable(payloads)
    ensures ReadFrames(Frames(payloads)) == Ok(payloads, [])
  {
    if payloads != [] {
      hide ReadFrame, Frame;
      ReadFrameOfFrame(payloads[0], Frames(payloads[1..]));
      StreamDecodes(payloads[1..]);
      assert payloads == [payloads[0]] + payloads[1..];
    }
  }

  /** Hence two different packet sequences never give the same stream. */
  lemma FramesUnique(a: seq<seq<byte>>, b: seq<seq<byte>>)
    requires AllFramable(a) && AllFramable(b) && Frames(a) == Frames(b)
    ensures a == b
  {
    StreamDecodes(a);
    StreamDecodes(b);
  }

  /** abridgedWrite: header and payload in two writes, either of which can fail. */
  method AbridgedWrite(conn: ByteSink, payload: seq<byte>) returns (ok: bool)
    modifies conn
    ensures !Framable(payload) ==> !ok && conn.written == old(conn.written)
    ensures Framable(payload) ==> (ok <==> |Frame(payload)| <= old(conn.room))
    ensures ok ==> conn.written == old(conn.written) + Frame(payload)
    ensures Framable(payload) && !ok ==> conn.written == old(conn.written) + Frame(payload)[..old(conn.room)]
    ensures conn.room == if !Framable(payload) then old(conn.room)
                         else if ok then old(conn.room) - |Frame(payload)| else 0
  {
    if |payload| % 4 != 0 {
      return false;
    }
    var length := |payload| / 4;
    if length >= 127 && length > MAX_WORDS {
      return false;
    }
    hide FrameHeader;
    var header := FrameHeader(length);
    ghost var room := conn.room;
    ok := conn.Write(header);
    if ok {
      ok := conn.Write(payload);
      assert !ok ==> (header + payload)[..room] == header + payload[..room - |header|];
    } else {
      assert (header + payload)[..room] == header[..room];
    }
  }

  /** What is left of a stream after a failed read: nothing, unless the frame was an empty one. */
  function AfterFailedRead(s: seq<byte>): seq<byte> {
    if |s| >= 1 && |s| >= FrameHeaderSize(s[0]) && FrameWords(s) == 0 then s[FrameHeaderSize(s[0])..] else []
  }

  /** abridgedRead. */
  method AbridgedRead(conn: ByteSource) returns (r: Option<seq<byte>>)
    modifies conn
    ensures Agrees(r, conn.bytes, ReadFrame(old(conn.bytes)))
    ensures r == None ==> conn.bytes == AfterFailedRead(old(conn.bytes))
  {
    ghost var s := conn.bytes;
    var first := conn.ReadFull(1);
    if first == None {
      return None;
    }
    var length: nat := first.value[0];
    if length == 0x7f {
      var extended := conn.ReadFull(3);
      if extended == None {
        return None;
      }
      length := Length24(extended.value[0], extended.value[1], extended.value[2]);
    }
    assert |s| >= 1 && |s| >= FrameHeaderSize(s[0]);
    assert length == FrameWords(s) && conn.bytes == s[FrameHeaderSize(s[0])..];
    hide FrameHeaderSize, FrameWords;
    if length <= 0 {
      return None;
    }
    ghost var h, n := FrameHeaderSize(s[0]), 4 * length;
    assert |s| >= h + n ==> s[h..][..n] == s[h..h + n] && s[h..][n..] == s[h + n..];
    r := conn.ReadFull(4 * length);
  }

  // The unencrypted envelope of the handshake.

  /** buildUnencryptedMessage: zero key id, message id, length, body, zeros up to a multiple of four. */
  function UnencryptedMessage(msgId: i64, body: seq<byte>): seq<byte> {
    LongCode(0) + LongCode(U64(msgId)) + IntCode(U32(|body|)) + body + Zeros(Aligned(|body|) - |body|)
  }

  method BuildUnencryptedMessage(msgId: i64, body: seq<byte>) returns (out: seq<byte>)
    ensures out == UnencryptedMessage(msgId, body)
  {
    hide LongCode, IntCode, U64, U32;
    out := LongCode(0);
    out := out + LongCode(U64(msgId));
    out := out + IntCode(U32(|body|));
    out := out + body;
    ghost var start, n, pad := out, |body|, 0;
    while |out| % 4 != 0
      invariant |out| == 20 + n + pad && pad <= Aligned(n) - n
      invariant out == start + Zeros(pad)
      decreases Aligned(n) - n - pad
    {
      out := out + [0];
      pad := pad + 1;
      assert start + Zeros(pad) == start + Zeros(pad - 1) + [0];
    }
  }

  function ParseUnencrypted(payload: seq<byte>): Res<seq<byte>> {
    if |payload| < 20 then Err
    else
      var (authKeyId, s1) :- ReadLong(payload);
      if authKeyId != 0 then Err
      else
        var (msgId, s2) :- ReadLong(s1);
        var (length, s3) :- ReadInt(s2);
        ReadRaw(s3, length)
  }

  method ParseUnencryptedMessage(payload: seq<byte>) returns (r: Option<seq<byte>>)
    ensures r == if ParseUnencrypted(payload).Ok? then Some(ParseUnencrypted(payload).value) else None
  {
    hide ReadLong, ReadInt;
    if |payload| < 20 {
      return None;
    }
    var reader := new TlReader(payload);
    var authKeyId := reader.Long();
    if authKeyId == None || authKeyId.value != 0 {
      return None;
    }
    var msgId := reader.Long();
    if msgId == None {
      return None;
    }
    var length := reader.Int();
    if length == None {
      return None;
    }
    r := reader.Raw(length.value);
  }

  /** The body comes back exactly when its length fits the 32-bit length word. */
  lemma UnencryptedRoundTrip(msgId: i64, body: seq<byte>)
    ensures var r := ParseUnencrypted(UnencryptedMessage(msgId, body));
            r.Ok? && r.value == body <==> |body| < 0x1_0000_0000
  {
    hide ReadLong, ReadInt, LongCode, IntCode, Aligned, U64;
    var pad := Zeros(Aligned(|body|) - |body|);
    var t3 := body + pad;
    var t2 := IntCode(U32(|body|)) + t3;
    var t1 := LongCode(U64(msgId)) + t2;
    assert UnencryptedMessage(msgId, body) == LongCode(0) + t1;
    ReadLongCode(0, t1);
    ReadLongCode(U64(msgId), t2);
    ReadIntCode(U32(|body|), t3);
    assert |t3| >= |body| && t3[..|body|] == body;
  }

  /** What is on the wire: a length in words in one byte, or 0x7f and three bytes, lowest first. */
  lemma FrameBytes(payload: seq<byte>)
    requires Framable(payload)
    ensures var s, words := Frame(payload), |payload| / 4;
            if words < 0x7f then s[0] == words && s[1..] == payload
            else
              var low: int, mid: int, high: int := s[1], s[2], s[3];
              s[0] == 0x7f && low + 0x100 * mid + 0x1_0000 * high == words && s[4..] == payload
  {
    LengthDigits(|payload| / 4);
  }

  /** An unencrypted message: eight zero bytes, the id, the length, the body, zeros to a whole word. */
  lemma UnencryptedBytes(msgId: i64, body: seq<byte>)
    ensures var s, n := UnencryptedMessage(msgId, body), |body|;
            && |s| == 20 + Aligned(n) && s[..8] == Zeros(8) && s[8..16] == LE(U64(msgId), 8)
            && s[16..20] == LE(U32(n), 4) && s[20..20 + n] == body && forall i :: 20 + n <= i < |s| ==> s[i] == 0
  {
    hide U64, U32, LE;
    assert LongCode(0) == Zeros(8) by {
      forall i: nat | i < 8
        ensures LE(0, 8)[i] == 0
      {
        LEDigits(0, 8, i);
      }
    }
  }
}
