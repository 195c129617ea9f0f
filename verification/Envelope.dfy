/** The encrypted packet of MTProto 2.0 (mtproto/invoke.go). */
module Envelope {
  import opened Bytes
  import opened Primitives
  import opened TL
  import opened Wrappers
  import opened Abridged
  import IGE

  type AuthKey = s: seq<byte> | |s| >= 128 witness Zeros(256)

  /** Who encrypts: the client uses offset 0 into the auth key, the server offset 8. */
  type Direction = x: int | x == 0 || x == 8 witness 0

  const FROM_CLIENT: Direction := 0
  const FROM_SERVER: Direction := 8

  /** What the two sides share: the primitives and the authorization key. */
  datatype Channel = Channel(sha256: Hash, aes: Cipher, authKey: AuthKey, authKeyId: u64)

  datatype EncryptedMessage = EncryptedMessage(salt: i64, sessionId: i64, msgId: i64, seqNo: i32, body: seq<byte>)

  /** mtproto2AESKeyIV. */
  function KeyIV(sha256: Hash, authKey: AuthKey, msgKey: Block, x: Direction): (r: (AesKey, Digest)) {
    var a := sha256(msgKey + authKey[x..x + 36]);
    var b := sha256(authKey[40 + x..76 + x] + msgKey);
    (a[..8] + b[8..24] + a[24..32], b[..8] + a[8..24] + b[24..32])
  }

  /** The middle of the hash over a slice of the auth key and the padded plaintext. */
  function MsgKey(sha256: Hash, authKey: AuthKey, plain: seq<byte>, x: Direction): Block {
    sha256(authKey[88 + x..120 + x] + plain)[8..24]
  }

  /** The plaintext header and body. */
  function Plain(m: EncryptedMessage): seq<byte> {
    LongCode(U64(m.salt)) + LongCode(U64(m.sessionId)) + LongCode(U64(m.msgId))
    + IntCode(U32(m.seqNo)) + IntCode(U32(|m.body|)) + m.body
  }

  /** The number of random bytes behind a plaintext of n bytes. */
  function PaddingLength(n: nat): (p: nat)
    ensures 12 <= p <= 27 && (n + p) % 16 == 0
  {
    12 + (16 - (n + 12) % 16) % 16
  }

  /** A packet in direction x. */
  function Packet(ch: Channel, x: Direction, m: EncryptedMessage, padding: seq<byte>): seq<byte> {
    var plain := Plain(m) + padding;
    var msgKey := MsgKey(ch.sha256, ch.authKey, plain, x);
    var (key, iv) := KeyIV(ch.sha256, ch.authKey, msgKey, x);
    LongCode(ch.authKeyId) + msgKey + IGE.Seal(ch.aes, key, iv, plain)
  }

  /** The fields read from a decrypted plaintext. */
  function ParsePlain(plain: seq<byte>): Res<EncryptedMessage> {
    var (salt, s1) :- ReadLong(plain);
    var (sessionId, s2) :- ReadLong(s1);
    var (msgId, s3) :- ReadLong(s2);
    var (seqNo, s4) :- ReadInt(s3);
    var (length, s5) :- ReadInt(s4);
    var (body, s6) :- ReadRaw(s5, length);
    Ok(EncryptedMessage(Wrap64(salt), Wrap64(sessionId), Wrap64(msgId), Wrap32(seqNo), body), s6)
  }

  /** What the receiver of direction x makes of a payload; None is each of the source's errors. */
  function ParsePacket(ch: Channel, x: Direction, payload: seq<byte>): Option<EncryptedMessage> {
    if |payload| < 24 || (|payload| - 24) % 16 != 0 then None
    else
      match ReadLong(payload)
      case Err => None
      case Ok(authKeyId, s) =>
        if authKeyId != ch.authKeyId || |s| < 16 then None
        else
          var msgKey: Block := s[..16];
          var (key, iv) := KeyIV(ch.sha256, ch.authKey, msgKey, x);
          var plain := IGE.Open(ch.aes, key, iv, s[16..]);
          if msgKey != MsgKey(ch.sha256, ch.authKey, plain, x) then None
          else
            match ParsePlain(plain)
            case Err => None
            case Ok(m, _) => Some(m)
  }

  lemma ParsePlainOfPlain(m: EncryptedMessage, padding: seq<byte>)
    ensures var r := ParsePlain(Plain(m) + padding);
            r.Ok? && r.value == m <==> |m.body| < 0x1_0000_0000
  {
    hide ReadLong, ReadInt, LongCode, IntCode, U64, U32, Wrap64, Wrap32;
    var t5 := m.body + padding;
    var t4 := IntCode(U32(|m.body|)) + t5;
    var t3 := IntCode(U32(m.seqNo)) + t4;
    var t2 := LongCode(U64(m.msgId)) + t3;
    var t1 := LongCode(U64(m.sessionId)) + t2;
    assert Plain(m) + padding == LongCode(U64(m.salt)) + t1;
    ReadLongCode(U64(m.salt), t1);
    ReadLongCode(U64(m.sessionId), t2);
    ReadLongCode(U64(m.msgId), t3);
    ReadIntCode(U32(m.seqNo), t4);
    ReadIntCode(U32(|m.body|), t5);
    Wrap64U64(m.salt);
    Wrap64U64(m.sessionId);
    Wrap64U64(m.msgId);
    Wrap32U32(m.seqNo);
    LengthWord(|m.body|);
    assert t5[..|m.body|] == m.body;
  }

  lemma LengthWord(n: nat)
    ensures U32(n) == n <==> n < 0x1_0000_0000
    ensures U32(n) <= n
  {
  }

  /** A plaintext that parses is the header and body of the result, followed by what is left. */
  lemma ParsePlainSplits(plain: seq<byte>)
    requires ParsePlain(plain).Ok?
    ensures var Ok(m, left) := ParsePlain(plain);
            |m.body| < 0x1_0000_0000 && plain == Plain(m) + left
  {
    hide ReadLong, ReadInt, ReadRaw, LongCode, IntCode, U64, U32, Wrap64, Wrap32;
    var Ok(salt, s1) := ReadLong(plain);
    var Ok(sessionId, s2) := ReadLong(s1);
    var Ok(msgId, s3) := ReadLong(s2);
    var Ok(seqNo, s4) := ReadInt(s3);
    var Ok(length, s5) := ReadInt(s4);
    var Ok(body, left) := ReadRaw(s5, length);
    ReadLongSplits(plain);
    ReadLongSplits(s1);
    ReadLongSplits(s2);
    ReadIntSplits(s3);
    ReadIntSplits(s4);
    U64Wrap64(salt);
    U64Wrap64(sessionId);
    U64Wrap64(msgId);
    U32Wrap32(seqNo);
    LengthWord(length);
    assert plain
           == LongCode(salt) + (LongCode(sessionId) + (LongCode(msgId)
           + (IntCode(seqNo) + (IntCode(length) + (body + left)))));
  }

  /** The padding makes whole blocks behind the plaintext of a message. */
  predicate WholeBlocks(m: EncryptedMessage, padding: seq<byte>) {
    |Plain(m) + padding| % 16 == 0
  }

  lemma PacketShape(ch: Channel, x: Direction, m: EncryptedMessage, padding: seq<byte>)
    requires ch.aes.Valid() && WholeBlocks(m, padding)
    ensures |Plain(m)| == 32 + |m.body|
    ensures |Packet(ch, x, m, padding)| == 24 + |Plain(m)| + |padding|
  {
    hide LongCode, IntCode, PaddingLength, KeyIV;
    var plain := Plain(m) + padding;
    var msgKey := MsgKey(ch.sha256, ch.authKey, plain, x);
    var (key, iv) := KeyIV(ch.sha256, ch.authKey, msgKey, x);
    IGE.SealOpenInverse(ch.aes, key, iv, plain);
  }

  /** The padding the builder adds makes whole blocks. */
  lemma BuilderPadding(m: EncryptedMessage, padding: seq<byte>)
    requires |padding| == PaddingLength(|Plain(m)|)
    ensures WholeBlocks(m, padding)
  {
    hide Plain, PaddingLength;
  }

  /**
   * Parsing what the matching direction built gives the same message back, for every body and
   * every padding to whole blocks, exactly when the body's length fits its 32-bit word.
   */
  lemma EnvelopeRoundTrip(ch: Channel, x: Direction, m: EncryptedMessage, padding: seq<byte>)
    requires ch.aes.Valid() && WholeBlocks(m, padding)
    ensures ParsePacket(ch, x, Packet(ch, x, m, padding)) == Some(m) <==> |m.body| < 0x1_0000_0000
  {
    hide LongCode, ReadLong, PaddingLength, KeyIV, Plain, ParsePlain;
    var plain := Plain(m) + padding;
    var msgKey := MsgKey(ch.sha256, ch.authKey, plain, x);
    var (key, iv) := KeyIV(ch.sha256, ch.authKey, msgKey, x);
    var sealed := IGE.Seal(ch.aes, key, iv, plain);
    PacketShape(ch, x, m, padding);
    IGE.SealOpenInverse(ch.aes, key, iv, plain);
    var packet := Packet(ch, x, m, padding);
    var s: seq<byte> := msgKey + sealed;
    assert packet == LongCode(ch.authKeyId) + s;
    ReadLongCode(ch.authKeyId, s);
    assert s[..16] == msgKey && s[16..] == sealed;
    assert (|packet| - 24) % 16 == 0;
    ParsePlainOfPlain(m, padding);
  }

  /** The padding a receiver finds behind the message of a payload it accepts. */
  function PaddingOf(ch: Channel, x: Direction, payload: seq<byte>): seq<byte>
    requires ParsePacket(ch, x, payload).Some?
  {
    var s := ReadLong(payload).rest;
    var (key, iv) := KeyIV(ch.sha256, ch.authKey, s[..16], x);
    ParsePlain(IGE.Open(ch.aes, key, iv, s[16..])).rest
  }

  /** An accepted payload is the packet of the returned message and the padding found behind it. */
  lemma AcceptedIsPacket(ch: Channel, x: Direction, payload: seq<byte>)
    requires ch.aes.Valid() && ParsePacket(ch, x, payload).Some?
    ensures var m, padding := ParsePacket(ch, x, payload).value, PaddingOf(ch, x, payload);
            && payload == Packet(ch, x, m, padding)
            && WholeBlocks(m, padding) && |m.body| < 0x1_0000_0000
  {
    hide ReadLong, LongCode, KeyIV, MsgKey, Plain, ParsePlain;
    var Ok(authKeyId, s) := ReadLong(payload);
    var msgKey: Block, sealed := s[..16], s[16..];
    var (key, iv) := KeyIV(ch.sha256, ch.authKey, msgKey, x);
    var plain := IGE.Open(ch.aes, key, iv, sealed);
    ReadLongSplits(payload);
    BlocksLeft(|payload|, |sealed|);
    IGE.SealOpenInverse(ch.aes, key, iv, sealed);
    ParsePlainSplits(plain);
    assert s == msgKey + sealed;
    assert payload == LongCode(authKeyId) + msgKey + sealed;
  }

  lemma BlocksLeft(n: nat, m: nat)
    requires n == m + 24 && (n - 24) % 16 == 0
    ensures m % 16 == 0
  {
  }

  /** A payload is accepted with a message exactly when it is a packet of that message, padded to whole blocks. */
  lemma AcceptedExactly(ch: Channel, x: Direction, payload: seq<byte>, m: EncryptedMessage)
    requires ch.aes.Valid()
    ensures ParsePacket(ch, x, payload) == Some(m) <==>
              && |m.body| < 0x1_0000_0000
              && exists padding :: WholeBlocks(m, padding) && payload == Packet(ch, x, m, padding)
  {
    hide ParsePacket, Packet, WholeBlocks, PaddingOf;
    if ParsePacket(ch, x, payload) == Some(m) {
      AcceptedIsPacket(ch, x, payload);
    }
    if padding :| WholeBlocks(m, padding) && payload == Packet(ch, x, m, padding) {
      EnvelopeRoundTrip(ch, x, m, padding);
    }
  }

  /** Padding is 12 to 27 bytes and makes the plaintext whole blocks; the packet is whole words. */
  lemma PacketSizes(ch: Channel, x: Direction, m: EncryptedMessage, padding: seq<byte>)
    requires ch.aes.Valid() && |padding| == PaddingLength(|Plain(m)|)
    ensures 12 <= |padding| <= 27 && |Plain(m) + padding| % 16 == 0
    ensures |Packet(ch, x, m, padding)| % 4 == 0
    ensures |m.body| <= 4 * MAX_WORDS - 83 ==> Framable(Packet(ch, x, m, padding))
  {
    hide PaddingLength, Packet, Plain, WholeBlocks;
    BuilderPadding(m, padding);
    PacketShape(ch, x, m, padding);
    PaddedBlocks(m, padding);
  }

  lemma PaddedBlocks(m: EncryptedMessage, padding: seq<byte>)
    requires WholeBlocks(m, padding)
    ensures |Plain(m) + padding| % 16 == 0
  {
  }

  // A stream of packets.

  datatype Sealed = Sealed(message: EncryptedMessage, padding: seq<byte>)

  function PacketOf(ch: Channel, x: Direction, s: Sealed): seq<byte> {
    Packet(ch, x, s.message, s.padding)
  }

  function Packets(ch: Channel, x: Direction, sent: seq<Sealed>): (r: seq<seq<byte>>)
    ensures |r| == |sent|
    ensures forall i :: 0 <= i < |sent| ==> r[i] == PacketOf(ch, x, sent[i])
  {
    seq(|sent|, i requires 0 <= i < |sent| => PacketOf(ch, x, sent[i]))
  }

  /** Each message is padded as the builder pads it and its packet fits a frame. */
  ghost predicate Sendable(ch: Channel, x: Direction, s: Sealed) {
    |s.padding| == PaddingLength(|Plain(s.message)|) && Framable(PacketOf(ch, x, s))
  }

  /**
   * End to end: whatever messages one side sends, the other side reads exactly those messages,
   * in order, from the stream of framed packets, with no byte left over.
   */
  lemma EndToEnd(ch: Channel, x: Direction, sent: seq<Sealed>)
    requires ch.aes.Valid()
    requires forall i :: 0 <= i < |sent| ==> Sendable(ch, x, sent[i])
    ensures var read := ReadFrames(Frames(Packets(ch, x, sent)));
            && read.Ok? && read.rest == [] && |read.value| == |sent|
            && forall i :: 0 <= i < |sent| ==> ParsePacket(ch, x, read.value[i]) == Some(sent[i].message)
  {
    hide PaddingLength, Packet, Plain, ParsePacket, ReadFrames, Frames, WholeBlocks;
    forall i | 0 <= i < |sent|
      ensures PacketOf(ch, x, sent[i]) != []
      ensures ParsePacket(ch, x, PacketOf(ch, x, sent[i])) == Some(sent[i].message)
    {
      BuilderPadding(sent[i].message, sent[i].padding);
      PacketShape(ch, x, sent[i].message, sent[i].padding);
      EnvelopeRoundTrip(ch, x, sent[i].message, sent[i].padding);
    }
    StreamDecodes(Packets(ch, x, sent));
  }

  // The bytes, position by position.

  /** Key and vector take turns: at every position one is a byte of the first hash and the other of the second. */
  lemma KeyIVBytes(sha256: Hash, authKey: AuthKey, msgKey: Block, x: Direction, i: nat)
    requires i < 32
    ensures var (key, iv) := KeyIV(sha256, authKey, msgKey, x);
            var a := sha256(msgKey + authKey[x..x + 36]);
            var b := sha256(authKey[x + 40..x + 76] + msgKey);
            && |key| == 32
            && key[i] == (if 8 <= i < 24 then b[i] else a[i]) && iv[i] == (if 8 <= i < 24 then a[i] else b[i])
  {
  }

  /** The message key is the middle of the hash over 32 bytes of the auth key and the plaintext. */
  lemma MsgKeyBytes(sha256: Hash, authKey: AuthKey, plain: seq<byte>, i: nat)
    requires i < 16
    ensures MsgKey(sha256, authKey, plain, FROM_CLIENT)[i] == sha256(authKey[88..120] + plain)[8 + i]
    ensures MsgKey(sha256, authKey, plain, FROM_SERVER)[i] == sha256(authKey[96..128] + plain)[8 + i]
  {
  }

  /** The plaintext: salt, session, message id, sequence number, length, body and padding at fixed places. */
  lemma PlainBytes(m: EncryptedMessage, padding: seq<byte>)
    ensures var plain, n := Plain(m) + padding, |m.body|;
            && |plain| == 32 + n + |padding|
            && plain[..8] == LE(U64(m.salt), 8) && plain[8..16] == LE(U64(m.sessionId), 8)
            && plain[16..24] == LE(U64(m.msgId), 8) && plain[24..28] == LE(U32(m.seqNo), 4)
            && plain[28..32] == LE(U32(n), 4) && plain[32..32 + n] == m.body && plain[32 + n..] == padding
  {
    hide U64, U32, LE;
  }

  /** The packet: the key id, the message key, and the sealed plaintext. */
  lemma PacketBytes(ch: Channel, x: Direction, m: EncryptedMessage, padding: seq<byte>)
    ensures var packet, plain := Packet(ch, x, m, padding), Plain(m) + padding;
            var msgKey := MsgKey(ch.sha256, ch.authKey, plain, x);
            var (key, iv) := KeyIV(ch.sha256, ch.authKey, msgKey, x);
            && |packet| >= 24 && packet[..8] == LE(ch.authKeyId, 8) && packet[8..24] == msgKey
            && packet[24..] == IGE.Seal(ch.aes, key, iv, plain)
  {
    hide KeyIV, MsgKey, Plain, LE;
  }
}
