/** The encrypted session: its counters and salt, inbound handling and the retry loop (mtproto/invoke.go). */
module Session {
  import opened Abridged
  import opened Bytes
  import opened Envelope
  import opened MessageIds
  import opened Messages
  import opened RequestLoop
  import opened Streams
  import opened TL
  import opened Wrappers
  import IGE

  /** A clock: any reading at each tick, depending in any way on the offset added to it. */
  class Clock {
    const read: (nat, i64) -> i64
    var ticks: nat

    constructor (read: (nat, i64) -> i64)
      ensures this.read == read && ticks == 0
    {
      this.read, ticks := read, 0;
    }

    method Now(offset: i64) returns (nanos: i64)
      modifies this
      ensures nanos == read(old(ticks), offset) && ticks == old(ticks) + 1
    {
      nanos := read(ticks, offset);
      ticks := ticks + 1;
    }
  }

  method SkipToWordBoundary(r: TlReader)
    requires r.Valid()
    modifies r
    ensures r.Valid()
    ensures r.off == if Aligned(old(r.off)) <= |r.buf| then Aligned(old(r.off)) else |r.buf|
  {
    while r.off % 4 != 0 && r.off < |r.buf|
      invariant old(r.off) <= r.off <= |r.buf| && r.off <= Aligned(old(r.off))
      decreases |r.buf| - r.off
    {
      r.off := r.off + 1;
    }
  }

  /** Skipping by the reader's offset and by the body's length is the same, from a word boundary on. */
  lemma SkipsAgree(s: seq<byte>, words: nat, n: nat)
    requires n + 4 * words <= |s|
    ensures var off := n + 4 * words;
            s[if Aligned(off) <= |s| then Aligned(off) else |s|..] == SkipToWord(n, s[off..])
  {
    hide Aligned;
    AlignedShift(n, words);
  }

  /** One container entry; between entries the reader is at a word boundary or at the end. */
  method NextChild(r: TlReader) returns (child: Option<(i64, seq<byte>)>)
    requires r.Valid() && (r.off % 4 == 0 || r.off == |r.buf|)
    modifies r
    ensures r.Valid() && (child.Some? ==> r.off % 4 == 0 || r.off == |r.buf|)
    ensures Agrees(child, r.Rest(), ReadChild(old(r.Rest())))
  {
    hide ReadLong, ReadInt, ReadRaw, SkipToWord, Aligned, Wrap64;
    ghost var words := r.off / 4;
    assert r.off == 4 * words || r.off == |r.buf|;
    var msgId := r.Long();
    if msgId == None {
      return None;
    }
    var seqNo := r.Int();
    if seqNo == None {
      return None;
    }
    var length := r.Int();
    if length == None {
      return None;
    }
    var body := r.Raw(length.value);
    if body == None {
      return None;
    }
    SkipsAgree(r.buf, words + 4, length.value);
    SkipToWordBoundary(r);
    child := Some((Wrap64(msgId.value), body.value));
  }

  class EncryptedState {
    const channel: Channel
    const dec: Decoders
    const sessionId: i64
    var serverSalt: i64
    var timeOffset: i64
    var seqCounter: i32
    var lastMsgId: i64

    /** newEncryptedState. */
    constructor (channel: Channel, dec: Decoders, serverSalt: i64, sessionId: i64, timeOffset: i64)
      ensures this.channel == channel && this.dec == dec && this.sessionId == sessionId
      ensures this.serverSalt == serverSalt && this.timeOffset == timeOffset
      ensures seqCounter == 0 && lastMsgId == 0
    {
      this.channel, this.dec, this.sessionId := channel, dec, sessionId;
      this.serverSalt, this.timeOffset := serverSalt, timeOffset;
      seqCounter, lastMsgId := 0, 0;
    }

    /** The fields a request can change, with what the connection, the clock and the random source have left. */
    ghost function Snapshot(source: ByteSource, sink: ByteSink, clock: Clock, random: ByteSource): State
      reads this, source, sink, clock, random
    {
      State(serverSalt, timeOffset, seqCounter, lastMsgId, clock.ticks,
            random.bytes, source.bytes, sink.written, sink.room)
    }

    /** What a request for a body keeps fixed. */
    ghost function SetupFor(clock: Clock, body: seq<byte>): Setup {
      Setup(channel, dec, sessionId, clock.read, body)
    }

    method NextSeqNo(contentRelated: bool) returns (seqNo: i32)
      modifies this`seqCounter
      ensures !contentRelated ==> seqNo == Wrap32(2 * seqCounter) && seqCounter == old(seqCounter)
      ensures contentRelated ==> seqNo == SeqNo(old(seqCounter)) && seqCounter == Wrap32(old(seqCounter) + 1)
    {
      if !contentRelated {
        return Wrap32(seqCounter * 2);
      }
      seqNo := Wrap32(seqCounter * 2 + 1);
      seqCounter := Wrap32(seqCounter + 1);
    }

    method NextMsgId(clock: Clock) returns (id: i64)
      modifies this`lastMsgId, clock
      ensures id == lastMsgId == NextId(old(lastMsgId), Candidate(clock.read(old(clock.ticks), timeOffset)))
      ensures clock.ticks == old(clock.ticks) + 1
    {
      var now := clock.Now(timeOffset);
      var candidate := Candidate(now);
      if candidate > lastMsgId {
        lastMsgId := candidate;
        return candidate;
      }
      lastMsgId := Wrap64(lastMsgId + 4);
      return lastMsgId;
    }

    /** adjustTimeOffsetFromBadMessage, on the id of the client's own request. */
    method AdjustTimeOffset(msgId: i64, code: i32, clock: Clock)
      modifies this`timeOffset, clock
      ensures var serverSeconds := U64(msgId) / 0x1_0000_0000;
              if (code != 16 && code != 17) || msgId == 0 || serverSeconds == 0 then
                timeOffset == old(timeOffset) && clock.ticks == old(clock.ticks)
              else
                && timeOffset == Wrap64(serverSeconds - clock.read(old(clock.ticks), 0) / NANOS)
                && clock.ticks == old(clock.ticks) + 1
    {
      if (code != 16 && code != 17) || msgId == 0 {
        return;
      }
      var serverSeconds := U64(msgId) / 0x1_0000_0000;
      if serverSeconds == 0 {
        return;
      }
      var now := clock.Now(0);
      timeOffset := Wrap64(serverSeconds - now / NANOS);
    }

    function Outgoing(msgId: i64, seqNo: i32, body: seq<byte>): EncryptedMessage
      reads this
    {
      EncryptedMessage(serverSalt, sessionId, msgId, seqNo, body)
    }

    /** buildEncryptedPacket; the ghost result is the message and padding inside the packet. */
    method BuildEncryptedPacket(random: ByteSource, msgId: i64, seqNo: i32, body: seq<byte>)
      returns (packet: Option<seq<byte>>, ghost inside: Sealed)
      requires channel.aes.Valid()
      modifies random
      ensures packet.Some? <==> |old(random.bytes)| >= PaddingLength(32 + |body|)
      ensures packet.Some? ==>
                && inside.message == Outgoing(msgId, seqNo, body)
                && |Plain(inside.message)| == 32 + |body|
                && inside.padding == old(random.bytes)[..PaddingLength(32 + |body|)]
                && random.bytes == old(random.bytes)[PaddingLength(32 + |body|)..]
                && packet.value == PacketOf(channel, FROM_CLIENT, inside)
      ensures packet.None? ==> random.bytes == []
    {
      hide LongCode, IntCode, PaddingLength, KeyIV, MsgKey, U64, U32;
      inside := Sealed(Outgoing(msgId, seqNo, body), []);
      var plain := LongCode(U64(serverSalt));
      plain := plain + LongCode(U64(sessionId));
      plain := plain + LongCode(U64(msgId));
      plain := plain + IntCode(U32(seqNo));
      plain := plain + IntCode(U32(|body|));
      plain := plain + body;
      assert plain == Plain(inside.message) && |plain| == 32 + |body|;
      var padding := random.ReadFull(PaddingLength(|plain|));
      if padding == None {
        return None, inside;
      }
      plain := plain + padding.value;
      var msgKey := MsgKey(channel.sha256, channel.authKey, plain, FROM_CLIENT);
      var (key, iv) := KeyIV(channel.sha256, channel.authKey, msgKey, FROM_CLIENT);
      var ciphertext := IGE.AesIGEEncrypt(channel.aes, plain, key, iv);
      inside := inside.(padding := padding.value);
      packet := Some(LongCode(channel.authKeyId) + msgKey + ciphertext.value);
    }

    method ReadPlain(plain: seq<byte>) returns (m: Option<EncryptedMessage>)
      ensures m == if ParsePlain(plain).Ok? then Some(ParsePlain(plain).value) else None
    {
      hide ReadLong, ReadInt, ReadRaw, Wrap64, Wrap32;
      var r := new TlReader(plain);
      var salt := r.Long();
      if salt == None { return None; }
      var session := r.Long();
      if session == None { return None; }
      var msgId := r.Long();
      if msgId == None { return None; }
      var seqNo := r.Int();
      if seqNo == None { return None; }
      var length := r.Int();
      if length == None { return None; }
      var body := r.Raw(length.value);
      if body == None { return None; }
      m := Some(EncryptedMessage(Wrap64(salt.value), Wrap64(session.value), Wrap64(msgId.value),
                                 Wrap32(seqNo.value), body.value));
    }

    /** parseEncryptedPacket. */
    method ParseEncryptedPacket(payload: seq<byte>) returns (m: Option<EncryptedMessage>)
      ensures m == ParsePacket(channel, FROM_SERVER, payload)
    {
      hide ReadLong, KeyIV, MsgKey, ParsePlain;
      if |payload| < 24 || (|payload| - 24) % 16 != 0 {
        return None;
      }
      var r := new TlReader(payload);
      var authKeyId := r.Long();
      if authKeyId == None || authKeyId.value != channel.authKeyId {
        return None;
      }
      ghost var s := r.Rest();
      var msgKey := r.Raw(16);
      if msgKey == None {
        return None;
      }
      var ciphertext := r.Rest();
      assert msgKey.value == s[..16] && ciphertext == s[16..];
      var (key, iv) := KeyIV(channel.sha256, channel.authKey, msgKey.value, FROM_SERVER);
      var plain := IGE.AesIGEDecrypt(channel.aes, ciphertext, key, iv);
      if plain == None {
        return None;
      }
      var genuine := EqualBytes(msgKey.value, MsgKey(channel.sha256, channel.authKey, plain.value, FROM_SERVER));
      if !genuine {
        return None;
      }
      m := ReadPlain(plain.value);
    }

    // Inbound messages.

    /** parseRPCResultObject. */
    method ParseRpcResult(msgId: i64, body: seq<byte>) returns (outcome: Outcome)
      ensures outcome == RpcOutcome(dec, msgId, body)
    {
      hide ReadInt, ReadBytes, Wrap32;
      var r := new TlReader(body);
      var constructorId := r.Int();
      if constructorId == None {
        return Failed(Malformed);
      }
      if constructorId.value == RPC_ERROR {
        var code := r.Int();
        if code == None {
          return Failed(Malformed);
        }
        var message := r.ByteString();
        if message == None {
          return Failed(Malformed);
        }
        return Failed(RpcError(Wrap32(code.value), dec.clean(message.value)));
      }
      if constructorId.value == GZIP_PACKED {
        var packed := r.ByteString();
        if packed == None {
          return Failed(Malformed);
        }
        var unpacked := dec.gunzip(packed.value);
        if unpacked == None {
          return Failed(Malformed);
        }
        var inner := new TlReader(unpacked.value);
        var innerId := inner.Int();
        if innerId == None {
          return Failed(Malformed);
        }
        return Done(InvokeResult(msgId, innerId.value, unpacked.value, true));
      }
      return Done(InvokeResult(msgId, constructorId.value, body, false));
    }

    method ReadBadServerSalt(r: TlReader) returns (outcome: Outcome)
      requires r.Valid()
      modifies r, this`serverSalt
      ensures (outcome, serverSalt) == SaltOutcome(old(r.Rest()), old(serverSalt))
    {
      hide ReadLong, ReadInt, Wrap64, Wrap32;
      var badMsgId := r.Long();
      if badMsgId == None { return Failed(Malformed); }
      var badSeqNo := r.Int();
      if badSeqNo == None { return Failed(Malformed); }
      var code := r.Int();
      if code == None { return Failed(Malformed); }
      var newSalt := r.Long();
      if newSalt == None { return Failed(Malformed); }
      serverSalt := Wrap64(newSalt.value);
      outcome := Failed(BadServerSalt(Wrap64(badMsgId.value), Wrap32(badSeqNo.value),
                                      Wrap32(code.value), Wrap64(newSalt.value)));
    }

    method ReadBadMessage(r: TlReader) returns (outcome: Outcome)
      requires r.Valid()
      modifies r
      ensures outcome == BadMessageOutcome(old(r.Rest()))
    {
      hide ReadLong, ReadInt, Wrap64, Wrap32;
      var badMsgId := r.Long();
      if badMsgId == None { return Failed(Malformed); }
      var badSeqNo := r.Int();
      if badSeqNo == None { return Failed(Malformed); }
      var code := r.Int();
      if code == None { return Failed(Malformed); }
      outcome := Failed(BadMessage(Wrap64(badMsgId.value), Wrap32(badSeqNo.value), Wrap32(code.value)));
    }

    method ReadNewSession(r: TlReader) returns (outcome: Outcome)
      requires r.Valid()
      modifies r, this`serverSalt
      ensures match NewSessionSalt(old(r.Rest()))
              case Err => outcome == Failed(Malformed) && serverSalt == old(serverSalt)
              case Ok(newSalt, _) => outcome == Continue && serverSalt == newSalt
    {
      hide ReadLong, Wrap64;
      var firstMsgId := r.Long();
      if firstMsgId == None { return Failed(Malformed); }
      var uniqueId := r.Long();
      if uniqueId == None { return Failed(Malformed); }
      var newSalt := r.Long();
      if newSalt == None { return Failed(Malformed); }
      serverSalt := Wrap64(newSalt.value);
      outcome := Continue;
    }

    /** The cases of handleMessage other than the container, on a reader behind the constructor. */
    method HandleLeaf(constructorId: u32, r: TlReader, msgId: i64, requestId: i64) returns (outcome: Outcome)
      requires r.Valid() && |r.buf| >= 4 && ReadInt(r.buf) == Ok(constructorId, r.Rest())
      modifies r, this`serverSalt
      ensures (outcome, serverSalt) == LeafStep(dec, msgId, r.buf, requestId, old(serverSalt))
    {
      hide ReadInt, ReadLong, RpcOutcome, SaltOutcome, BadMessageOutcome, NewSessionSalt, Wrap64;
      if constructorId == RPC_RESULT {
        var answers := r.Long();
        if answers == None {
          return Failed(Malformed);
        }
        if Wrap64(answers.value) != requestId {
          return Continue;
        }
        outcome := ParseRpcResult(msgId, r.Rest());
      } else if constructorId == NEW_SESSION_CREATED {
        outcome := ReadNewSession(r);
      } else if constructorId == BAD_SERVER_SALT {
        outcome := ReadBadServerSalt(r);
      } else if constructorId == BAD_MSG_NOTIFICATION {
        outcome := ReadBadMessage(r);
      } else {
        outcome := Continue;
      }
    }

    /** The container case of handleMessage: `count` entries, on a reader behind the count. */
    method HandleContainer(r: TlReader, count: nat, requestId: i64) returns (outcome: Outcome)
      requires r.Valid() && r.off % 4 == 0
      modifies r, this`serverSalt
      ensures (outcome, serverSalt) == Scan(dec, FlattenChildren(old(r.Rest()), count), requestId, old(serverSalt))
      decreases |r.Rest()|, 1
    {
      hide ReadChild, Flatten, FlattenChildren, Scan;
      ghost var first := r.Rest();
      var i := 0;
      while i < count
        invariant 0 <= i <= count && r.Valid() && |r.Rest()| <= |first|
        invariant r.off % 4 == 0 || r.off == |r.buf|
        invariant Scan(dec, FlattenChildren(first, count), requestId, old(serverSalt))
               == Scan(dec, FlattenChildren(r.Rest(), count - i), requestId, serverSalt)
      {
        ScanChildren(dec, r.Rest(), count - i, requestId, serverSalt);
        var child := NextChild(r);
        if child == None {
          return Failed(Malformed);
        }
        outcome := HandleMessage(child.value.0, child.value.1, requestId);
        if outcome != Continue {
          return;
        }
        i := i + 1;
      }
      ScanChildren(dec, r.Rest(), 0, requestId, serverSalt);
      outcome := Continue;
    }

    /**
     * handleMessage: the recursion over nested containers, of any byte string, does exactly
     * what a left-to-right scan of the flattened leaves does, including to the server salt.
     */
    method HandleMessage(msgId: i64, body: seq<byte>, requestId: i64) returns (outcome: Outcome)
      modifies this`serverSalt
      ensures (outcome, serverSalt) == Scan(dec, Flatten(msgId, body), requestId, old(serverSalt))
      decreases |body|, 0
    {
      hide ReadInt, LeafStep, FlattenChildren;
      if |body| < 4 {
        return Failed(Malformed);
      }
      var r := new TlReader(body);
      var constructorId := r.Int();
      if constructorId.value != MSG_CONTAINER {
        outcome := HandleLeaf(constructorId.value, r, msgId, requestId);
        return;
      }
      var count := r.Int();
      if count == None {
        return Failed(Malformed);
      }
      outcome := HandleContainer(r, count.value, requestId);
    }

    // The request loop.

    /** Reads messages until one answers or rejects the request; never ends in Continue. */
    method Await(source: ByteSource, requestId: i64) returns (end: Outcome)
      modifies source, this`serverSalt
      ensures var w := Wait(channel, dec, old(source.bytes), requestId, old(serverSalt));
              end == w.end && serverSalt == w.salt && source.bytes == w.left
    {
      hide ReadFrame, ParsePacket, Scan, Flatten, AfterFailedRead;
      ghost var whole := Wait(channel, dec, source.bytes, requestId, serverSalt);
      while true
        invariant var w := Wait(channel, dec, source.bytes, requestId, serverSalt);
                  whole.end == w.end && whole.salt == w.salt && whole.left == w.left
        decreases |source.bytes|
      {
        var payload := AbridgedRead(source);
        if payload == None {
          return Failed(ReadFailed);
        }
        var m := ParseEncryptedPacket(payload.value);
        if m == None {
          return Failed(BadPacket);
        }
        end := HandleMessage(m.value.msgId, m.value.body, requestId);
        if end != Continue {
          return;
        }
      }
    }

    /** One packet for the request, under the current salt and the next id and sequence number. */
    method SendPacket(ghost source: ByteSource, sink: ByteSink, clock: Clock, random: ByteSource, body: seq<byte>)
      returns (failure: Option<Error>, requestId: i64)
      requires channel.aes.Valid() && source != random
      modifies this`seqCounter, this`lastMsgId, sink, clock, random
      ensures match RequestLoop.Send(SetupFor(clock, body), old(Snapshot(source, sink, clock, random)))
              case Sent(packet, after) =>
                failure == None && requestId == packet.message.msgId && Snapshot(source, sink, clock, random) == after
              case Unsent(error, after) =>
                failure == Some(error) && Snapshot(source, sink, clock, random) == after
    {
      hide Frame, PacketOf, Wrap32, SeqNo, PaddingLength, Plain, NextId, Candidate, Framable;
      requestId := NextMsgId(clock);
      var seqNo := NextSeqNo(true);
      var packet;
      ghost var inside;
      packet, inside := BuildEncryptedPacket(random, requestId, seqNo, body);
      if packet == None {
        return Some(NoRandomness), requestId;
      }
      var ok := AbridgedWrite(sink, packet.value);
      if !ok {
        return Some(WriteFailed), requestId;
      }
      failure := None;
    }

    /**
     * invoke: up to three attempts. The answer and everything it changes, in the session and on
     * the connection, are those of the run from the state it starts in.
     */
    method Invoke(source: ByteSource, sink: ByteSink, clock: Clock, random: ByteSource, body: seq<byte>)
      returns (r: Answer)
      requires channel.aes.Valid() && source != random
      modifies this`serverSalt, this`timeOffset, this`seqCounter, this`lastMsgId, source, sink, clock, random
      ensures var run := RunFrom(SetupFor(clock, body), old(Snapshot(source, sink, clock, random)), 3, None);
              r == run.answer && Snapshot(source, sink, clock, random) == run.after
      ensures r != Rejected(RetryLimit)
      ensures old(lastMsgId) % 4 == 0 ==> lastMsgId % 4 == 0
    {
      hide RunFrom, RequestLoop.Send, Wait, BeforeRetry, Retriable, RetriableCode;
      ghost var u := SetupFor(clock, body);
      ghost var whole := RunFrom(u, Snapshot(source, sink, clock, random), 3, None);
      RetryLimitUnreachable(u, Snapshot(source, sink, clock, random), 3);
      if lastMsgId % 4 == 0 {
        RunIds(u, Snapshot(source, sink, clock, random), 3, None);
      }
      var lastErr: Option<Error> := None;
      for attempt := 0 to 3
        invariant var now := RunFrom(u, Snapshot(source, sink, clock, random), 3 - attempt, lastErr);
                  whole.answer == now.answer && whole.after == now.after
      {
        RunStep(u, Snapshot(source, sink, clock, random), 3 - attempt, lastErr);
        var failure, requestId := SendPacket(source, sink, clock, random, body);
        if failure.Some? {
          return Rejected(failure.value);
        }
        var end := Await(source, requestId);
        if end.Done? {
          return Answered(end.result, requestId);
        }
        lastErr := Some(end.error);
        if !Retriable(end.error) {
          return Rejected(end.error);
        }
        BeforeRetryStep(u, Snapshot(source, sink, clock, random), requestId, end.error);
        if end.error.BadMessage? && (end.error.errorCode == 16 || end.error.errorCode == 17) {
          AdjustTimeOffset(requestId, end.error.errorCode, clock);
        }
      }
      NoAttemptsLeft(u, Snapshot(source, sink, clock, random), lastErr);
      if lastErr.Some? {
        return Rejected(lastErr.value);
      }
      return Rejected(RetryLimit);
    }
  }
}
