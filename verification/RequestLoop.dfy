/**
 * One request over a session (mtproto/invoke.go, invoke) as functions of the session state and
 * of both halves of the connection: what is sent, what each attempt hears, and how it ends.
 */
module RequestLoop {
  import opened Abridged
  import opened Bytes
  import opened Envelope
  import opened MessageIds
  import opened Messages
  import opened TL
  import opened Wrappers

  /** isRetriableBadMessageCode. */
  predicate RetriableCode(code: i32) {
    code == 16 || code == 17 || code == 32 || code == 33 || code == 48
  }

  /** The errors after which a request is rebuilt and sent again. */
  predicate Retriable(error: Error) {
    error.BadServerSalt? || (error.BadMessage? && RetriableCode(error.errorCode))
  }

  // Waiting for the fate of a request.

  /** How waiting ends: the outcome, the server salt then, the messages received and the bytes left. */
  datatype Waited = Waited(end: Outcome, salt: i64, received: seq<EncryptedMessage>, left: seq<byte>)

  /**
   * Reads frames and scans their messages, each with the salt the one before left, until one
   * answers or rejects the request, or a frame or packet cannot be read.
   */
  function Wait(ch: Channel, dec: Decoders, inbound: seq<byte>, requestId: i64, salt: i64): (w: Waited)
    ensures w.end != Continue
    decreases |inbound|
  {
    match ReadFrame(inbound)
    case Err => Waited(Failed(ReadFailed), salt, [], AfterFailedRead(inbound))
    case Ok(payload, t) =>
      match ParsePacket(ch, FROM_SERVER, payload)
      case None => Waited(Failed(BadPacket), salt, [], t)
      case Some(m) =>
        var (outcome, salt') := Scan(dec, Flatten(m.msgId, m.body), requestId, salt);
        if outcome != Continue then Waited(outcome, salt', [m], t)
        else
          var later := Wait(ch, dec, t, requestId, salt');
          later.(received := [m] + later.received)
  }

  /** Some leaf of the last message received is an rpc_result for the request and yields the result. */
  ghost predicate AnsweredBy(dec: Decoders, received: seq<EncryptedMessage>, requestId: i64, result: InvokeResult) {
    received != [] &&
    var m := received[|received| - 1];
    exists item :: item in Flatten(m.msgId, m.body) && Answers(dec, item, requestId, result)
  }

  /** Errors that do not come from a message. */
  predicate Unreadable(end: Outcome) {
    end == Failed(ReadFailed) || end == Failed(BadPacket)
  }

  /** A result comes from an rpc_result for the request; after bad_server_salt the salt is the announced one. */
  lemma {:induction false} WaitMeaning(ch: Channel, dec: Decoders, inbound: seq<byte>, requestId: i64, salt: i64)
    ensures var w := Wait(ch, dec, inbound, requestId, salt);
            && (w.end.Done? ==> AnsweredBy(dec, w.received, requestId, w.end.result))
            && (w.end.Failed? ==> FromMessage(w.end.error) || Unreadable(w.end))
            && (w.end.Failed? && w.end.error.BadServerSalt? ==> w.salt == w.end.error.newSalt)
    decreases |inbound|
  {
    hide ReadFrame, ParsePacket, Scan, Flatten, Answers;
    var frame := ReadFrame(inbound);
    if frame.Ok? {
      var packet := ParsePacket(ch, FROM_SERVER, frame.value);
      if packet.Some? {
        var m := packet.value;
        var (outcome, salt') := Scan(dec, Flatten(m.msgId, m.body), requestId, salt);
        ScanEnds(dec, Flatten(m.msgId, m.body), requestId, salt);
        if outcome == Continue {
          WaitMeaning(ch, dec, frame.rest, requestId, salt');
        }
      }
    }
  }

  /** All leaves of some messages, in order. */
  function Items(ms: seq<EncryptedMessage>): seq<Item> {
    if ms == [] then [] else Flatten(ms[0].msgId, ms[0].body) + Items(ms[1..])
  }

  /** Waiting is one scan over the leaves of everything received, across messages and containers. */
  lemma {:induction false} WaitIsOneScan(ch: Channel, dec: Decoders, inbound: seq<byte>, requestId: i64, salt: i64)
    ensures var w := Wait(ch, dec, inbound, requestId, salt);
            Scan(dec, Items(w.received), requestId, salt) == (if Unreadable(w.end) then Continue else w.end, w.salt)
    decreases |inbound|
  {
    hide ReadFrame, ParsePacket, Scan, Flatten;
    var frame := ReadFrame(inbound);
    NothingToScan(dec, requestId, salt);
    if frame.Ok? {
      var packet := ParsePacket(ch, FROM_SERVER, frame.value);
      if packet.Some? {
        var m := packet.value;
        var items := Flatten(m.msgId, m.body);
        var (outcome, salt') := Scan(dec, items, requestId, salt);
        ScanEnds(dec, items, requestId, salt);
        if outcome == Continue {
          WaitIsOneScan(ch, dec, frame.rest, requestId, salt');
          var later := Wait(ch, dec, frame.rest, requestId, salt').received;
          ScanConcat(dec, items, Items(later), requestId, salt);
          assert ([m] + later)[1..] == later;
        } else {
          assert Items([m]) == items + Items([]) == items;
        }
      }
    }
  }

  lemma NothingToScan(dec: Decoders, requestId: i64, salt: i64)
    ensures Scan(dec, [], requestId, salt) == (Continue, salt)
  {
  }

  function MessagesOf(sent: seq<Sealed>): (ms: seq<EncryptedMessage>)
    ensures |ms| == |sent|
    ensures forall i :: 0 <= i < |sent| ==> ms[i] == sent[i].message
  {
    seq(|sent|, i requires 0 <= i < |sent| => sent[i].message)
  }

  /**
   * Against a server that sends any messages of which the last one settles the request, waiting
   * receives exactly these messages and ends as the scan of their leaves does, leaving what follows.
   */
  lemma {:induction false} WaitHearsServer(ch: Channel, dec: Decoders, sent: seq<Sealed>, rest: seq<byte>,
                                           requestId: i64, salt: i64)
    requires ch.aes.Valid() && sent != [] && forall i :: 0 <= i < |sent| ==> Sendable(ch, FROM_SERVER, sent[i])
    requires Scan(dec, Items(MessagesOf(sent[..|sent| - 1])), requestId, salt).0 == Continue
    requires Scan(dec, Items(MessagesOf(sent)), requestId, salt).0 != Continue
    ensures var (outcome, salt') := Scan(dec, Items(MessagesOf(sent)), requestId, salt);
            Wait(ch, dec, Frames(Packets(ch, FROM_SERVER, sent)) + rest, requestId, salt)
            == Waited(outcome, salt', MessagesOf(sent), rest)
    decreases |sent|
  {
    hide ReadFrame, Frame, ParsePacket, PacketOf, Scan, Flatten, Sendable;
    var n := |sent|;
    var m, packet := sent[0].message, PacketOf(ch, FROM_SERVER, sent[0]);
    var items := Flatten(m.msgId, m.body);
    var stream := Frames(Packets(ch, FROM_SERVER, sent)) + rest;
    var later := Frames(Packets(ch, FROM_SERVER, sent[1..])) + rest;
    assert Packets(ch, FROM_SERVER, sent)[1..] == Packets(ch, FROM_SERVER, sent[1..]);
    assert stream == Frame(packet) + later;
    SendableReads(ch, FROM_SERVER, sent[0], later);
    assert MessagesOf(sent)[1..] == MessagesOf(sent[1..]);
    ScanConcat(dec, items, Items(MessagesOf(sent[1..])), requestId, salt);
    if n > 1 {
      var front := sent[..n - 1];
      assert MessagesOf(front)[1..] == MessagesOf(sent[1..][..n - 2]);
      ScanConcat(dec, items, Items(MessagesOf(sent[1..][..n - 2])), requestId, salt);
      WaitHearsServer(ch, dec, sent[1..], rest, requestId, Scan(dec, items, requestId, salt).1);
      assert MessagesOf(sent) == [m] + MessagesOf(sent[1..]);
    } else {
      assert sent[1..] == [] && later == rest;
      assert Items(MessagesOf(sent[1..])) == [];
      assert items + [] == items;
      assert MessagesOf(sent) == [m];
    }
  }

  lemma SendableReads(ch: Channel, x: Direction, s: Sealed, later: seq<byte>)
    requires ch.aes.Valid() && Sendable(ch, x, s)
    ensures ReadFrame(Frame(PacketOf(ch, x, s)) + later) == Ok(PacketOf(ch, x, s), later)
    ensures ParsePacket(ch, x, PacketOf(ch, x, s)) == Some(s.message)
  {
    hide Frame, ReadFrame, ParsePacket, Packet, Plain, PaddingLength, WholeBlocks;
    BuilderPadding(s.message, s.padding);
    PacketShape(ch, x, s.message, s.padding);
    SentBodyFits(ch, x, s);
    EnvelopeRoundTrip(ch, x, s.message, s.padding);
    ReadFrameOfFrame(PacketOf(ch, x, s), later);
  }

  lemma SentBodyFits(ch: Channel, x: Direction, s: Sealed)
    requires ch.aes.Valid() && Sendable(ch, x, s)
    ensures |s.message.body| < 0x1_0000_0000
  {
    hide Packet, Plain, PaddingLength, WholeBlocks;
    BuilderPadding(s.message, s.padding);
    PacketShape(ch, x, s.message, s.padding);
  }

  // One request.

  /** What does not change during a request. */
  datatype Setup = Setup(ch: Channel, dec: Decoders, sessionId: i64, clock: (nat, i64) -> i64, body: seq<byte>)

  /** The session's fields, the clock's ticks, and what is left of randomness and of both directions. */
  datatype State = State(
    salt: i64, timeOffset: i64, seqCounter: i32, lastMsgId: i64, ticks: nat,
    random: seq<byte>, inbound: seq<byte>, written: seq<byte>, room: nat)

  datatype Answer = Answered(result: InvokeResult, requestId: i64) | Rejected(error: Error)

  /** After drawing a message id and a sequence number. */
  function Drawn(u: Setup, s: State): State {
    s.(lastMsgId := NextId(s.lastMsgId, Candidate(u.clock(s.ticks, s.timeOffset))),
       seqCounter := Wrap32(s.seqCounter + 1), ticks := s.ticks + 1)
  }

  /** The number of padding bytes a packet for the request draws. */
  function Padding(u: Setup): nat {
    PaddingLength(32 + |u.body|)
  }

  /** The packet sent from a state: its salt, the next id and sequence number, and the next random bytes. */
  function NextPacket(u: Setup, s: State): Sealed
    requires |s.random| >= Padding(u)
  {
    Sealed(EncryptedMessage(s.salt, u.sessionId, Drawn(u, s).lastMsgId, SeqNo(s.seqCounter), u.body),
           s.random[..Padding(u)])
  }

  datatype Sent = Sent(packet: Sealed, after: State) | Unsent(error: Error, after: State)

  /** Building and writing one packet; a write that fails leaves as much of the frame as there was room for. */
  function Send(u: Setup, s: State): Sent {
    var drawn := Drawn(u, s);
    if |s.random| < Padding(u) then Unsent(NoRandomness, drawn.(random := []))
    else
      var packet := PacketOf(u.ch, FROM_CLIENT, NextPacket(u, s));
      var built := drawn.(random := s.random[Padding(u)..]);
      if !Framable(packet) then Unsent(WriteFailed, built)
      else if |Frame(packet)| > s.room then
        Unsent(WriteFailed, built.(written := s.written + Frame(packet)[..s.room], room := 0))
      else
        Sent(NextPacket(u, s), built.(written := s.written + Frame(packet), room := s.room - |Frame(packet)|))
  }

  lemma NextPacketLength(u: Setup, s: State)
    requires u.ch.aes.Valid() && |s.random| >= Padding(u)
    ensures |PacketOf(u.ch, FROM_CLIENT, NextPacket(u, s))| == 56 + |u.body| + Padding(u)
    ensures |PacketOf(u.ch, FROM_CLIENT, NextPacket(u, s))| % 4 == 0
    ensures |NextPacket(u, s).padding| == PaddingLength(|Plain(NextPacket(u, s).message)|)
  {
    hide Packet, PaddingLength, Drawn, WholeBlocks, SeqNo;
    var packet := NextPacket(u, s);
    assert |Plain(packet.message)| == 32 + |u.body| by {
      PlainLength(packet.message);
    }
    hide Plain;
    BuilderPadding(packet.message, packet.padding);
    PacketShape(u.ch, FROM_CLIENT, packet.message, packet.padding);
    PacketSizes(u.ch, FROM_CLIENT, packet.message, packet.padding);
  }

  lemma PlainLength(m: EncryptedMessage)
    ensures |Plain(m)| == 32 + |m.body|
  {
    hide LongCode, IntCode, U64, U32;
  }

  /** The bytes a packet of n bytes takes on the wire. */
  function FrameLength(n: nat): nat {
    if n / 4 < 127 then n + 1 else n + 4
  }

  /**
   * Sending succeeds exactly when there is randomness for the padding, the packet is not too long
   * for a frame, and the connection has room for it. All three depend on the body's length alone.
   */
  lemma SendSucceeds(u: Setup, s: State)
    requires u.ch.aes.Valid()
    ensures var n := 56 + |u.body| + Padding(u);
            Send(u, s).Sent? <==> |s.random| >= Padding(u) && n / 4 <= MAX_WORDS && s.room >= FrameLength(n)
    ensures Send(u, s).Sent? ==> Sendable(u.ch, FROM_CLIENT, Send(u, s).packet)
  {
    hide PacketOf, Padding, NextPacket, Drawn, PaddingLength, Plain;
    if |s.random| >= Padding(u) {
      NextPacketLength(u, s);
    }
  }

  /** adjustTimeOffsetFromBadMessage, on the id of the client's own request. */
  function Corrected(u: Setup, s: State, requestId: i64, code: i32): State {
    var serverSeconds := U64(requestId) / 0x1_0000_0000;
    if (code != 16 && code != 17) || requestId == 0 || serverSeconds == 0 then s
    else s.(timeOffset := Wrap64(serverSeconds - u.clock(s.ticks, 0) / NANOS), ticks := s.ticks + 1)
  }

  /** The state after a failure that leads to another attempt. */
  function BeforeRetry(u: Setup, s: State, requestId: i64, error: Error): State {
    if error.BadMessage? then Corrected(u, s, requestId, error.errorCode) else s
  }

  lemma BeforeRetryStep(u: Setup, s: State, requestId: i64, error: Error)
    ensures var serverSeconds := U64(requestId) / 0x1_0000_0000;
            BeforeRetry(u, s, requestId, error)
            == if !error.BadMessage? || (error.errorCode != 16 && error.errorCode != 17)
                  || requestId == 0 || serverSeconds == 0
               then s
               else s.(timeOffset := Wrap64(serverSeconds - u.clock(s.ticks, 0) / NANOS), ticks := s.ticks + 1)
  {
    hide U64, Wrap64;
  }

  /** A packet that was sent, and what was heard until its fate was known. */
  datatype Try = Try(packet: Sealed, reply: Waited)

  datatype Run = Run(tries: seq<Try>, answer: Answer, after: State)

  function Hear(u: Setup, s: State, requestId: i64): (w: Waited)
    ensures w.end != Continue
  {
    Wait(u.ch, u.dec, s.inbound, requestId, s.salt)
  }

  /** The request with some attempts left and the last error so far. */
  function RunFrom(u: Setup, s: State, attempts: nat, lastErr: Option<Error>): Run
    decreases attempts
  {
    if attempts == 0 then Run([], Rejected(if lastErr.Some? then lastErr.value else RetryLimit), s)
    else
      match Send(u, s)
      case Unsent(error, after) => Run([], Rejected(error), after)
      case Sent(packet, after) =>
        var requestId := packet.message.msgId;
        var reply := Hear(u, after, requestId);
        var heard := after.(salt := reply.salt, inbound := reply.left);
        match reply.end
        case Done(result) => Run([Try(packet, reply)], Answered(result, requestId), heard)
        case Failed(error) =>
          if !Retriable(error) then Run([Try(packet, reply)], Rejected(error), heard)
          else
            var later := RunFrom(u, BeforeRetry(u, heard, requestId, error), attempts - 1, Some(error));
            later.(tries := [Try(packet, reply)] + later.tries)
  }

  /** One round of the loop, in terms of how the run ends. */
  lemma RunStep(u: Setup, s: State, attempts: nat, lastErr: Option<Error>)
    requires attempts > 0
    ensures var r := RunFrom(u, s, attempts, lastErr);
            match Send(u, s)
            case Unsent(error, after) => r.answer == Rejected(error) && r.after == after
            case Sent(packet, after) =>
              var reply := Hear(u, after, packet.message.msgId);
              var heard := after.(salt := reply.salt, inbound := reply.left);
              match reply.end
              case Done(result) => r.answer == Answered(result, packet.message.msgId) && r.after == heard
              case Failed(error) =>
                if !Retriable(error) then r.answer == Rejected(error) && r.after == heard
                else
                  var next := BeforeRetry(u, heard, packet.message.msgId, error);
                  var later := RunFrom(u, next, attempts - 1, Some(error));
                  r.answer == later.answer && r.after == later.after
  {
    hide Send, Hear, BeforeRetry, Retriable;
  }

  lemma NoAttemptsLeft(u: Setup, s: State, lastErr: Option<Error>)
    ensures RunFrom(u, s, 0, lastErr) == Run([], Rejected(if lastErr.Some? then lastErr.value else RetryLimit), s)
  {
  }

  // What every run keeps.

  /** The salt in force before try i: the one the reply before left, or the first one. */
  function SaltAt(s: State, tries: seq<Try>, i: nat): i64
    requires i <= |tries|
  {
    if i == 0 then s.salt else tries[i - 1].reply.salt
  }

  /** The inbound bytes unread before try i. */
  function InboundAt(s: State, tries: seq<Try>, i: nat): seq<byte>
    requires i <= |tries|
  {
    if i == 0 then s.inbound else tries[i - 1].reply.left
  }

  /**
   * Try i carries the body under the salt in force and the i-th sequence number, in a packet a
   * server can read, and heard what the bytes unread so far say about its own message id. Only
   * the last try may have ended in something other than a failure that asks for a retry.
   */
  ghost predicate TryExplained(u: Setup, s: State, tries: seq<Try>, i: nat)
    requires i < |tries|
  {
    var m, reply := tries[i].packet.message, tries[i].reply;
    && m == EncryptedMessage(SaltAt(s, tries, i), u.sessionId, m.msgId, SeqNo(s.seqCounter + i), u.body)
    && Sendable(u.ch, FROM_CLIENT, tries[i].packet)
    && reply == Wait(u.ch, u.dec, InboundAt(s, tries, i), m.msgId, m.salt)
    && (i + 1 < |tries| ==> reply.end.Failed? && Retriable(reply.end.error))
  }

  ghost predicate TriesExplained(u: Setup, s: State, tries: seq<Try>) {
    forall i :: 0 <= i < |tries| ==> TryExplained(u, s, tries, i)
  }

  lemma SeqNoLater(counter: i32, i: int)
    ensures SeqNo(Wrap32(counter + 1) + i) == SeqNo(counter + (i + 1))
  {
    hide Wrap32;
    var k := Wrap32Distance(counter + 1);
    Wrap32Shift(2 * (counter + (i + 1)) + 1, 2 * k);
    assert 2 * (Wrap32(counter + 1) + i) + 1 == 2 * (counter + (i + 1)) + 1 + 0x1_0000_0000 * (2 * k);
  }

  lemma ExplainedLater(u: Setup, s: State, next: State, first: Try, later: seq<Try>)
    requires TriesExplained(u, next, later) && TryExplained(u, s, [first] + later, 0)
    requires next.salt == first.reply.salt && next.inbound == first.reply.left
    requires next.seqCounter == Wrap32(s.seqCounter + 1)
    ensures TriesExplained(u, s, [first] + later)
  {
    hide SeqNo, Wrap32, Sendable, Wait;
    var tries := [first] + later;
    forall i | 0 <= i < |tries|
      ensures TryExplained(u, s, tries, i)
    {
      if i > 0 {
        assert tries[i] == later[i - 1] && TryExplained(u, next, later, i - 1);
        SeqNoLater(s.seqCounter, i - 1);
        assert SaltAt(s, tries, i) == SaltAt(next, later, i - 1);
        assert InboundAt(s, tries, i) == InboundAt(next, later, i - 1);
      }
    }
  }

  /** What one successful send and the wait after it contribute. */
  lemma FirstTry(u: Setup, s: State)
    requires u.ch.aes.Valid() && Send(u, s).Sent?
    ensures var Sent(packet, after) := Send(u, s);
            var reply := Hear(u, after, packet.message.msgId);
            && packet.message == EncryptedMessage(s.salt, u.sessionId, packet.message.msgId,
                                                  SeqNo(s.seqCounter), u.body)
            && after.salt == s.salt && after.inbound == s.inbound && after.seqCounter == Wrap32(s.seqCounter + 1)
            && (forall later :: (later != [] ==> reply.end.Failed? && Retriable(reply.end.error)) ==>
                  TryExplained(u, s, [Try(packet, reply)] + later, 0))
  {
    hide Wait, SeqNo, Wrap32, PacketOf, Sendable, Padding;
    SendSucceeds(u, s);
  }

  lemma BeforeRetryKeeps(u: Setup, s: State, requestId: i64, error: Error)
    ensures var next := BeforeRetry(u, s, requestId, error);
            next == s.(timeOffset := next.timeOffset, ticks := next.ticks) && next.ticks >= s.ticks
  {
  }

  /** Every try of every run is explained by the start state, the bytes received and the tries before. */
  lemma {:induction false} RunExplained(u: Setup, s: State, attempts: nat, lastErr: Option<Error>)
    requires u.ch.aes.Valid()
    ensures var r := RunFrom(u, s, attempts, lastErr);
            |r.tries| <= attempts && TriesExplained(u, s, r.tries)
    decreases attempts
  {
    hide Send, Hear, BeforeRetry, Wrap32, SeqNo, TryExplained, Retriable;
    if attempts > 0 && Send(u, s).Sent? {
      FirstTry(u, s);
      var Sent(packet, after) := Send(u, s);
      var reply := Hear(u, after, packet.message.msgId);
      var heard := after.(salt := reply.salt, inbound := reply.left);
      var t := Try(packet, reply);
      assert [t] + [] == [t];
      if reply.end.Failed? && Retriable(reply.end.error) {
        var next := BeforeRetry(u, heard, packet.message.msgId, reply.end.error);
        BeforeRetryKeeps(u, heard, packet.message.msgId, reply.end.error);
        RunExplained(u, next, attempts - 1, Some(reply.end.error));
        ExplainedLater(u, s, next, t, RunFrom(u, next, attempts - 1, Some(reply.end.error)).tries);
      }
    }
  }

  /**
   * How a run ends: with the result its last try heard, with the last error when that asks for
   * no retry or no attempt is left, and otherwise because the next packet could not be sent.
   */
  ghost predicate EndExplained(attempts: nat, lastErr: Option<Error>, r: Run) {
    var n := |r.tries|;
    if n == 0 then
      if attempts > 0 then r.answer == Rejected(NoRandomness) || r.answer == Rejected(WriteFailed)
      else r.answer == Rejected(if lastErr.Some? then lastErr.value else RetryLimit)
    else
      var last := r.tries[n - 1];
      match last.reply.end
      case Continue => false
      case Done(result) => r.answer == Answered(result, last.packet.message.msgId)
      case Failed(error) =>
        if Retriable(error) && n < attempts then r.answer == Rejected(NoRandomness) || r.answer == Rejected(WriteFailed)
        else r.answer == Rejected(error)
  }

  lemma SendErrors(u: Setup, s: State)
    requires Send(u, s).Unsent?
    ensures Send(u, s).error == NoRandomness || Send(u, s).error == WriteFailed
  {
    hide PacketOf, Frame, Framable, NextPacket, Drawn;
  }

  lemma {:induction false} RunEnds(u: Setup, s: State, attempts: nat, lastErr: Option<Error>)
    ensures EndExplained(attempts, lastErr, RunFrom(u, s, attempts, lastErr))
    decreases attempts
  {
    hide Send, Hear, BeforeRetry, Retriable;
    if attempts > 0 {
      if Send(u, s).Unsent? {
        SendErrors(u, s);
      } else {
        var Sent(packet, after) := Send(u, s);
        var reply := Hear(u, after, packet.message.msgId);
        if reply.end.Failed? && Retriable(reply.end.error) {
          var heard := after.(salt := reply.salt, inbound := reply.left);
          var next := BeforeRetry(u, heard, packet.message.msgId, reply.end.error);
          RunEnds(u, next, attempts - 1, Some(reply.end.error));
        }
      }
    }
  }

  /** What a reply says about the packet it answers. */
  lemma TryMeaning(u: Setup, s: State, tries: seq<Try>, i: nat)
    requires i < |tries| && TryExplained(u, s, tries, i)
    ensures var w := tries[i].reply;
            && (w.end.Done? ==> AnsweredBy(u.dec, w.received, tries[i].packet.message.msgId, w.end.result))
            && (w.end.Failed? ==> FromMessage(w.end.error) || Unreadable(w.end))
            && (w.end.Failed? && w.end.error.BadServerSalt? ==> w.salt == w.end.error.newSalt)
  {
    hide Wait, SeqNo, Sendable, AnsweredBy;
    var m := tries[i].packet.message;
    WaitMeaning(u.ch, u.dec, InboundAt(s, tries, i), m.msgId, m.salt);
  }

  /** With attempts to spend, a run never ends in the retry limit: some real error is always at hand. */
  lemma RetryLimitUnreachable(u: Setup, s: State, attempts: nat)
    requires attempts > 0 && u.ch.aes.Valid()
    ensures RunFrom(u, s, attempts, None).answer != Rejected(RetryLimit)
  {
    hide RunFrom, TryExplained, Retriable, AnsweredBy;
    var r := RunFrom(u, s, attempts, None);
    RunEnds(u, s, attempts, None);
    RunExplained(u, s, attempts, None);
    if r.tries != [] {
      TryMeaning(u, s, r.tries, |r.tries| - 1);
    }
  }

  /** An answer comes from an rpc_result, in the last message received, for the id of the last packet sent. */
  lemma AnswerIsForLastPacket(u: Setup, s: State, attempts: nat)
    requires u.ch.aes.Valid() && RunFrom(u, s, attempts, None).answer.Answered?
    ensures var r := RunFrom(u, s, attempts, None);
            && r.tries != []
            && r.answer.requestId == r.tries[|r.tries| - 1].packet.message.msgId
            && AnsweredBy(u.dec, r.tries[|r.tries| - 1].reply.received, r.answer.requestId, r.answer.result)
  {
    hide RunFrom, TryExplained, Retriable, AnsweredBy;
    var r := RunFrom(u, s, attempts, None);
    RunEnds(u, s, attempts, None);
    RunExplained(u, s, attempts, None);
    TryMeaning(u, s, r.tries, |r.tries| - 1);
  }

  /** A packet sent right after a bad_server_salt carries exactly the salt it announced. */
  lemma AnnouncedSaltIsUsed(u: Setup, s: State, attempts: nat, i: nat)
    requires u.ch.aes.Valid()
    requires i + 1 < |RunFrom(u, s, attempts, None).tries|
    requires var end := RunFrom(u, s, attempts, None).tries[i].reply.end; end.Failed? && end.error.BadServerSalt?
    ensures var tries := RunFrom(u, s, attempts, None).tries;
            tries[i + 1].packet.message.salt == tries[i].reply.end.error.newSalt
  {
    hide RunFrom, SeqNo, Sendable, Retriable, AnsweredBy, Wait;
    var tries := RunFrom(u, s, attempts, None).tries;
    RunExplained(u, s, attempts, None);
    TryMeaning(u, s, tries, i);
    assert TryExplained(u, s, tries, i + 1);
  }

  // Message ids.

  function IdsOf(tries: seq<Try>): (ids: seq<i64>)
    ensures |ids| == |tries|
    ensures forall i :: 0 <= i < |tries| ==> ids[i] == tries[i].packet.message.msgId
  {
    seq(|tries|, i requires 0 <= i < |tries| => tries[i].packet.message.msgId)
  }

  lemma IdsOfLater(first: Try, later: seq<Try>)
    ensures IdsOf([first] + later) == [first.packet.message.msgId] + IdsOf(later)
  {
    var tries := [first] + later;
    assert forall i :: 1 <= i < |tries| ==> tries[i] == later[i - 1];
  }

  /** Every id is divisible by four and larger than the one before it, unless that was the last id there is. */
  ghost predicate IdsFollow(last: i64, ids: seq<i64>)
    decreases |ids|
  {
    ids != [] ==>
      && ids[0] % 4 == 0 && (last < ids[0] <==> last != LAST_ID)
      && IdsFollow(ids[0], ids[1..])
  }

  ghost predicate Increasing(last: i64, ids: seq<i64>) {
    && (forall i :: 0 <= i < |ids| ==> last < ids[i])
    && (forall i, j :: 0 <= i < j < |ids| ==> ids[i] < ids[j])
  }

  lemma IdsFollowLater(last: i64, first: Try, later: seq<Try>)
    requires first.packet.message.msgId % 4 == 0 && (last < first.packet.message.msgId <==> last != LAST_ID)
    requires IdsFollow(first.packet.message.msgId, IdsOf(later))
    ensures IdsFollow(last, IdsOf([first] + later))
  {
    IdsOfLater(first, later);
    assert ([first.packet.message.msgId] + IdsOf(later))[1..] == IdsOf(later);
  }

  lemma SendDraws(u: Setup, s: State)
    requires Send(u, s).Sent? && s.lastMsgId % 4 == 0
    ensures var Sent(packet, after) := Send(u, s);
            && packet.message.msgId == after.lastMsgId && after.lastMsgId % 4 == 0
            && (s.lastMsgId < after.lastMsgId <==> s.lastMsgId != LAST_ID)
  {
    NextIdAligned(s.lastMsgId, Candidate(u.clock(s.ticks, s.timeOffset)));
    hide PacketOf, Frame, NextId, Candidate;
  }

  lemma UnsentDraws(u: Setup, s: State)
    requires Send(u, s).Unsent? && s.lastMsgId % 4 == 0
    ensures Send(u, s).after.lastMsgId % 4 == 0
  {
    NextIdAligned(s.lastMsgId, Candidate(u.clock(s.ticks, s.timeOffset)));
    hide PacketOf, Frame, NextId, Candidate;
  }

  /**
   * Whatever the clock and the offset do, every id of a run is divisible by four and larger than
   * the one before it exactly when that was not the last id there is. The session's counter stays
   * divisible by four.
   */
  lemma {:induction false} RunIds(u: Setup, s: State, attempts: nat, lastErr: Option<Error>)
    requires s.lastMsgId % 4 == 0
    ensures var r := RunFrom(u, s, attempts, lastErr);
            IdsFollow(s.lastMsgId, IdsOf(r.tries)) && r.after.lastMsgId % 4 == 0
    decreases attempts
  {
    hide Send, Hear, BeforeRetry, Retriable;
    if attempts > 0 {
      if Send(u, s).Unsent? {
        UnsentDraws(u, s);
      } else {
        SendDraws(u, s);
        var Sent(packet, after) := Send(u, s);
        var reply := Hear(u, after, packet.message.msgId);
        var t := Try(packet, reply);
        IdsFollowLater(s.lastMsgId, t, []);
        assert [t] + [] == [t];
        if reply.end.Failed? && Retriable(reply.end.error) {
          var heard := after.(salt := reply.salt, inbound := reply.left);
          var next := BeforeRetry(u, heard, packet.message.msgId, reply.end.error);
          BeforeRetryKeeps(u, heard, packet.message.msgId, reply.end.error);
          RunIds(u, next, attempts - 1, Some(reply.end.error));
          IdsFollowLater(s.lastMsgId, t, RunFrom(u, next, attempts - 1, Some(reply.end.error)).tries);
        }
      }
    }
  }

  /** Ids that follow each other increase strictly exactly when none is drawn after the last id there is. */
  lemma {:induction false} FollowingIncrease(last: i64, ids: seq<i64>)
    requires IdsFollow(last, ids)
    ensures Increasing(last, ids) <==> LAST_ID !in ([last] + ids)[..|ids|]
    decreases |ids|
  {
    if ids != [] {
      var later, drawn := ids[1..], ([last] + ids)[..|ids|];
      FollowingIncrease(ids[0], later);
      var next := ([ids[0]] + later)[..|later|];
      assert drawn == [last] + next;
      assert forall i :: 1 <= i < |ids| ==> ids[i] == later[i - 1];
      if LAST_ID !in drawn {
        assert Increasing(ids[0], later);
      }
      if Increasing(last, ids) {
        assert forall i :: 0 <= i < |later| ==> later[i] == ids[i + 1];
        assert Increasing(ids[0], later);
      }
    }
  }

  /** The ids of a run increase strictly exactly when none of them is drawn after the last id there is. */
  lemma RunIdsIncrease(u: Setup, s: State, attempts: nat, lastErr: Option<Error>)
    requires s.lastMsgId % 4 == 0
    ensures var ids := IdsOf(RunFrom(u, s, attempts, lastErr).tries);
            Increasing(s.lastMsgId, ids) <==> LAST_ID !in ([s.lastMsgId] + ids)[..|ids|]
  {
    hide RunFrom, Increasing, IdsFollow;
    RunIds(u, s, attempts, lastErr);
    FollowingIncrease(s.lastMsgId, IdsOf(RunFrom(u, s, attempts, lastErr).tries));
  }

  // The wire.

  function PacketsSent(tries: seq<Try>): (sent: seq<Sealed>)
    ensures |sent| == |tries|
    ensures forall i :: 0 <= i < |tries| ==> sent[i] == tries[i].packet
  {
    seq(|tries|, i requires 0 <= i < |tries| => tries[i].packet)
  }

  /** The bytes of some tries on the wire. */
  function Wire(ch: Channel, tries: seq<Try>): seq<byte> {
    Frames(Packets(ch, FROM_CLIENT, PacketsSent(tries)))
  }

  lemma WireLater(ch: Channel, first: Try, later: seq<Try>)
    ensures Wire(ch, []) == []
    ensures Wire(ch, [first] + later) == Frame(PacketOf(ch, FROM_CLIENT, first.packet)) + Wire(ch, later)
  {
    hide Frame, PacketOf;
    var tries := [first] + later;
    assert Packets(ch, FROM_CLIENT, PacketsSent(tries))[1..] == Packets(ch, FROM_CLIENT, PacketsSent(later));
  }

  lemma SendWrites(u: Setup, s: State)
    ensures match Send(u, s)
            case Sent(packet, after) => after.written == s.written + Frame(PacketOf(u.ch, FROM_CLIENT, packet))
            case Unsent(error, after) =>
              s.written <= after.written && (error == NoRandomness ==> after.written == s.written)
    ensures Send(u, s).after.salt == s.salt && Send(u, s).after.inbound == s.inbound
  {
    hide PacketOf, Frame, NextId, Candidate, Wrap32;
  }

  /** A run writes exactly its packets, and part of one more frame only when a write fails. */
  lemma {:induction false} RunWrites(u: Setup, s: State, attempts: nat, lastErr: Option<Error>)
    requires lastErr != Some(WriteFailed)
    ensures var r := RunFrom(u, s, attempts, lastErr);
            && s.written + Wire(u.ch, r.tries) <= r.after.written
            && (r.answer != Rejected(WriteFailed) ==> r.after.written == s.written + Wire(u.ch, r.tries))
            && r.after.salt == SaltAt(s, r.tries, |r.tries|) && r.after.inbound == InboundAt(s, r.tries, |r.tries|)
    decreases attempts
  {
    hide Send, Hear, BeforeRetry, Wire, Frame, PacketOf;
    var none := Try(Sealed(EncryptedMessage(0, 0, 0, 0, []), []), Waited(Continue, 0, [], []));
    WireLater(u.ch, none, []);
    SendWrites(u, s);
    if attempts > 0 {
      if Send(u, s).Unsent? {
        SendErrors(u, s);
      } else {
        var Sent(packet, after) := Send(u, s);
        var reply := Hear(u, after, packet.message.msgId);
        var t := Try(packet, reply);
        WireLater(u.ch, t, []);
        assert [t] + [] == [t];
        if reply.end.Failed? && Retriable(reply.end.error) {
          var heard := after.(salt := reply.salt, inbound := reply.left);
          var next := BeforeRetry(u, heard, packet.message.msgId, reply.end.error);
          BeforeRetryKeeps(u, heard, packet.message.msgId, reply.end.error);
          RunWrites(u, next, attempts - 1, Some(reply.end.error));
          WireLater(u.ch, t, RunFrom(u, next, attempts - 1, Some(reply.end.error)).tries);
        }
      }
    }
  }

  /** A server reading the wire bytes of a run recovers exactly the messages of its tries, in order. */
  lemma ServerReadsRun(u: Setup, s: State, attempts: nat)
    requires u.ch.aes.Valid()
    ensures var tries := RunFrom(u, s, attempts, None).tries;
            var read := ReadFrames(Wire(u.ch, tries));
            && read.Ok? && read.rest == [] && |read.value| == |tries|
            && forall i :: 0 <= i < |tries| ==>
                 ParsePacket(u.ch, FROM_CLIENT, read.value[i]) == Some(tries[i].packet.message)
  {
    hide RunFrom, Sendable, SeqNo, ParsePacket, Frames, ReadFrames, Packets, Wait;
    var tries := RunFrom(u, s, attempts, None).tries;
    RunExplained(u, s, attempts, None);
    forall i | 0 <= i < |tries|
      ensures Sendable(u.ch, FROM_CLIENT, PacketsSent(tries)[i])
    {
      assert TryExplained(u, s, tries, i);
    }
    EndToEnd(u.ch, FROM_CLIENT, PacketsSent(tries));
  }

  // A server that rejects some packets for their salt and then answers.

  /** The id of the k-th packet from now on, while the clock is not corrected. */
  function IdAfter(u: Setup, s: State, k: nat): i64 {
    if k == 0 then s.lastMsgId
    else NextId(IdAfter(u, s, k - 1), Candidate(u.clock(s.ticks + k - 1, s.timeOffset)))
  }

  lemma {:induction false} IdAfterOne(u: Setup, s: State, next: State, k: nat)
    requires next.ticks == s.ticks + 1 && next.timeOffset == s.timeOffset && next.lastMsgId == IdAfter(u, s, 1)
    ensures IdAfter(u, next, k) == IdAfter(u, s, k + 1)
  {
    hide NextId, Candidate;
    if k > 0 {
      IdAfterOne(u, s, next, k - 1);
    }
  }

  /** Randomness for the padding of k packets, and room for their frames. */
  ghost predicate Supplied(u: Setup, s: State, k: nat) {
    var n := 56 + |u.body| + Padding(u);
    n / 4 <= MAX_WORDS && |s.random| >= k * Padding(u) && s.room >= k * FrameLength(n)
  }

  /** A reply that rejects the packet for its salt. */
  ghost predicate RejectsSalt(ch: Channel, reply: Sealed, notice: Error) {
    notice.BadServerSalt? && reply.message.body == BadSaltCode(notice) && Sendable(ch, FROM_SERVER, reply)
  }

  /** The salt in force after some notices: the last one announced. */
  function FinalSalt(salt: i64, notices: seq<Error>): i64 {
    if notices == [] then salt
    else
      var last := notices[|notices| - 1];
      if last.BadServerSalt? then last.newSalt else salt
  }

  lemma OneOf(k: nat, x: nat)
    requires k > 0
    ensures k * x == (k - 1) * x + x && (k - 1) * x >= 0
  {
  }

  lemma SuppliedOne(u: Setup, s: State, k: nat)
    requires u.ch.aes.Valid() && k > 0 && Supplied(u, s, k)
    ensures Send(u, s).Sent? && Supplied(u, Send(u, s).after, k - 1)
  {
    hide Send, Padding, FrameLength;
    OneOf(k, Padding(u));
    OneOf(k, FrameLength(56 + |u.body| + Padding(u)));
    SendSucceeds(u, s);
    SendTakes(u, s);
  }

  lemma SendChanges(u: Setup, s: State)
    requires Send(u, s).Sent?
    ensures var Sent(packet, after) := Send(u, s);
            && packet.message.msgId == after.lastMsgId == IdAfter(u, s, 1)
            && after.ticks == s.ticks + 1 && after.timeOffset == s.timeOffset
            && after.salt == s.salt && after.inbound == s.inbound
  {
    hide Padding, PacketOf, Frame, Candidate, NextId, SeqNo, Wrap32;
    assert IdAfter(u, s, 0) == s.lastMsgId;
  }

  lemma SendTakes(u: Setup, s: State)
    requires u.ch.aes.Valid() && Send(u, s).Sent?
    ensures |Send(u, s).after.random| == |s.random| - Padding(u)
    ensures Send(u, s).after.room == s.room - FrameLength(56 + |u.body| + Padding(u))
  {
    hide Padding, PacketOf, Candidate, NextId, SeqNo, Wrap32;
    NextPacketLength(u, s);
  }

  /** Hearing one message that settles the request. */
  lemma WaitHearsOne(ch: Channel, dec: Decoders, reply: Sealed, rest: seq<byte>, requestId: i64, salt: i64)
    requires ch.aes.Valid() && Sendable(ch, FROM_SERVER, reply)
    requires Scan(dec, Flatten(reply.message.msgId, reply.message.body), requestId, salt).0 != Continue
    ensures var (outcome, salt') := Scan(dec, Flatten(reply.message.msgId, reply.message.body), requestId, salt);
            Wait(ch, dec, Frame(PacketOf(ch, FROM_SERVER, reply)) + rest, requestId, salt)
            == Waited(outcome, salt', [reply.message], rest)
  {
    hide ReadFrame, Frame, ParsePacket, PacketOf, Scan, Flatten, Sendable;
    SendableReads(ch, FROM_SERVER, reply, rest);
  }

  lemma FramesFront(ch: Channel, first: Sealed, later: seq<Sealed>, tail: seq<byte>)
    ensures Frames(Packets(ch, FROM_SERVER, [first] + later)) + tail
            == Frame(PacketOf(ch, FROM_SERVER, first)) + (Frames(Packets(ch, FROM_SERVER, later)) + tail)
    ensures Frames(Packets(ch, FROM_SERVER, [first])) + tail == Frame(PacketOf(ch, FROM_SERVER, first)) + tail
  {
    hide Frame, PacketOf;
    var all := [first] + later;
    assert Packets(ch, FROM_SERVER, all)[1..] == Packets(ch, FROM_SERVER, later);
    assert Packets(ch, FROM_SERVER, [first])[1..] == [];
  }

  /**
   * When the server rejects the first packets for their salt and then answers the next, a run with
   * enough attempts, randomness and room ends with that answer: one packet per reply, the last
   * announced salt in force, and what follows the answer unread.
   */
  lemma {:induction false} SaltRetriesAnswered(u: Setup, s: State, attempts: nat, lastErr: Option<Error>,
                                               notices: seq<Error>, replies: seq<Sealed>, answer: Sealed,
                                               body: seq<byte>, result: InvokeResult, tail: seq<byte>)
    requires u.ch.aes.Valid() && |replies| == |notices| < attempts && Supplied(u, s, |replies| + 1)
    requires forall i :: 0 <= i < |replies| ==> RejectsSalt(u.ch, replies[i], notices[i])
    requires Sendable(u.ch, FROM_SERVER, answer)
    requires answer.message.body == ResultCode(IdAfter(u, s, |replies| + 1), body)
    requires RpcOutcome(u.dec, answer.message.msgId, body) == Done(result)
    requires s.inbound == Frames(Packets(u.ch, FROM_SERVER, replies + [answer])) + tail
    ensures var r := RunFrom(u, s, attempts, lastErr);
            && r.answer == Answered(result, IdAfter(u, s, |replies| + 1))
            && |r.tries| == |replies| + 1 && r.after.inbound == tail
            && r.after.salt == FinalSalt(s.salt, notices)
    decreases |replies|
  {
    hide Send, Wait, IdAfter, Supplied, Frames, Packets, Frame, PacketOf, Sendable, Scan, Flatten, BadSaltCode,
         ResultCode,
         RpcOutcome;
    SuppliedOne(u, s, |replies| + 1);
    SendChanges(u, s);
    var Sent(packet, after) := Send(u, s);
    var id := packet.message.msgId;
    if replies == [] {
      assert replies + [answer] == [answer];
      FramesFront(u.ch, answer, [], tail);
      ScanResult(u.dec, answer.message.msgId, id, body, s.salt);
      WaitHearsOne(u.ch, u.dec, answer, tail, id, s.salt);
    } else {
      var first, notice, later := replies[0], notices[0], replies[1..] + [answer];
      var rest := Frames(Packets(u.ch, FROM_SERVER, later)) + tail;
      assert RejectsSalt(u.ch, first, notice);
      assert replies + [answer] == [first] + later;
      FramesFront(u.ch, first, later, tail);
      ScanBadSalt(u.dec, first.message.msgId, notice, id, s.salt);
      WaitHearsOne(u.ch, u.dec, first, rest, id, s.salt);
      var next := after.(salt := notice.newSalt, inbound := rest);
      IdAfterOne(u, s, next, |replies|);
      StillSupplied(u, after, next, |replies|);
      SaltRetriesAnswered(u, next, attempts - 1, Some(notice), notices[1..], replies[1..], answer, body, result, tail);
    }
  }

  lemma StillSupplied(u: Setup, s: State, next: State, k: nat)
    requires Supplied(u, s, k) && next.random == s.random && next.room == s.room
    ensures Supplied(u, next, k)
  {
  }

  // A server that rejects some packets with either kind of notice and then answers.

  /** The codes of bad_msg_notification that ask for another attempt. */
  const RETRY_CODES: set<i32> := {16, 17, 32, 33, 48}

  /** A notice that asks for another attempt. */
  ghost predicate AsksAgain(notice: Error) {
    notice.BadServerSalt? || (notice.BadMessage? && notice.errorCode in RETRY_CODES)
  }

  function NoticeCode(notice: Error): seq<byte>
    requires notice.BadServerSalt? || notice.BadMessage?
  {
    if notice.BadServerSalt? then BadSaltCode(notice) else NotificationCode(notice)
  }

  /** A reply that carries the notice. */
  ghost predicate Notifies(ch: Channel, reply: Sealed, notice: Error) {
    && (notice.BadServerSalt? || notice.BadMessage?)
    && reply.message.body == NoticeCode(notice) && Sendable(ch, FROM_SERVER, reply)
  }

  function NextRequestId(u: Setup, s: State): i64 {
    NextId(s.lastMsgId, Candidate(u.clock(s.ticks, s.timeOffset)))
  }

  /**
   * The session after one packet and a notice: one tick of the clock for the id; then the announced
   * salt, or, for the codes of an id too low or too high, one more tick and the clock set to the
   * seconds of the id, if it has any.
   */
  function AfterNotice(u: Setup, s: State, notice: Error): State {
    var id := NextRequestId(u, s);
    var seconds, tick := U64(id) / 0x1_0000_0000, s.(lastMsgId := id, ticks := s.ticks + 1);
    if notice.BadServerSalt? then tick.(salt := notice.newSalt)
    else if notice.BadMessage? && (notice.errorCode == 16 || notice.errorCode == 17) && seconds != 0 then
      tick.(ticks := s.ticks + 2, timeOffset := Wrap64(seconds - u.clock(s.ticks + 1, 0) / 1_000_000_000))
    else tick
  }

  function AfterNotices(u: Setup, s: State, notices: seq<Error>): State
    decreases |notices|
  {
    if notices == [] then s else AfterNotices(u, AfterNotice(u, s, notices[0]), notices[1..])
  }

  lemma {:induction false} SameAfterNotices(u: Setup, s: State, t: State, notices: seq<Error>)
    requires SameSession(s, t)
    ensures SameSession(AfterNotices(u, s, notices), AfterNotices(u, t, notices))
    decreases |notices|
  {
    hide NextId, Candidate, U64, Wrap64;
    if notices != [] {
      SameAfterNotices(u, AfterNotice(u, s, notices[0]), AfterNotice(u, t, notices[0]), notices[1..]);
    }
  }

  /** What the loop makes of a notice is what the notice says. */
  lemma RetryFollowsNotice(u: Setup, s: State, heard: State, notice: Error)
    requires notice.BadServerSalt? || notice.BadMessage?
    requires SameSession(heard, Drawn(u, s).(salt := if notice.BadServerSalt? then notice.newSalt else s.salt))
    ensures SameSession(BeforeRetry(u, heard, heard.lastMsgId, notice), AfterNotice(u, s, notice))
  {
    hide NextId, Candidate, Wrap64, SeqNo;
  }

  lemma HearsNotice(u: Setup, s: State, reply: Sealed, notice: Error, requestId: i64, rest: seq<byte>)
    requires u.ch.aes.Valid() && Notifies(u.ch, reply, notice)
    requires s.inbound == Frame(PacketOf(u.ch, FROM_SERVER, reply)) + rest
    ensures Hear(u, s, requestId)
            == Waited(Failed(notice), if notice.BadServerSalt? then notice.newSalt else s.salt, [reply.message], rest)
  {
    hide Wait, Scan, Flatten, Frame, PacketOf, Sendable, BadSaltCode, NotificationCode;
    var body, msgId := reply.message.body, reply.message.msgId;
    if notice.BadServerSalt? {
      ScanBadSalt(u.dec, msgId, notice, requestId, s.salt);
    } else {
      ScanNotification(u.dec, msgId, notice, [], requestId, s.salt);
      assert body + [] == body;
    }
    WaitHearsOne(u.ch, u.dec, reply, rest, requestId, s.salt);
  }

  lemma HearsResult(u: Setup, s: State, reply: Sealed, body: seq<byte>, requestId: i64, rest: seq<byte>)
    requires u.ch.aes.Valid() && Sendable(u.ch, FROM_SERVER, reply)
    requires reply.message.body == ResultCode(requestId, body)
    requires RpcOutcome(u.dec, reply.message.msgId, body) != Continue
    requires s.inbound == Frame(PacketOf(u.ch, FROM_SERVER, reply)) + rest
    ensures Hear(u, s, requestId)
            == Waited(RpcOutcome(u.dec, reply.message.msgId, body), s.salt, [reply.message], rest)
  {
    hide Wait, Scan, Flatten, Frame, PacketOf, Sendable, ResultCode, RpcOutcome;
    ScanResult(u.dec, reply.message.msgId, requestId, body, s.salt);
    WaitHearsOne(u.ch, u.dec, reply, rest, requestId, s.salt);
  }

  /**
   * When the server rejects the first packets with bad_server_salt or a retriable
   * bad_msg_notification, in any mix, and answers the next, a run with enough attempts, randomness
   * and room ends with that answer: one packet per reply, and ids, salt and clock as the notices say.
   */
  lemma {:induction false} NoticesAnswered(u: Setup, s: State, attempts: nat, lastErr: Option<Error>,
                                           notices: seq<Error>, replies: seq<Sealed>, answer: Sealed,
                                           body: seq<byte>, result: InvokeResult, tail: seq<byte>)
    requires u.ch.aes.Valid() && |replies| == |notices| < attempts && Supplied(u, s, |replies| + 1)
    requires forall i :: 0 <= i < |replies| ==> AsksAgain(notices[i]) && Notifies(u.ch, replies[i], notices[i])
    requires Sendable(u.ch, FROM_SERVER, answer)
    requires answer.message.body == ResultCode(NextRequestId(u, AfterNotices(u, s, notices)), body)
    requires RpcOutcome(u.dec, answer.message.msgId, body) == Done(result)
    requires s.inbound == Frames(Packets(u.ch, FROM_SERVER, replies + [answer])) + tail
    ensures var r := RunFrom(u, s, attempts, lastErr);
            var last := AfterNotices(u, s, notices);
            && r.answer == Answered(result, NextRequestId(u, last))
            && |r.tries| == |replies| + 1 && r.after.inbound == tail
            && r.after.salt == last.salt && r.after.timeOffset == last.timeOffset && r.after.ticks == last.ticks + 1
    decreases |replies|
  {
    hide Send, Hear, Drawn, BeforeRetry, Supplied, Frames, Packets, Frame, PacketOf, Sendable, NoticeCode, ResultCode,
         RpcOutcome, NextId, Candidate, AfterNotice, RETRY_CODES;
    SuppliedOne(u, s, |replies| + 1);
    SendKeepsSession(u, s);
    DrawnSession(u, s);
    var Sent(packet, after) := Send(u, s);
    var id := packet.message.msgId;
    if replies == [] {
      assert replies + [answer] == [answer];
      FramesFront(u.ch, answer, [], tail);
      HearsResult(u, after, answer, body, id, tail);
    } else {
      var first, notice, later := replies[0], notices[0], replies[1..] + [answer];
      var rest := Frames(Packets(u.ch, FROM_SERVER, later)) + tail;
      assert AsksAgain(notice) && Notifies(u.ch, first, notice);
      assert replies + [answer] == [first] + later;
      FramesFront(u.ch, first, later, tail);
      HearsNotice(u, after, first, notice, id, rest);
      var heard := after.(salt := if notice.BadServerSalt? then notice.newSalt else after.salt, inbound := rest);
      RetryFollowsNotice(u, s, heard, notice);
      var next := BeforeRetry(u, heard, id, notice);
      AsksAgainExactly(notice);
      BeforeRetryKeeps(u, heard, id, notice);
      StillSupplied(u, after, next, |replies|);
      SameAfterNotices(u, next, AfterNotice(u, s, notice), notices[1..]);
      NoticesAnswered(u, next, attempts - 1, Some(notice), notices[1..], replies[1..], answer, body, result, tail);
    }
  }

  lemma DrawnSession(u: Setup, s: State)
    ensures var d := Drawn(u, s);
            d.lastMsgId == NextRequestId(u, s) && d.salt == s.salt && d.timeOffset == s.timeOffset
            && d.ticks == s.ticks + 1
  {
    hide NextId, Candidate;
  }

  lemma AsksAgainExactly(error: Error)
    ensures AsksAgain(error) <==> Retriable(error)
  {
  }

  /** Any other notification ends the request after the packet it rejects. */
  lemma NotificationEnds(u: Setup, s: State, attempts: nat, lastErr: Option<Error>, notice: Error, reply: Sealed,
                         tail: seq<byte>)
    requires u.ch.aes.Valid() && attempts > 0 && Supplied(u, s, 1)
    requires notice.BadMessage? && notice.errorCode !in RETRY_CODES && Notifies(u.ch, reply, notice)
    requires s.inbound == Frame(PacketOf(u.ch, FROM_SERVER, reply)) + tail
    ensures var r := RunFrom(u, s, attempts, lastErr);
            && r.answer == Rejected(notice) && |r.tries| == 1 && r.after.inbound == tail
            && r.after.salt == s.salt && r.after.timeOffset == s.timeOffset
  {
    hide Send, Hear, Drawn, BeforeRetry, Supplied, Frame, PacketOf, Sendable, NoticeCode;
    SuppliedOne(u, s, 1);
    SendKeepsSession(u, s);
    DrawnSession(u, s);
    var Sent(packet, after) := Send(u, s);
    HearsNotice(u, after, reply, notice, packet.message.msgId, tail);
    AsksAgainExactly(notice);
  }

  // A server that rejects some packets for any retriable reason and then answers.

  /** What some server messages, with everything nested in them, do to a request. */
  function HeardOf(u: Setup, sent: seq<Sealed>, requestId: i64, salt: i64): (Outcome, i64) {
    Scan(u.dec, Items(MessagesOf(sent)), requestId, salt)
  }

  /** Messages of which exactly the last one settles the request. */
  ghost predicate Settles(u: Setup, sent: seq<Sealed>, requestId: i64, salt: i64) {
    && sent != [] && (forall i :: 0 <= i < |sent| ==> Sendable(u.ch, FROM_SERVER, sent[i]))
    && HeardOf(u, sent[..|sent| - 1], requestId, salt).0 == Continue
    && HeardOf(u, sent, requestId, salt).0 != Continue
  }

  /**
   * The server's messages for each packet in turn settle it: all but the last packet with an error
   * that asks for a retry, and the last one with the result. The ids and salts are those the
   * client uses, its clock corrected where an error asks for that.
   */
  ghost predicate Scripted(u: Setup, s: State, rounds: seq<seq<Sealed>>, answer: seq<Sealed>, result: InvokeResult)
    decreases |rounds|
  {
    var drawn := Drawn(u, s);
    var requestId := drawn.lastMsgId;
    if rounds == [] then
      Settles(u, answer, requestId, s.salt) && HeardOf(u, answer, requestId, s.salt).0 == Done(result)
    else
      var (end, salt') := HeardOf(u, rounds[0], requestId, s.salt);
      && Settles(u, rounds[0], requestId, s.salt) && end.Failed? && Retriable(end.error)
      && Scripted(u, BeforeRetry(u, drawn.(salt := salt'), requestId, end.error), rounds[1..], answer, result)
  }

  /** Everything the server says, in order. */
  function Said(rounds: seq<seq<Sealed>>, answer: seq<Sealed>): seq<Sealed> {
    if rounds == [] then answer else rounds[0] + Said(rounds[1..], answer)
  }

  /** The fields of a state that decide about ids and salts. */
  predicate SameSession(s: State, t: State) {
    s.salt == t.salt && s.timeOffset == t.timeOffset && s.lastMsgId == t.lastMsgId && s.ticks == t.ticks
  }

  lemma SameDrawn(u: Setup, s: State, t: State)
    requires SameSession(s, t)
    ensures SameSession(Drawn(u, s), Drawn(u, t))
  {
    hide NextId, Candidate;
  }

  lemma SameRetry(u: Setup, s: State, t: State, requestId: i64, error: Error)
    requires SameSession(s, t)
    ensures SameSession(BeforeRetry(u, s, requestId, error), BeforeRetry(u, t, requestId, error))
  {
    hide U64, Wrap64;
  }

  lemma {:induction false} SameScript(u: Setup, s: State, t: State, rounds: seq<seq<Sealed>>, answer: seq<Sealed>,
                                      result: InvokeResult)
    requires SameSession(s, t) && Scripted(u, s, rounds, answer, result)
    ensures Scripted(u, t, rounds, answer, result)
    decreases |rounds|
  {
    hide Drawn, BeforeRetry, HeardOf, Settles, Retriable;
    SameDrawn(u, s, t);
    if rounds != [] {
      var d, e := Drawn(u, s), Drawn(u, t);
      var (end, salt') := HeardOf(u, rounds[0], d.lastMsgId, s.salt);
      SameRetry(u, d.(salt := salt'), e.(salt := salt'), d.lastMsgId, end.error);
      SameScript(u, BeforeRetry(u, d.(salt := salt'), d.lastMsgId, end.error),
                 BeforeRetry(u, e.(salt := salt'), d.lastMsgId, end.error), rounds[1..], answer, result);
    }
  }

  lemma {:induction false} FramesSplit(ch: Channel, a: seq<Sealed>, b: seq<Sealed>, tail: seq<byte>)
    ensures Frames(Packets(ch, FROM_SERVER, a + b)) + tail
            == Frames(Packets(ch, FROM_SERVER, a)) + (Frames(Packets(ch, FROM_SERVER, b)) + tail)
    decreases |a|
  {
    hide Frame, PacketOf;
    if a == [] {
      assert a + b == b;
      assert Packets(ch, FROM_SERVER, a) == [];
    } else {
      var later := a[1..];
      assert a + b == [a[0]] + (later + b) && a == [a[0]] + later;
      FramesFront(ch, a[0], later + b, tail);
      FramesFront(ch, a[0], later, []);
      FramesSplit(ch, later, b, tail);
      var all, rest := Frames(Packets(ch, FROM_SERVER, a)), Frames(Packets(ch, FROM_SERVER, later));
      assert all + [] == all && rest + [] == rest;
    }
  }

  /** What sending leaves of the fields that decide about ids and salts. */
  lemma SendKeepsSession(u: Setup, s: State)
    requires Send(u, s).Sent?
    ensures var Sent(packet, after) := Send(u, s);
            && SameSession(after, Drawn(u, s)) && packet.message.msgId == Drawn(u, s).lastMsgId
            && after.inbound == s.inbound
  {
    hide Padding, PacketOf, Frame, Candidate, NextId, SeqNo, Wrap32;
  }

  lemma HearsRound(u: Setup, s: State, sent: seq<Sealed>, requestId: i64, rest: seq<byte>)
    requires u.ch.aes.Valid() && Settles(u, sent, requestId, s.salt)
    requires s.inbound == Frames(Packets(u.ch, FROM_SERVER, sent)) + rest
    ensures var (end, salt') := HeardOf(u, sent, requestId, s.salt);
            Hear(u, s, requestId) == Waited(end, salt', MessagesOf(sent), rest)
  {
    hide Wait, Scan, Items, Sendable, Frames, Packets;
    WaitHearsServer(u.ch, u.dec, sent, rest, requestId, s.salt);
  }

  /**
   * Whatever else the server says, when it rejects the first packets for reasons that ask for a
   * retry and answers the next, a run with enough attempts, randomness and room ends with that
   * answer: one packet per round, each round heard exactly, and what follows the answer unread.
   */
  lemma {:induction false} RetriesAnswered(u: Setup, s: State, attempts: nat, lastErr: Option<Error>,
                                           rounds: seq<seq<Sealed>>, answer: seq<Sealed>, result: InvokeResult,
                                           tail: seq<byte>)
    requires u.ch.aes.Valid() && |rounds| < attempts && Supplied(u, s, |rounds| + 1)
    requires Scripted(u, s, rounds, answer, result)
    requires s.inbound == Frames(Packets(u.ch, FROM_SERVER, Said(rounds, answer))) + tail
    ensures var r := RunFrom(u, s, attempts, lastErr);
            && r.answer.Answered? && r.answer.result == result
            && |r.tries| == |rounds| + 1 && r.after.inbound == tail
            && (forall i :: 0 <= i < |rounds| ==> r.tries[i].reply.received == MessagesOf(rounds[i]))
            && r.tries[|rounds|].reply.received == MessagesOf(answer)
    decreases |rounds|
  {
    hide Send, Hear, Drawn, BeforeRetry, Supplied, Frames, Packets, HeardOf, Settles, Retriable;
    SuppliedOne(u, s, |rounds| + 1);
    SendKeepsSession(u, s);
    var Sent(packet, after) := Send(u, s);
    var id := packet.message.msgId;
    SameSalt(u, s);
    if rounds == [] {
      HearsRound(u, after, answer, id, tail);
    } else {
      var rest := Frames(Packets(u.ch, FROM_SERVER, Said(rounds[1..], answer))) + tail;
      FramesSplit(u.ch, rounds[0], Said(rounds[1..], answer), tail);
      HearsRound(u, after, rounds[0], id, rest);
      var (end, salt') := HeardOf(u, rounds[0], id, s.salt);
      var heard := after.(salt := salt', inbound := rest);
      var next := BeforeRetry(u, heard, id, end.error);
      SameRetry(u, Drawn(u, s).(salt := salt'), heard, id, end.error);
      SameScript(u, BeforeRetry(u, Drawn(u, s).(salt := salt'), id, end.error), next, rounds[1..], answer, result);
      BeforeRetryKeeps(u, heard, id, end.error);
      StillSupplied(u, after, next, |rounds|);
      RetriesAnswered(u, next, attempts - 1, Some(end.error), rounds[1..], answer, result, tail);
    }
  }

  lemma SameSalt(u: Setup, s: State)
    ensures Drawn(u, s).salt == s.salt
  {
  }
}
