/** The parsing methods of mtproto/difference.go, advancing one shared reader. */
module DifferenceParser {
  import opened Bytes
  import opened Difference
  import opened TL
  import opened Wrappers

  method ParsePeer(r: TlReader) returns (peer: Option<Peer>)
    requires r.Valid()
    modifies r
    ensures r.Valid() && old(r.off) <= r.off
    ensures Agrees(peer, r.Rest(), ReadPeer(old(r.Rest())))
  {
    hide ReadInt, ReadLong, PeerKind, Wrap64;
    var constructorId := r.Int();
    if constructorId == None {
      return None;
    }
    var id := r.Long();
    if id == None {
      return None;
    }
    var kind := PeerKind(constructorId.value);
    if kind == None {
      return None;
    }
    peer := Some(Peer(Wrap64(id.value), kind.value));
  }

  // Reading a field when its flag is set.

  method ParseIntIf(r: TlReader, present: bool) returns (v: Option<u32>)
    requires r.Valid()
    modifies r
    ensures r.Valid() && old(r.off) <= r.off
    ensures Agrees(v, r.Rest(), IntIf(present, old(r.Rest())))
  {
    if present {
      v := r.Int();
    } else {
      v := Some(0);
    }
  }

  method ParseLongIf(r: TlReader, present: bool) returns (v: Option<u64>)
    requires r.Valid()
    modifies r
    ensures r.Valid() && old(r.off) <= r.off
    ensures Agrees(v, r.Rest(), LongIf(present, old(r.Rest())))
  {
    if present {
      v := r.Long();
    } else {
      v := Some(0);
    }
  }

  method ParseBytesIf(r: TlReader, present: bool) returns (v: Option<seq<byte>>)
    requires r.Valid()
    modifies r
    ensures r.Valid() && old(r.off) <= r.off
    ensures Agrees(v, r.Rest(), BytesIf(present, old(r.Rest())))
  {
    if present {
      v := r.ByteString();
    } else {
      v := Some([]);
    }
  }

  method ParsePeerIf(r: TlReader, present: bool) returns (v: Option<Peer>)
    requires r.Valid()
    modifies r
    ensures r.Valid() && old(r.off) <= r.off
    ensures Agrees(v, r.Rest(), PeerIf(present, old(r.Rest())))
  {
    if present {
      v := ParsePeer(r);
    } else {
      v := Some(Peer(0, ""));
    }
  }

  method ParseVectorHeader(r: TlReader) returns (count: Option<u32>)
    requires r.Valid()
    modifies r
    ensures r.Valid() && old(r.off) <= r.off
    ensures Agrees(count, r.Rest(), ReadVectorHeader(old(r.Rest())))
  {
    hide ReadInt;
    var constructorId := r.Int();
    if constructorId == None || constructorId.value != VECTOR {
      return None;
    }
    count := r.Int();
  }

  /** skipRawVector and skipEncryptedMessageVector: only an empty vector can be skipped. */
  method SkipEmptyVector(r: TlReader) returns (done: Option<()>)
    requires r.Valid()
    modifies r
    ensures r.Valid() && old(r.off) <= r.off
    ensures Agrees(done, r.Rest(), ReadEmptyVector(old(r.Rest())))
  {
    hide ReadVectorHeader;
    var count := ParseVectorHeader(r);
    if count == None || count.value != 0 {
      return None;
    }
    done := Some(());
  }

  method SkipEntity(r: TlReader) returns (done: Option<()>)
    requires r.Valid()
    modifies r
    ensures r.Valid() && old(r.off) <= r.off
    ensures Agrees(done, r.Rest(), ReadEntity(old(r.Rest())))
  {
    hide ReadInt, ShapeOf, IntIf, BytesIf, LongIf;
    var constructorId := r.Int();
    if constructorId == None { return None; }
    var shape := ShapeOf(constructorId.value);
    if shape == None { return None; }
    var first := r.Int();
    if first == None { return None; }
    var second := r.Int();
    if second == None { return None; }
    var third := ParseIntIf(r, shape == Some(ThreeInts));
    if third == None { return None; }
    var text := ParseBytesIf(r, shape == Some(TwoIntsAndText));
    if text == None { return None; }
    var id := ParseLongIf(r, shape == Some(TwoIntsAndLong));
    if id == None { return None; }
    done := Some(());
  }

  /** The rounds of a vector loop: the elements tried behind the header, or none without one. */
  function TriedAfterHeader<T>(read: seq<byte> -> Res<T>, s: seq<byte>): nat {
    match ReadVectorHeader(s)
    case Err => 0
    case Ok(count, t) => Tried(read, t, count)
  }

  /**
   * skipMessageEntities. Whatever the count word says, the loop enters at most one more round
   * than the input has room for entities of twelve bytes.
   */
  method SkipMessageEntities(r: TlReader) returns (done: Option<()>, ghost rounds: nat)
    requires r.Valid()
    modifies r
    ensures r.Valid() && old(r.off) <= r.off
    ensures Agrees(done, r.Rest(), ReadEntities(old(r.Rest())))
    ensures rounds == TriedAfterHeader(ReadEntity, old(r.Rest())) && 12 * rounds <= |old(r.Rest())| + 12
  {
    hide ReadVectorHeader, ReadEntity;
    rounds := 0;
    var count := ParseVectorHeader(r);
    if count == None {
      return None, rounds;
    }
    ghost var start := r.Rest();
    var i := 0;
    TriedBounded(ReadEntity, 12, start, count.value);
    while i < count.value
      invariant 0 <= i <= count.value && r.Valid() && old(r.off) <= r.off
      invariant rounds == i && Tried(ReadEntity, start, count.value) == i + Tried(ReadEntity, r.Rest(), count.value - i)
      invariant EntitiesFrom(start, count.value) == EntitiesFrom(r.Rest(), count.value - i)
    {
      rounds := rounds + 1;
      var one := SkipEntity(r);
      if one == None {
        return None, rounds;
      }
      i := i + 1;
    }
    done := Some(());
  }

  method SkipEntitiesIf(r: TlReader, present: bool) returns (done: Option<()>)
    requires r.Valid()
    modifies r
    ensures r.Valid() && old(r.off) <= r.off
    ensures Agrees(done, r.Rest(), EntitiesIf(present, old(r.Rest())))
  {
    hide ReadEntities;
    if present {
      ghost var rounds;
      done, rounds := SkipMessageEntities(r);
    } else {
      done := Some(());
    }
  }

  method SkipEmptyVectorIf(r: TlReader, present: bool) returns (done: Option<()>)
    requires r.Valid()
    modifies r
    ensures r.Valid() && old(r.off) <= r.off
    ensures Agrees(done, r.Rest(), EmptyVectorIf(present, old(r.Rest())))
  {
    hide ReadEmptyVector;
    if present {
      done := SkipEmptyVector(r);
    } else {
      done := Some(());
    }
  }

  // parseTextMessage, in the order of the source.

  method ParseOrigin(r: TlReader, flags: u32, flags2: u32) returns (peers: Option<(Peer, Peer)>)
    requires r.Valid()
    modifies r
    ensures r.Valid() && old(r.off) <= r.off
    ensures Agrees(peers, r.Rest(), ReadOrigin(flags, flags2, old(r.Rest())))
  {
    hide PeerIf, IntIf, LongIf, ReadPeer, Bit;
    var from := ParsePeerIf(r, Bit(flags, 8));
    if from == None { return None; }
    var boosts := ParseIntIf(r, Bit(flags, 29));
    if boosts == None { return None; }
    var chat := ParsePeer(r);
    if chat == None { return None; }
    var saved := ParsePeerIf(r, Bit(flags, 28));
    if saved == None { return None; }
    if Bit(flags, 2) { return None; }
    var viaBot := ParseLongIf(r, Bit(flags, 11));
    if viaBot == None { return None; }
    var businessBot := ParseLongIf(r, Bit(flags2, 0));
    if businessBot == None { return None; }
    if Bit(flags, 3) { return None; }
    peers := Some((from.value, chat.value));
  }

  method ParseEntitiesAndCounts(r: TlReader, flags: u32) returns (done: Option<()>)
    requires r.Valid()
    modifies r
    ensures r.Valid() && old(r.off) <= r.off
    ensures Agrees(done, r.Rest(), SkipEntitiesAndCounts(flags, old(r.Rest())))
  {
    hide EntitiesIf, IntIf, Bit;
    if Bit(flags, 9) { return None; }
    if Bit(flags, 6) { return None; }
    var entities := SkipEntitiesIf(r, Bit(flags, 7));
    if entities == None { return None; }
    var views := ParseIntIf(r, Bit(flags, 10));
    if views == None { return None; }
    var forwards := ParseIntIf(r, Bit(flags, 10));
    if forwards == None { return None; }
    if Bit(flags, 23) { return None; }
    done := Some(());
  }

  method ParseAuthorship(r: TlReader, flags: u32) returns (done: Option<()>)
    requires r.Valid()
    modifies r
    ensures r.Valid() && old(r.off) <= r.off
    ensures Agrees(done, r.Rest(), SkipAuthorship(flags, old(r.Rest())))
  {
    hide IntIf, BytesIf, LongIf, Bit;
    var edited := ParseIntIf(r, Bit(flags, 15));
    if edited == None { return None; }
    var author := ParseBytesIf(r, Bit(flags, 16));
    if author == None { return None; }
    var group := ParseLongIf(r, Bit(flags, 17));
    if group == None { return None; }
    if Bit(flags, 20) { return None; }
    done := Some(());
  }

  method ParseLifetime(r: TlReader, flags: u32) returns (done: Option<()>)
    requires r.Valid()
    modifies r
    ensures r.Valid() && old(r.off) <= r.off
    ensures Agrees(done, r.Rest(), SkipLifetime(flags, old(r.Rest())))
  {
    hide IntIf, EmptyVectorIf, Bit;
    var restrictions := SkipEmptyVectorIf(r, Bit(flags, 22));
    if restrictions == None { return None; }
    var ttl := ParseIntIf(r, Bit(flags, 25));
    if ttl == None { return None; }
    var shortcut := ParseIntIf(r, Bit(flags, 30));
    if shortcut == None { return None; }
    done := Some(());
  }

  method ParseFirstFlags(r: TlReader, flags: u32) returns (done: Option<()>)
    requires r.Valid()
    modifies r
    ensures r.Valid() && old(r.off) <= r.off
    ensures Agrees(done, r.Rest(), SkipFirstFlags(flags, old(r.Rest())))
  {
    hide SkipAuthorship, SkipLifetime;
    done := ParseAuthorship(r, flags);
    if done == None { return None; }
    done := ParseLifetime(r, flags);
  }

  method ParseSecondFlags(r: TlReader, flags2: u32) returns (done: Option<()>)
    requires r.Valid()
    modifies r
    ensures r.Valid() && old(r.off) <= r.off
    ensures Agrees(done, r.Rest(), SkipSecondFlags(flags2, old(r.Rest())))
  {
    hide IntIf, LongIf, Bit;
    var effect := ParseLongIf(r, Bit(flags2, 2));
    if effect == None { return None; }
    if Bit(flags2, 3) { return None; }
    var reportUntil := ParseIntIf(r, Bit(flags2, 5));
    if reportUntil == None { return None; }
    var paid := ParseLongIf(r, Bit(flags2, 6));
    if paid == None { return None; }
    if Bit(flags2, 7) { return None; }
    done := Some(());
  }

  method ParseMessageBody(r: TlReader) returns (m: Option<Option<TextMessage>>)
    requires r.Valid()
    modifies r
    ensures r.Valid() && old(r.off) <= r.off
    ensures Agrees(m, r.Rest(), ReadMessageBody(old(r.Rest())))
  {
    hide ReadInt, ReadBytes, ReadOrigin, SkipEntitiesAndCounts, SkipFirstFlags, SkipSecondFlags, Wrap32;
    var flags := r.Int();
    if flags == None { return None; }
    var flags2 := r.Int();
    if flags2 == None { return None; }
    var id := r.Int();
    if id == None { return None; }
    var peers := ParseOrigin(r, flags.value, flags2.value);
    if peers == None { return None; }
    var date := r.Int();
    if date == None { return None; }
    var text := r.ByteString();
    if text == None { return None; }
    var counts := ParseEntitiesAndCounts(r, flags.value);
    if counts == None { return None; }
    var first := ParseFirstFlags(r, flags.value);
    if first == None { return None; }
    var second := ParseSecondFlags(r, flags2.value);
    if second == None { return None; }
    var (from, chat) := peers.value;
    m := Some(Some(TextMessage(Wrap32(id.value), chat.id, from.id, chat.kind, from.kind,
                               Wrap32(date.value), text.value, [])));
  }

  method ParseTextMessage(r: TlReader) returns (m: Option<Option<TextMessage>>)
    requires r.Valid()
    modifies r
    ensures r.Valid() && old(r.off) <= r.off
    ensures Agrees(m, r.Rest(), ReadMessage(old(r.Rest())))
  {
    hide ReadInt, ReadMessageBody, PeerIf, Bit;
    var constructorId := r.Int();
    if constructorId == None { return None; }
    if constructorId.value == MESSAGE_EMPTY {
      var flags := r.Int();
      if flags == None { return None; }
      var id := r.Int();
      if id == None { return None; }
      var peer := ParsePeerIf(r, Bit(flags.value, 0));
      if peer == None { return None; }
      return Some(None);
    }
    if constructorId.value == MESSAGE {
      m := ParseMessageBody(r);
    } else {
      m := None;
    }
  }

  // The vectors.

  /** A parse whose messages come after those already collected. */
  function After(collected: seq<TextMessage>, r: Res<seq<TextMessage>>): Res<seq<TextMessage>> {
    match r
    case Err => Err
    case Ok(later, t) => Ok(collected + later, t)
  }

  lemma AfterAfter(a: seq<TextMessage>, b: seq<TextMessage>, r: Res<seq<TextMessage>>)
    ensures After(a, After(b, r)) == After(a + b, r)
  {
    if r.Ok? {
      assert a + (b + r.value) == a + b + r.value;
    }
  }

  lemma NothingCollected(r: Res<seq<TextMessage>>)
    ensures After([], r) == r
  {
    if r.Ok? {
      assert [] + r.value == r.value;
    }
  }

  lemma MessagesStep(s: seq<byte>, count: nat)
    requires count > 0
    ensures MessagesFrom(s, count)
            == match ReadMessage(s)
               case Err => Err
               case Ok(m, t) => After(WithRaw(m, s[..|s| - |t|]), MessagesFrom(t, count - 1))
    ensures Tried(ReadMessage, s, count)
            == match ReadMessage(s)
               case Err => 1
               case Ok(_, t) => 1 + Tried(ReadMessage, t, count - 1)
  {
    hide ReadMessage;
  }

  /** The message loop: what is read, and how many messages it has tried. */
  method ParseMessages(r: TlReader, count: nat) returns (messages: Option<seq<TextMessage>>, ghost rounds: nat)
    requires r.Valid()
    modifies r
    ensures r.Valid() && old(r.off) <= r.off
    ensures Agrees(messages, r.Rest(), MessagesFrom(old(r.Rest()), count))
    ensures rounds == Tried(ReadMessage, old(r.Rest()), count)
  {
    hide ReadMessage, MessagesFrom, WithRaw, Tried;
    rounds := 0;
    ghost var start := r.Rest();
    var out: seq<TextMessage> := [];
    var i := 0;
    NothingCollected(MessagesFrom(start, count));
    while i < count
      invariant 0 <= i <= count && r.Valid() && old(r.off) <= r.off
      invariant rounds == i && Tried(ReadMessage, start, count) == i + Tried(ReadMessage, r.Rest(), count - i)
      invariant MessagesFrom(start, count) == After(out, MessagesFrom(r.Rest(), count - i))
    {
      rounds := rounds + 1;
      var begin := r.off;
      ghost var s := r.Rest();
      MessagesStep(s, count - i);
      var m := ParseTextMessage(r);
      if m == None {
        return None, rounds;
      }
      var raw := r.buf[begin..r.off];
      assert raw == s[..|s| - |r.Rest()|];
      AfterAfter(out, WithRaw(m.value, raw), MessagesFrom(r.Rest(), count - i - 1));
      out := out + WithRaw(m.value, raw);
      i := i + 1;
    }
    NoMoreMessages(out, r.Rest());
    NoneTried(ReadMessage, r.Rest());
    messages := Some(out);
  }

  method ParseMessageVector(r: TlReader) returns (messages: Option<seq<TextMessage>>, ghost rounds: nat)
    requires r.Valid()
    modifies r
    ensures r.Valid() && old(r.off) <= r.off
    ensures Agrees(messages, r.Rest(), ReadMessages(old(r.Rest())))
    ensures rounds == TriedAfterHeader(ReadMessage, old(r.Rest())) && 12 * rounds <= |old(r.Rest())| + 12
  {
    hide ReadVectorHeader, ReadMessage, MessagesFrom, Tried;
    var count := ParseVectorHeader(r);
    if count == None {
      return None, 0;
    }
    TriedBounded(ReadMessage, 12, r.Rest(), count.value);
    messages, rounds := ParseMessages(r, count.value);
  }

  lemma NoMoreMessages(out: seq<TextMessage>, s: seq<byte>)
    ensures After(out, MessagesFrom(s, 0)) == Ok(out, s)
    ensures After(out, UpdatesFrom(s, 0)) == Ok(out, s)
    ensures After(out, Ok([], s)) == Ok(out, s)
  {
    assert out + [] == out;
  }

  lemma UpdatesStep(s: seq<byte>, count: nat)
    requires count > 0
    ensures UpdatesFrom(s, count)
            == match ReadUpdate(s)
               case Err => Err
               case Ok(None, t) => Ok([], t)
               case Ok(Some(mine), t) => After(mine, UpdatesFrom(t, count - 1))
    ensures Tried(ReadMessageUpdate, s, count)
            == match ReadUpdate(s)
               case Ok(Some(_), t) => 1 + Tried(ReadMessageUpdate, t, count - 1)
               case _ => 1
  {
    hide ReadUpdate;
  }

  /** A message update behind its constructor. */
  method ParseUpdateBody(r: TlReader) returns (messages: Option<seq<TextMessage>>)
    requires r.Valid()
    modifies r
    ensures r.Valid() && old(r.off) <= r.off
    ensures Agrees(messages, r.Rest(), ReadUpdateBody(old(r.Rest())))
  {
    hide ReadMessage, ReadInt, WithRaw;
    var begin := r.off;
    ghost var s := r.Rest();
    var m := ParseTextMessage(r);
    if m == None { return None; }
    var pts := r.Int();
    if pts == None { return None; }
    var ptsCount := r.Int();
    if ptsCount == None { return None; }
    assert r.buf[begin..r.off] == s[..|s| - |r.Rest()|];
    messages := Some(WithRaw(m.value, r.buf[begin..r.off]));
  }

  /** The next update; nothing inside the result marks one of another kind. */
  method ParseUpdate(r: TlReader) returns (next: Option<Option<seq<TextMessage>>>)
    requires r.Valid()
    modifies r
    ensures r.Valid() && old(r.off) <= r.off
    ensures Agrees(next, r.Rest(), ReadUpdate(old(r.Rest())))
  {
    hide ReadInt, ReadUpdateBody, MessageUpdate;
    var constructorId := r.Int();
    if constructorId == None {
      return None;
    }
    if !MessageUpdate(constructorId.value) {
      return Some(None);
    }
    var mine := ParseUpdateBody(r);
    if mine == None {
      return None;
    }
    next := Some(mine);
  }

  /** The update loop: what is read, and how many updates it has tried. */
  method ParseUpdates(r: TlReader, count: nat) returns (messages: Option<seq<TextMessage>>, ghost rounds: nat)
    requires r.Valid()
    modifies r
    ensures r.Valid() && old(r.off) <= r.off
    ensures Agrees(messages, r.Rest(), UpdatesFrom(old(r.Rest()), count))
    ensures rounds == Tried(ReadMessageUpdate, old(r.Rest()), count)
  {
    hide ReadUpdate, UpdatesFrom, Tried;
    ghost var start := r.Rest();
    var out: seq<TextMessage> := [];
    var i := 0;
    rounds := 0;
    NothingCollected(UpdatesFrom(start, count));
    while i < count
      invariant 0 <= i <= count && r.Valid() && old(r.off) <= r.off
      invariant rounds == i
      invariant Tried(ReadMessageUpdate, start, count) == i + Tried(ReadMessageUpdate, r.Rest(), count - i)
      invariant UpdatesFrom(start, count) == After(out, UpdatesFrom(r.Rest(), count - i))
    {
      rounds := rounds + 1;
      UpdatesStep(r.Rest(), count - i);
      var next := ParseUpdate(r);
      if next == None {
        return None, rounds;
      }
      if next.value == None {
        NoMoreMessages(out, r.Rest());
        return Some(out), rounds;
      }
      AfterAfter(out, next.value.value, UpdatesFrom(r.Rest(), count - i - 1));
      out := out + next.value.value;
      i := i + 1;
    }
    NoMoreMessages(out, r.Rest());
    NoneTried(ReadMessageUpdate, r.Rest());
    messages := Some(out);
  }

  lemma NoneTried<T>(read: seq<byte> -> Res<T>, s: seq<byte>)
    ensures Tried(read, s, 0) == 0
  {
  }

  method ParseUpdateVector(r: TlReader) returns (messages: Option<seq<TextMessage>>, ghost rounds: nat)
    requires r.Valid()
    modifies r
    ensures r.Valid() && old(r.off) <= r.off
    ensures Agrees(messages, r.Rest(), ReadUpdates(old(r.Rest())))
    ensures rounds == TriedAfterHeader(ReadMessageUpdate, old(r.Rest())) && 24 * rounds <= |old(r.Rest())| + 24
  {
    hide ReadVectorHeader, ReadMessageUpdate, UpdatesFrom, Tried;
    var count := ParseVectorHeader(r);
    if count == None {
      return None, 0;
    }
    TriedBounded(ReadMessageUpdate, 24, r.Rest(), count.value);
    messages, rounds := ParseUpdates(r, count.value);
  }

  /** The difference and difference-slice cases, on a reader behind the constructor. */
  method ParseDifferenceMessages(r: TlReader) returns (out: seq<TextMessage>)
    requires r.Valid()
    modifies r
    ensures r.Valid() && old(r.off) <= r.off
    ensures out == DifferenceMessages(old(r.Rest()))
  {
    hide ReadMessages, ReadEmptyVector, ReadUpdates;
    out := [];
    var messages, updates;
    ghost var rounds;
    messages, rounds := ParseMessageVector(r);
    if messages == None {
      return;
    }
    out := messages.value;
    var encrypted := SkipEmptyVector(r);
    if encrypted == None {
      return;
    }
    updates, rounds := ParseUpdateVector(r);
    if updates == None {
      return;
    }
    out := out + updates.value;
  }

  method ParseDifferenceResult(scan: seq<byte> -> Option<State>, body: seq<byte>) returns (d: Option<DifferenceResult>)
    ensures d == ReadDifference(scan, body)
  {
    hide ReadInt, DifferenceMessages, Wrap32;
    var r := new TlReader(body);
    var c := r.Int();
    if c == None {
      return None;
    }
    var scanned := scan(body);
    if c.value == DIFFERENCE_EMPTY {
      var date := r.Int();
      if date == None { return None; }
      var seqNo := r.Int();
      if seqNo == None { return None; }
      return Some(DifferenceResult(c.value, Some(State(0, 0, Wrap32(date.value), Wrap32(seqNo.value))), []));
    }
    if c.value == DIFFERENCE_TOO_LONG {
      var pts := r.Int();
      if pts == None { return None; }
      return Some(DifferenceResult(c.value, Some(State(Wrap32(pts.value), 0, 0, 0)), []));
    }
    if c.value == DIFFERENCE || c.value == DIFFERENCE_SLICE {
      var messages := ParseDifferenceMessages(r);
      return Some(DifferenceResult(c.value, scanned, messages));
    }
    return None;
  }
}
