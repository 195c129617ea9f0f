/**
 * The format of updates.Difference as far as the parser of mtproto/difference.go understands
 * it: the reading functions, the matching serializer, and the proof that reading inverts it.
 * Reading functions take the input left and return a value with the input after it.
 */
module Difference {
  import opened Bytes
  import opened TL
  import opened Wrappers

  const VECTOR: u32 := 0x1cb5c415
  const DIFFERENCE_EMPTY: u32 := 0x5d75a138
  const DIFFERENCE: u32 := 0x00f49ca0
  const DIFFERENCE_SLICE: u32 := 0xa8fb1981
  const DIFFERENCE_TOO_LONG: u32 := 0x4afe8f6d
  const MESSAGE_EMPTY: u32 := 0x90a6ca84
  const MESSAGE: u32 := 0x9815cec8
  const PEER_USER: u32 := 0x59511722
  const PEER_CHAT: u32 := 0x36c6019a
  const PEER_CHANNEL: u32 := 0xa2a5371e
  const UPDATE_NEW_MESSAGE: u32 := 0x1f2b0afd
  const UPDATE_NEW_CHANNEL_MESSAGE: u32 := 0x62ba04d9

  /** Bit k of a flags word. */
  predicate Bit(flags: u32, k: nat) {
    NthBit(flags, k) == 1
  }

  // Peers.

  datatype Peer = Peer(id: i64, kind: string)

  function PeerKind(constructorId: u32): Option<string> {
    if constructorId == PEER_USER then Some("user")
    else if constructorId == PEER_CHAT then Some("chat")
    else if constructorId == PEER_CHANNEL then Some("channel")
    else None
  }

  function ReadPeer(s: seq<byte>): (r: Res<Peer>)
    ensures Consumes(r, s, 12)
  {
    var (constructorId, s1) :- ReadInt(s);
    var (id, s2) :- ReadLong(s1);
    var kind := PeerKind(constructorId);
    if kind == None then Err else Ok(Peer(Wrap64(id), kind.value), s2)
  }

  datatype WirePeer = WirePeer(constructorId: u32, id: i64)

  ghost predicate ValidPeer(p: WirePeer) {
    PeerKind(p.constructorId) != None
  }

  function PeerMeaning(p: WirePeer): Peer
    requires ValidPeer(p)
  {
    Peer(p.id, PeerKind(p.constructorId).value)
  }

  function PeerCode(p: WirePeer, t: seq<byte>): seq<byte> {
    IntCode(p.constructorId) + (LongCode(U64(p.id)) + t)
  }

  lemma ReadPeerCode(p: WirePeer, t: seq<byte>)
    requires ValidPeer(p)
    ensures ReadPeer(PeerCode(p, t)) == Ok(PeerMeaning(p), t)
  {
    hide ReadInt, ReadLong, IntCode, LongCode, U64, Wrap64;
    ReadIntCode(p.constructorId, LongCode(U64(p.id)) + t);
    ReadLongCode(U64(p.id), t);
    Wrap64U64(p.id);
  }

  // Optional fields, present when their flag is set.

  function IntIf(present: bool, s: seq<byte>): (r: Res<u32>)
    ensures Consumes(r, s, 0)
  {
    if present then ReadInt(s) else Ok(0, s)
  }

  function LongIf(present: bool, s: seq<byte>): (r: Res<u64>)
    ensures Consumes(r, s, 0)
  {
    if present then ReadLong(s) else Ok(0, s)
  }

  function BytesIf(present: bool, s: seq<byte>): (r: Res<seq<byte>>)
    ensures Consumes(r, s, 0)
  {
    if present then ReadBytes(s) else Ok([], s)
  }

  /** An absent peer reads as the zero peer. */
  function PeerIf(present: bool, s: seq<byte>): (r: Res<Peer>)
    ensures Consumes(r, s, 0)
  {
    if present then ReadPeer(s) else Ok(Peer(0, ""), s)
  }

  /** skipMessageEntities, when the flag is set. */
  function EntitiesIf(present: bool, s: seq<byte>): (r: Res<()>)
    ensures Consumes(r, s, 0)
  {
    if present then ReadEntities(s) else Ok((), s)
  }

  /** skipRawVector, which accepts only an empty vector, when the flag is set. */
  function EmptyVectorIf(present: bool, s: seq<byte>): (r: Res<()>)
    ensures Consumes(r, s, 0)
  {
    if present then ReadEmptyVector(s) else Ok((), s)
  }

  function IntCodeIf(present: bool, v: u32, t: seq<byte>): seq<byte> {
    if present then IntCode(v) + t else t
  }

  function LongCodeIf(present: bool, v: u64, t: seq<byte>): seq<byte> {
    if present then LongCode(v) + t else t
  }

  function BytesCodeIf(present: bool, v: seq<byte>, t: seq<byte>): seq<byte> {
    if present then BytesCode(v) + t else t
  }

  function PeerCodeIf(present: bool, p: WirePeer, t: seq<byte>): seq<byte> {
    if present then PeerCode(p, t) else t
  }

  function EntitiesCodeIf(present: bool, es: seq<Entity>, t: seq<byte>): seq<byte> {
    if present then EntitiesCode(es, t) else t
  }

  function EmptyVectorCodeIf(present: bool, t: seq<byte>): seq<byte> {
    if present then IntCode(VECTOR) + (IntCode(0) + t) else t
  }

  lemma IntIfCode(present: bool, v: u32, t: seq<byte>)
    ensures IntIf(present, IntCodeIf(present, v, t)) == Ok(if present then v else 0, t)
  {
    ReadIntCode(v, t);
  }

  lemma LongIfCode(present: bool, v: u64, t: seq<byte>)
    ensures LongIf(present, LongCodeIf(present, v, t)) == Ok(if present then v else 0, t)
  {
    ReadLongCode(v, t);
  }

  lemma BytesIfCode(present: bool, v: seq<byte>, t: seq<byte>)
    requires |v| < 0x100_0000
    ensures BytesIf(present, BytesCodeIf(present, v, t)) == Ok(if present then v else [], t)
  {
    ReadBytesCode(v, t);
  }

  lemma PeerIfCode(present: bool, p: WirePeer, t: seq<byte>)
    requires ValidPeer(p)
    ensures PeerIf(present, PeerCodeIf(present, p, t)) == Ok(if present then PeerMeaning(p) else Peer(0, ""), t)
  {
    ReadPeerCode(p, t);
  }

  lemma EntitiesIfCode(present: bool, es: seq<Entity>, t: seq<byte>)
    requires ValidEntities(es)
    ensures EntitiesIf(present, EntitiesCodeIf(present, es, t)) == Ok((), t)
  {
    hide ReadEntities, EntitiesCode;
    ReadEntitiesCode(es, t);
  }

  lemma EmptyVectorIfCode(present: bool, t: seq<byte>)
    ensures EmptyVectorIf(present, EmptyVectorCodeIf(present, t)) == Ok((), t)
  {
    hide ReadInt, IntCode;
    ReadIntCode(VECTOR, IntCode(0) + t);
    ReadIntCode(0, t);
  }

  // Vectors and message entities.

  /** The constructor and the count of a vector. */
  function ReadVectorHeader(s: seq<byte>): (r: Res<u32>)
    ensures Consumes(r, s, 8)
  {
    var (constructorId, s1) :- ReadInt(s);
    if constructorId != VECTOR then Err else ReadInt(s1)
  }

  lemma ReadVectorHeaderCode(count: u32, t: seq<byte>)
    ensures ReadVectorHeader(IntCode(VECTOR) + (IntCode(count) + t)) == Ok(count, t)
  {
    hide ReadInt, IntCode;
    ReadIntCode(VECTOR, IntCode(count) + t);
    ReadIntCode(count, t);
  }

  function ReadEmptyVector(s: seq<byte>): (r: Res<()>)
    ensures Consumes(r, s, 8)
  {
    var (count, s1) :- ReadVectorHeader(s);
    if count != 0 then Err else Ok((), s1)
  }

  /** What follows the constructor of an entity. */
  datatype EntityShape = TwoInts | TwoIntsAndText | TwoIntsAndLong | ThreeInts

  /** The marks without data of their own: bold, italic, mentions, commands and so on. */
  const PLAIN_ENTITIES: set<u32> := {
    0xbb92ba95, 0xfa04579d, 0x6f635b0d, 0x6cef8ac7, 0x6ed02538, 0x64e475c2, 0xbd610bc9, 0x826f8b60,
    0x28a20571, 0x9b69e34b, 0x4c4e743f, 0x9c4e7e8b, 0xbf0693d4, 0x761e6af4, 0x32ca960f}

  function ShapeOf(constructorId: u32): Option<EntityShape> {
    if constructorId in PLAIN_ENTITIES then Some(TwoInts)
    else if constructorId == 0x73924be0 || constructorId == 0x76a6d327 then Some(TwoIntsAndText)
    else if constructorId == 0x352dca58 || constructorId == 0xc8cf05f8 then Some(TwoIntsAndLong)
    else if constructorId == 0x20df5d0 then Some(ThreeInts)
    else None
  }

  function ReadEntity(s: seq<byte>): (r: Res<()>)
    ensures Consumes(r, s, 12)
  {
    var (constructorId, s1) :- ReadInt(s);
    var shape := ShapeOf(constructorId);
    if shape == None then Err
    else
      var (first, s2) :- ReadInt(s1);
      var (second, s3) :- ReadInt(s2);
      var (third, s4) :- IntIf(shape == Some(ThreeInts), s3);
      var (text, s5) :- BytesIf(shape == Some(TwoIntsAndText), s4);
      var (id, s6) :- LongIf(shape == Some(TwoIntsAndLong), s5);
      Ok((), s6)
  }

  function EntitiesFrom(s: seq<byte>, count: nat): (r: Res<()>)
    ensures Consumes(r, s, 12 * count)
    decreases count
  {
    if count == 0 then Ok((), s)
    else
      var (_, t) :- ReadEntity(s);
      EntitiesFrom(t, count - 1)
  }

  function ReadEntities(s: seq<byte>): (r: Res<()>)
    ensures Consumes(r, s, 8)
  {
    var (count, t) :- ReadVectorHeader(s);
    EntitiesFrom(t, count)
  }

  /** An entity with every field any shape can have; the shape decides which are sent. */
  datatype Entity = Entity(constructorId: u32, first: u32, second: u32, third: u32, text: seq<byte>, id: u64)

  ghost predicate ValidEntity(e: Entity) {
    ShapeOf(e.constructorId) != None && |e.text| < 0x100_0000
  }

  ghost predicate ValidEntities(es: seq<Entity>) {
    |es| < 0x1_0000_0000 && forall i :: 0 <= i < |es| ==> ValidEntity(es[i])
  }

  function EntityCode(e: Entity, t: seq<byte>): seq<byte> {
    var shape := ShapeOf(e.constructorId);
    IntCode(e.constructorId) + (IntCode(e.first) + (IntCode(e.second)
      + IntCodeIf(shape == Some(ThreeInts), e.third,
                  BytesCodeIf(shape == Some(TwoIntsAndText), e.text,
                              LongCodeIf(shape == Some(TwoIntsAndLong), e.id, t)))))
  }

  function EntityCodes(es: seq<Entity>, t: seq<byte>): seq<byte> {
    if es == [] then t else EntityCode(es[0], EntityCodes(es[1..], t))
  }

  function EntitiesCode(es: seq<Entity>, t: seq<byte>): seq<byte> {
    IntCode(VECTOR) + (IntCode(U32(|es|)) + EntityCodes(es, t))
  }

  lemma ReadEntityCode(e: Entity, t: seq<byte>)
    requires ValidEntity(e)
    ensures ReadEntity(EntityCode(e, t)) == Ok((), t)
  {
    hide ReadInt, IntCode, ShapeOf, IntIf, BytesIf, LongIf, IntCodeIf, BytesCodeIf, LongCodeIf;
    var shape := ShapeOf(e.constructorId);
    var t5 := LongCodeIf(shape == Some(TwoIntsAndLong), e.id, t);
    var t4 := BytesCodeIf(shape == Some(TwoIntsAndText), e.text, t5);
    var t3 := IntCodeIf(shape == Some(ThreeInts), e.third, t4);
    ReadIntCode(e.constructorId, IntCode(e.first) + (IntCode(e.second) + t3));
    ReadIntCode(e.first, IntCode(e.second) + t3);
    ReadIntCode(e.second, t3);
    IntIfCode(shape == Some(ThreeInts), e.third, t4);
    BytesIfCode(shape == Some(TwoIntsAndText), e.text, t5);
    LongIfCode(shape == Some(TwoIntsAndLong), e.id, t);
  }

  lemma {:induction false} EntitiesFromCodes(es: seq<Entity>, t: seq<byte>)
    requires forall i :: 0 <= i < |es| ==> ValidEntity(es[i])
    ensures EntitiesFrom(EntityCodes(es, t), |es|) == Ok((), t)
    decreases |es|
  {
    if es != [] {
      hide ReadEntity, EntityCode, ValidEntity;
      ReadEntityCode(es[0], EntityCodes(es[1..], t));
      EntitiesFromCodes(es[1..], t);
    }
  }

  lemma CountWord(n: nat)
    requires n < 0x1_0000_0000
    ensures U32(n) == n
  {
  }

  lemma ReadEntitiesCode(es: seq<Entity>, t: seq<byte>)
    requires ValidEntities(es)
    ensures ReadEntities(EntitiesCode(es, t)) == Ok((), t)
  {
    hide ReadVectorHeader, IntCode, EntitiesFrom, EntityCodes, U32;
    CountWord(|es|);
    ReadVectorHeaderCode(|es|, EntityCodes(es, t));
    EntitiesFromCodes(es, t);
  }

  // Messages.

  datatype TextMessage = TextMessage(
    id: i32, chatId: i64, fromId: i64, chatKind: string, fromKind: string, date: i32, text: seq<byte>, raw: seq<byte>)

  /** Flags of fields the parser does not implement: it fails on any of them. */
  predicate Unsupported(flags: u32, flags2: u32) {
    Bit(flags, 2) || Bit(flags, 3) || Bit(flags, 9) || Bit(flags, 6) || Bit(flags, 23) || Bit(flags, 20)
    || Bit(flags2, 3) || Bit(flags2, 7)
  }

  /** The fields before the date. */
  function ReadOrigin(flags: u32, flags2: u32, s: seq<byte>): (r: Res<(Peer, Peer)>)
    ensures Consumes(r, s, 0)
  {
    var (from, s1) :- PeerIf(Bit(flags, 8), s);
    var (_, s2) :- IntIf(Bit(flags, 29), s1);
    var (chat, s3) :- ReadPeer(s2);
    var (_, s4) :- PeerIf(Bit(flags, 28), s3);
    if Bit(flags, 2) then Err
    else
      var (_, s5) :- LongIf(Bit(flags, 11), s4);
      var (_, s6) :- LongIf(Bit(flags2, 0), s5);
      if Bit(flags, 3) then Err else Ok((from, chat), s6)
  }

  /** Entities and counters, the first fields after the text; all of them are skipped. */
  function SkipEntitiesAndCounts(flags: u32, s: seq<byte>): (r: Res<()>)
    ensures Consumes(r, s, 0)
  {
    if Bit(flags, 9) || Bit(flags, 6) then Err
    else
      var (_, s1) :- EntitiesIf(Bit(flags, 7), s);
      var (_, s2) :- IntIf(Bit(flags, 10), s1);
      var (_, s3) :- IntIf(Bit(flags, 10), s2);
      if Bit(flags, 23) then Err else Ok((), s3)
  }

  function SkipAuthorship(flags: u32, s: seq<byte>): (r: Res<()>)
    ensures Consumes(r, s, 0)
  {
    var (_, s1) :- IntIf(Bit(flags, 15), s);
    var (_, s2) :- BytesIf(Bit(flags, 16), s1);
    var (_, s3) :- LongIf(Bit(flags, 17), s2);
    if Bit(flags, 20) then Err else Ok((), s3)
  }

  function SkipLifetime(flags: u32, s: seq<byte>): (r: Res<()>)
    ensures Consumes(r, s, 0)
  {
    var (_, s1) :- EmptyVectorIf(Bit(flags, 22), s);
    var (_, s2) :- IntIf(Bit(flags, 25), s1);
    var (_, s3) :- IntIf(Bit(flags, 30), s2);
    Ok((), s3)
  }

  /** The remaining fields that the first flags word announces. */
  function SkipFirstFlags(flags: u32, s: seq<byte>): (r: Res<()>)
    ensures Consumes(r, s, 0)
  {
    var (_, s1) :- SkipAuthorship(flags, s);
    SkipLifetime(flags, s1)
  }

  /** The fields the second flags word announces. */
  function SkipSecondFlags(flags2: u32, s: seq<byte>): (r: Res<()>)
    ensures Consumes(r, s, 0)
  {
    var (_, s1) :- LongIf(Bit(flags2, 2), s);
    if Bit(flags2, 3) then Err
    else
      var (_, s2) :- IntIf(Bit(flags2, 5), s1);
      var (_, s3) :- LongIf(Bit(flags2, 6), s2);
      if Bit(flags2, 7) then Err else Ok((), s3)
  }

  /** A message after its constructor. */
  function ReadMessageBody(s: seq<byte>): (r: Res<Option<TextMessage>>)
    ensures Consumes(r, s, 12)
  {
    var (flags, s1) :- ReadInt(s);
    var (flags2, s2) :- ReadInt(s1);
    var (id, s3) :- ReadInt(s2);
    var (peers, s4) :- ReadOrigin(flags, flags2, s3);
    var (date, s5) :- ReadInt(s4);
    var (text, s6) :- ReadBytes(s5);
    var (_, s7) :- SkipEntitiesAndCounts(flags, s6);
    var (_, s8) :- SkipFirstFlags(flags, s7);
    var (_, s9) :- SkipSecondFlags(flags2, s8);
    var (from, chat) := peers;
    Ok(Some(TextMessage(Wrap32(id), chat.id, from.id, chat.kind, from.kind, Wrap32(date), text, [])), s9)
  }

  /** An empty message after its constructor. */
  function ReadEmptyMessage(s: seq<byte>): (r: Res<Option<TextMessage>>)
    ensures Consumes(r, s, 8)
  {
    var (flags, s1) :- ReadInt(s);
    var (id, s2) :- ReadInt(s1);
    var (_, s3) :- PeerIf(Bit(flags, 0), s2);
    Ok(None, s3)
  }

  function ReadMessage(s: seq<byte>): (r: Res<Option<TextMessage>>)
    ensures Consumes(r, s, 12)
  {
    var (constructorId, s1) :- ReadInt(s);
    if constructorId == MESSAGE_EMPTY then ReadEmptyMessage(s1)
    else if constructorId == MESSAGE then ReadMessageBody(s1)
    else Err
  }

  /** A message with every field any flags can announce; the flags decide which are sent. */
  datatype WireMessage =
    | WireEmpty(flags: u32, id: i32, peer: WirePeer)
    | WireText(flags: u32, flags2: u32, id: i32, from: WirePeer, boosts: u32, chat: WirePeer, saved: WirePeer,
               viaBot: u64, businessBot: u64, date: i32, text: seq<byte>, entities: seq<Entity>, views: u32,
               forwards: u32, edited: u32, author: seq<byte>, group: u64, ttl: u32, shortcut: u32,
               effect: u64, reportUntil: u32, paid: u64)

  ghost predicate ValidMessage(m: WireMessage) {
    match m
    case WireEmpty(_, _, peer) => ValidPeer(peer)
    case WireText(flags, flags2, _, from, _, chat, saved, _, _, _, text, entities, _, _, _, author, _, _, _, _, _, _) =>
      !Unsupported(flags, flags2) && ValidPeer(from) && ValidPeer(chat) && ValidPeer(saved)
      && ValidEntities(entities) && |text| < 0x100_0000 && |author| < 0x100_0000
  }

  function MessageMeaning(m: WireMessage): Option<TextMessage>
    requires ValidMessage(m)
  {
    match m
    case WireEmpty(_, _, _) => None
    case WireText(_, _, _, _, _, _, _, _, _, _, _, _, _, _, _, _, _, _, _, _, _, _) =>
      var from := if Bit(m.flags, 8) then PeerMeaning(m.from) else Peer(0, "");
      var chat := PeerMeaning(m.chat);
      Some(TextMessage(m.id, chat.id, from.id, chat.kind, from.kind, m.date, m.text, []))
  }

  function OriginCode(m: WireMessage, t: seq<byte>): seq<byte>
    requires m.WireText?
  {
    PeerCodeIf(Bit(m.flags, 8), m.from,
      IntCodeIf(Bit(m.flags, 29), m.boosts,
        PeerCode(m.chat,
          PeerCodeIf(Bit(m.flags, 28), m.saved,
            LongCodeIf(Bit(m.flags, 11), m.viaBot,
              LongCodeIf(Bit(m.flags2, 0), m.businessBot, t))))))
  }

  function EntitiesAndCountsCode(m: WireMessage, t: seq<byte>): seq<byte>
    requires m.WireText?
  {
    EntitiesCodeIf(Bit(m.flags, 7), m.entities,
      IntCodeIf(Bit(m.flags, 10), m.views,
        IntCodeIf(Bit(m.flags, 10), m.forwards, t)))
  }

  function FirstFlagsCode(m: WireMessage, t: seq<byte>): seq<byte>
    requires m.WireText?
  {
    IntCodeIf(Bit(m.flags, 15), m.edited,
      BytesCodeIf(Bit(m.flags, 16), m.author,
        LongCodeIf(Bit(m.flags, 17), m.group,
          EmptyVectorCodeIf(Bit(m.flags, 22),
            IntCodeIf(Bit(m.flags, 25), m.ttl,
              IntCodeIf(Bit(m.flags, 30), m.shortcut, t))))))
  }

  function SecondFlagsCode(m: WireMessage, t: seq<byte>): seq<byte>
    requires m.WireText?
  {
    LongCodeIf(Bit(m.flags2, 2), m.effect,
      IntCodeIf(Bit(m.flags2, 5), m.reportUntil,
        LongCodeIf(Bit(m.flags2, 6), m.paid, t)))
  }

  function MessageCode(m: WireMessage, t: seq<byte>): seq<byte> {
    match m
    case WireEmpty(flags, id, peer) =>
      IntCode(MESSAGE_EMPTY) + (IntCode(flags) + (IntCode(U32(id)) + PeerCodeIf(Bit(flags, 0), peer, t)))
    case WireText(_, _, _, _, _, _, _, _, _, _, _, _, _, _, _, _, _, _, _, _, _, _) =>
      IntCode(MESSAGE) + (IntCode(m.flags) + (IntCode(m.flags2) + (IntCode(U32(m.id))
        + OriginCode(m, IntCode(U32(m.date)) + (BytesCode(m.text)
          + EntitiesAndCountsCode(m, FirstFlagsCode(m, SecondFlagsCode(m, t))))))))
  }

  lemma ReadOriginCode(m: WireMessage, t: seq<byte>)
    requires m.WireText? && ValidMessage(m)
    ensures ReadOrigin(m.flags, m.flags2, OriginCode(m, t))
            == Ok((if Bit(m.flags, 8) then PeerMeaning(m.from) else Peer(0, ""), PeerMeaning(m.chat)), t)
  {
    hide ReadPeer, PeerIf, IntIf, LongIf, PeerCode, PeerCodeIf, IntCodeIf, LongCodeIf, Bit, ValidPeer, PeerMeaning,
         ValidEntities;
    var t6 := LongCodeIf(Bit(m.flags2, 0), m.businessBot, t);
    var t5 := LongCodeIf(Bit(m.flags, 11), m.viaBot, t6);
    var t4 := PeerCodeIf(Bit(m.flags, 28), m.saved, t5);
    var t3 := PeerCode(m.chat, t4);
    PeerIfCode(Bit(m.flags, 8), m.from, IntCodeIf(Bit(m.flags, 29), m.boosts, t3));
    IntIfCode(Bit(m.flags, 29), m.boosts, t3);
    ReadPeerCode(m.chat, t4);
    PeerIfCode(Bit(m.flags, 28), m.saved, t5);
    LongIfCode(Bit(m.flags, 11), m.viaBot, t6);
    LongIfCode(Bit(m.flags2, 0), m.businessBot, t);
  }

  lemma SkipEntitiesAndCountsCode(m: WireMessage, t: seq<byte>)
    requires m.WireText? && ValidMessage(m)
    ensures SkipEntitiesAndCounts(m.flags, EntitiesAndCountsCode(m, t)) == Ok((), t)
  {
    hide EntitiesIf, IntIf, EntitiesCodeIf, IntCodeIf, Bit, ValidPeer, ValidEntities;
    var t3 := IntCodeIf(Bit(m.flags, 10), m.forwards, t);
    EntitiesIfCode(Bit(m.flags, 7), m.entities, IntCodeIf(Bit(m.flags, 10), m.views, t3));
    IntIfCode(Bit(m.flags, 10), m.views, t3);
    IntIfCode(Bit(m.flags, 10), m.forwards, t);
  }

  lemma SkipFirstFlagsCode(m: WireMessage, t: seq<byte>)
    requires m.WireText? && ValidMessage(m)
    ensures SkipFirstFlags(m.flags, FirstFlagsCode(m, t)) == Ok((), t)
  {
    hide IntIf, BytesIf, LongIf, EmptyVectorIf, IntCodeIf, BytesCodeIf, LongCodeIf, EmptyVectorCodeIf, Bit,
         ValidPeer, ValidEntities;
    var t6 := IntCodeIf(Bit(m.flags, 30), m.shortcut, t);
    var t5 := IntCodeIf(Bit(m.flags, 25), m.ttl, t6);
    var t4 := EmptyVectorCodeIf(Bit(m.flags, 22), t5);
    var t3 := LongCodeIf(Bit(m.flags, 17), m.group, t4);
    var t2 := BytesCodeIf(Bit(m.flags, 16), m.author, t3);
    IntIfCode(Bit(m.flags, 15), m.edited, t2);
    BytesIfCode(Bit(m.flags, 16), m.author, t3);
    LongIfCode(Bit(m.flags, 17), m.group, t4);
    EmptyVectorIfCode(Bit(m.flags, 22), t5);
    IntIfCode(Bit(m.flags, 25), m.ttl, t6);
    IntIfCode(Bit(m.flags, 30), m.shortcut, t);
  }

  lemma SkipSecondFlagsCode(m: WireMessage, t: seq<byte>)
    requires m.WireText? && ValidMessage(m)
    ensures SkipSecondFlags(m.flags2, SecondFlagsCode(m, t)) == Ok((), t)
  {
    hide IntIf, LongIf, IntCodeIf, LongCodeIf, Bit, ValidPeer, ValidEntities;
    var t3 := LongCodeIf(Bit(m.flags2, 6), m.paid, t);
    LongIfCode(Bit(m.flags2, 2), m.effect, IntCodeIf(Bit(m.flags2, 5), m.reportUntil, t3));
    IntIfCode(Bit(m.flags2, 5), m.reportUntil, t3);
    LongIfCode(Bit(m.flags2, 6), m.paid, t);
  }

  /** Reading a message inverts writing it, for every combination of the supported flags. */
  lemma ReadMessageCode(m: WireMessage, t: seq<byte>)
    requires ValidMessage(m)
    ensures ReadMessage(MessageCode(m, t)) == Ok(MessageMeaning(m), t)
  {
    hide ReadInt, ReadBytes, IntCode, BytesCode, PeerIf, PeerCodeIf, Bit, U32, Wrap32, ValidPeer, ValidEntities,
         PeerMeaning,
         ReadOrigin, SkipEntitiesAndCounts, SkipFirstFlags, SkipSecondFlags, OriginCode, EntitiesAndCountsCode,
         FirstFlagsCode, SecondFlagsCode;
    Wrap32U32(m.id);
    match m
    case WireEmpty(flags, id, peer) =>
      var t3 := PeerCodeIf(Bit(flags, 0), peer, t);
      ReadIntCode(MESSAGE_EMPTY, IntCode(flags) + (IntCode(U32(id)) + t3));
      ReadIntCode(flags, IntCode(U32(id)) + t3);
      ReadIntCode(U32(id), t3);
      PeerIfCode(Bit(flags, 0), peer, t);
    case WireText(_, _, _, _, _, _, _, _, _, _, _, _, _, _, _, _, _, _, _, _, _, _) =>
      var t8 := SecondFlagsCode(m, t);
      var t7 := FirstFlagsCode(m, t8);
      var t6 := EntitiesAndCountsCode(m, t7);
      var t5 := BytesCode(m.text) + t6;
      var t4 := IntCode(U32(m.date)) + t5;
      var t3 := OriginCode(m, t4);
      ReadIntCode(MESSAGE, IntCode(m.flags) + (IntCode(m.flags2) + (IntCode(U32(m.id)) + t3)));
      ReadIntCode(m.flags, IntCode(m.flags2) + (IntCode(U32(m.id)) + t3));
      ReadIntCode(m.flags2, IntCode(U32(m.id)) + t3);
      ReadIntCode(U32(m.id), t3);
      ReadOriginCode(m, t4);
      ReadIntCode(U32(m.date), t5);
      Wrap32U32(m.date);
      ReadBytesCode(m.text, t6);
      SkipEntitiesAndCountsCode(m, t7);
      SkipFirstFlagsCode(m, t8);
      SkipSecondFlagsCode(m, t);
  }

  /** A message with an unsupported flag is never accepted, whatever follows. */
  lemma UnsupportedRejected(s: seq<byte>)
    requires |s| >= 8 && Unsupported(ReadInt(s).value, ReadInt(s[4..]).value)
    ensures ReadMessageBody(s) == Err
  {
    hide PeerIf, IntIf, LongIf, BytesIf, EntitiesIf, EmptyVectorIf, ReadPeer, ReadBytes, Bit;
    assert ReadInt(s).rest == s[4..];
  }

  // The vectors of a difference.

  /** How many elements a vector parser tries to read: all of them, or those up to and including the first failure. */
  function Tried<T>(read: seq<byte> -> Res<T>, s: seq<byte>, count: nat): (n: nat)
    ensures n <= count
    decreases count
  {
    if count == 0 then 0
    else
      match read(s)
      case Err => 1
      case Ok(_, t) => 1 + Tried(read, t, count - 1)
  }

  /** Whatever the count, at most one more than the input has room for elements of `size` bytes. */
  lemma {:induction false} TriedBounded<T>(read: seq<byte> -> Res<T>, size: nat, s: seq<byte>, count: nat)
    requires forall u: seq<byte> :: Consumes(read(u), u, size)
    ensures size * Tried(read, s, count) <= |s| + size
    decreases count
  {
    if count > 0 && read(s).Ok? {
      var t := read(s).rest;
      TriedBounded(read, size, t, count - 1);
      var later := Tried(read, t, count - 1);
      assert size * (1 + later) == size + size * later;
      assert Consumes(read(s), s, size);
    } else if count == 0 {
      assert size * 0 == 0;
    }
  }

  /** The parsed message, if there is one, with the bytes it was read from. */
  function WithRaw(m: Option<TextMessage>, raw: seq<byte>): seq<TextMessage> {
    if m == None then [] else [m.value.(raw := raw)]
  }

  function ReadWithRaw(s: seq<byte>): (r: Res<seq<TextMessage>>)
    ensures Consumes(r, s, 12)
    ensures r.Ok? ==> |r.value| <= 1
  {
    var (m, t) :- ReadMessage(s);
    Ok(WithRaw(m, s[..|s| - |t|]), t)
  }

  function MessagesFrom(s: seq<byte>, count: nat): (r: Res<seq<TextMessage>>)
    ensures Consumes(r, s, 12 * count)
    ensures r.Ok? ==> |r.value| <= count
    decreases count
  {
    if count == 0 then Ok([], s)
    else
      var (mine, t) :- ReadWithRaw(s);
      var (later, u) :- MessagesFrom(t, count - 1);
      Ok(mine + later, u)
  }

  lemma MessagesFromStep(s: seq<byte>, count: nat)
    requires count > 0
    ensures MessagesFrom(s, count)
            == match ReadWithRaw(s)
               case Err => Err
               case Ok(mine, t) =>
                 match MessagesFrom(t, count - 1)
                 case Err => Err
                 case Ok(later, u) => Ok(mine + later, u)
  {
    hide ReadWithRaw;
  }

  /** parseMessageVector. */
  function ReadMessages(s: seq<byte>): (r: Res<seq<TextMessage>>)
    ensures Consumes(r, s, 8)
  {
    var (count, t) :- ReadVectorHeader(s);
    MessagesFrom(t, count)
  }

  predicate MessageUpdate(constructorId: u32) {
    constructorId == UPDATE_NEW_MESSAGE || constructorId == UPDATE_NEW_CHANNEL_MESSAGE
  }

  /** The message of an update and its two counters, after the constructor. */
  function ReadUpdateBody(s: seq<byte>): (r: Res<seq<TextMessage>>)
    ensures Consumes(r, s, 20)
    ensures r.Ok? ==> |r.value| <= 1
  {
    var (m, t) :- ReadMessage(s);
    var (pts, t1) :- ReadInt(t);
    var (ptsCount, t2) :- ReadInt(t1);
    Ok(WithRaw(m, s[..|s| - |t2|]), t2)
  }

  /** The next update: its messages, or nothing when it is of another kind. */
  function ReadUpdate(s: seq<byte>): (r: Res<Option<seq<TextMessage>>>)
    ensures r.Ok? ==> |r.rest| + (if r.value == None then 4 else 24) <= |s|
    ensures r.Ok? && r.value.Some? ==> |r.value.value| <= 1
  {
    var (constructorId, s1) :- ReadInt(s);
    if !MessageUpdate(constructorId) then Ok(None, s1)
    else
      var (mine, t) :- ReadUpdateBody(s1);
      Ok(Some(mine), t)
  }

  /** One update that carries a message. */
  function ReadMessageUpdate(s: seq<byte>): (r: Res<seq<TextMessage>>)
    ensures Consumes(r, s, 24)
  {
    var (mine, t) :- ReadUpdate(s);
    if mine == None then Err else Ok(mine.value, t)
  }

  /** Updates up to the first one that does not carry a message, where reading stops without an error. */
  function UpdatesFrom(s: seq<byte>, count: nat): (r: Res<seq<TextMessage>>)
    ensures Consumes(r, s, 0)
    ensures r.Ok? ==> |r.value| <= count && |r.rest| + 24 * |r.value| <= |s|
    decreases count
  {
    if count == 0 then Ok([], s)
    else
      var (mine, t) :- ReadUpdate(s);
      if mine == None then Ok([], t)
      else
        var (later, u) :- UpdatesFrom(t, count - 1);
        Ok(mine.value + later, u)
  }

  /** parseUpdateVector. */
  function ReadUpdates(s: seq<byte>): (r: Res<seq<TextMessage>>)
    ensures Consumes(r, s, 8)
  {
    var (count, t) :- ReadVectorHeader(s);
    UpdatesFrom(t, count)
  }

  datatype State = State(pts: i32, qts: i32, date: i32, seqNo: i32)

  datatype DifferenceResult = DifferenceResult(constructorId: u32, state: Option<State>, messages: seq<TextMessage>)

  /** What is left of the messages when a later part of the body cannot be read. */
  function DifferenceMessages(s: seq<byte>): seq<TextMessage> {
    match ReadMessages(s)
    case Err => []
    case Ok(messages, t) =>
      match ReadEmptyVector(t)
      case Err => messages
      case Ok(_, t2) =>
        match ReadUpdates(t2)
        case Err => messages
        case Ok(updates, _) => messages + updates
  }

  /** parseDifferenceResult; `scan` stands for the heuristic scan of the body for a state. */
  function ReadDifference(scan: seq<byte> -> Option<State>, body: seq<byte>): Option<DifferenceResult> {
    match ReadInt(body)
    case Err => None
    case Ok(c, s) =>
      if c == DIFFERENCE_EMPTY then
        match (var (date, s1) :- ReadInt(s);
               var (seqNo, s2) :- ReadInt(s1);
               Ok(State(0, 0, Wrap32(date), Wrap32(seqNo)), s2))
        case Err => None
        case Ok(state, _) => Some(DifferenceResult(c, Some(state), []))
      else if c == DIFFERENCE_TOO_LONG then
        match ReadInt(s)
        case Err => None
        case Ok(pts, _) => Some(DifferenceResult(c, Some(State(Wrap32(pts), 0, 0, 0)), []))
      else if c == DIFFERENCE || c == DIFFERENCE_SLICE then
        Some(DifferenceResult(c, scan(body), DifferenceMessages(s)))
      else None
  }

  // The serializer of a difference.

  function MessageCodes(ms: seq<WireMessage>, t: seq<byte>): seq<byte> {
    if ms == [] then t else MessageCode(ms[0], MessageCodes(ms[1..], t))
  }

  datatype WireUpdate = WireUpdate(channel: bool, message: WireMessage, pts: u32, ptsCount: u32)

  function UpdateBodyCode(u: WireUpdate, t: seq<byte>): seq<byte> {
    MessageCode(u.message, IntCode(u.pts) + (IntCode(u.ptsCount) + t))
  }

  function UpdateCodes(us: seq<WireUpdate>, t: seq<byte>): seq<byte> {
    if us == [] then t
    else IntCode(if us[0].channel then UPDATE_NEW_CHANNEL_MESSAGE else UPDATE_NEW_MESSAGE)
         + UpdateBodyCode(us[0], UpdateCodes(us[1..], t))
  }

  ghost predicate AllValid(ms: seq<WireMessage>) {
    ms != [] ==> ValidMessage(ms[0]) && AllValid(ms[1..])
  }

  ghost predicate AllValidUpdates(us: seq<WireUpdate>) {
    us != [] ==> ValidMessage(us[0].message) && AllValidUpdates(us[1..])
  }

  /**
   * New messages, updates that carry messages, and then `others` updates of other kinds: their
   * bytes, and the chats, users and state after the vector, are `tail`.
   */
  datatype WireDifference =
    WireDifference(slice: bool, messages: seq<WireMessage>, updates: seq<WireUpdate>, others: nat, tail: seq<byte>)

  ghost predicate ValidDifference(d: WireDifference) {
    && |d.messages| < 0x1_0000_0000 && AllValid(d.messages)
    && |d.updates| + d.others < 0x1_0000_0000 && AllValidUpdates(d.updates)
    && (d.others > 0 ==> ReadInt(d.tail).Ok? && !MessageUpdate(ReadInt(d.tail).value))
  }

  function UpdatesCode(d: WireDifference): seq<byte> {
    IntCode(VECTOR) + (IntCode(U32(|d.updates| + d.others)) + UpdateCodes(d.updates, d.tail))
  }

  function DifferenceCode(d: WireDifference): seq<byte> {
    IntCode(if d.slice then DIFFERENCE_SLICE else DIFFERENCE)
    + (IntCode(VECTOR) + (IntCode(U32(|d.messages|)) + MessageCodes(d.messages,
        IntCode(VECTOR) + (IntCode(0) + UpdatesCode(d)))))
  }

  /** The texts among the messages, in order, each with its own encoding as raw bytes. */
  function Texts(ms: seq<WireMessage>): seq<TextMessage>
    requires AllValid(ms)
  {
    if ms == [] then [] else WithRaw(MessageMeaning(ms[0]), MessageCode(ms[0], [])) + Texts(ms[1..])
  }

  function UpdateTexts(us: seq<WireUpdate>): seq<TextMessage>
    requires AllValidUpdates(us)
  {
    if us == [] then []
    else WithRaw(MessageMeaning(us[0].message), UpdateBodyCode(us[0], [])) + UpdateTexts(us[1..])
  }

  // The serializer appends: what is written before t does not depend on t.

  lemma {:induction false} EntityCodesAppend(es: seq<Entity>, t: seq<byte>)
    ensures EntityCodes(es, t) == EntityCodes(es, []) + t
    decreases |es|
  {
    if es != [] {
      EntityCodesAppend(es[1..], t);
      EntityCodeAppends(es[0], EntityCodes(es[1..], []), t);
    }
  }

  lemma EntityCodeAppends(e: Entity, s: seq<byte>, t: seq<byte>)
    ensures EntityCode(e, s + t) == EntityCode(e, s) + t
  {
    hide IntCode, ShapeOf, IntCodeIf, BytesCodeIf, LongCodeIf;
    var shape := ShapeOf(e.constructorId);
    var noPeer := WirePeer(0, 0);
    var s2 := LongCodeIf(shape == Some(TwoIntsAndLong), e.id, s);
    var s1 := BytesCodeIf(shape == Some(TwoIntsAndText), e.text, s2);
    FieldAppends(shape == Some(TwoIntsAndLong), 0, e.id, [], noPeer, s, t);
    FieldAppends(shape == Some(TwoIntsAndText), 0, 0, e.text, noPeer, s2, t);
    FieldAppends(shape == Some(ThreeInts), e.third, 0, [], noPeer, s1, t);
  }

  lemma EntitiesIfAppends(present: bool, es: seq<Entity>, s: seq<byte>, t: seq<byte>)
    ensures EntitiesCodeIf(present, es, s + t) == EntitiesCodeIf(present, es, s) + t
  {
    hide IntCode, EntityCodes;
    EntityCodesAppend(es, s + t);
    EntityCodesAppend(es, s);
  }

  lemma FieldAppends(present: bool, v: u32, w: u64, b: seq<byte>, p: WirePeer, s: seq<byte>, t: seq<byte>)
    ensures IntCodeIf(present, v, s + t) == IntCodeIf(present, v, s) + t
    ensures LongCodeIf(present, w, s + t) == LongCodeIf(present, w, s) + t
    ensures BytesCodeIf(present, b, s + t) == BytesCodeIf(present, b, s) + t
    ensures PeerCodeIf(present, p, s + t) == PeerCodeIf(present, p, s) + t
    ensures PeerCode(p, s + t) == PeerCode(p, s) + t
    ensures EmptyVectorCodeIf(present, s + t) == EmptyVectorCodeIf(present, s) + t
  {
    hide IntCode, LongCode, BytesCode;
  }

  lemma OriginAppends(m: WireMessage, s: seq<byte>, t: seq<byte>)
    requires m.WireText?
    ensures OriginCode(m, s + t) == OriginCode(m, s) + t
  {
    hide IntCodeIf, LongCodeIf, PeerCodeIf, PeerCode, Bit;
    var s6 := LongCodeIf(Bit(m.flags2, 0), m.businessBot, s);
    var s5 := LongCodeIf(Bit(m.flags, 11), m.viaBot, s6);
    var s4 := PeerCodeIf(Bit(m.flags, 28), m.saved, s5);
    var s3 := PeerCode(m.chat, s4);
    var s2 := IntCodeIf(Bit(m.flags, 29), m.boosts, s3);
    FieldAppends(Bit(m.flags2, 0), 0, m.businessBot, [], m.chat, s, t);
    FieldAppends(Bit(m.flags, 11), 0, m.viaBot, [], m.chat, s6, t);
    FieldAppends(Bit(m.flags, 28), 0, 0, [], m.saved, s5, t);
    FieldAppends(true, 0, 0, [], m.chat, s4, t);
    FieldAppends(Bit(m.flags, 29), m.boosts, 0, [], m.chat, s3, t);
    FieldAppends(Bit(m.flags, 8), 0, 0, [], m.from, s2, t);
  }

  lemma EntitiesAndCountsAppend(m: WireMessage, s: seq<byte>, t: seq<byte>)
    requires m.WireText?
    ensures EntitiesAndCountsCode(m, s + t) == EntitiesAndCountsCode(m, s) + t
  {
    hide IntCodeIf, EntitiesCodeIf, Bit;
    var s3 := IntCodeIf(Bit(m.flags, 10), m.forwards, s);
    FieldAppends(Bit(m.flags, 10), m.forwards, 0, [], m.chat, s, t);
    FieldAppends(Bit(m.flags, 10), m.views, 0, [], m.chat, s3, t);
    EntitiesIfAppends(Bit(m.flags, 7), m.entities, IntCodeIf(Bit(m.flags, 10), m.views, s3), t);
  }

  lemma FirstFlagsAppend(m: WireMessage, s: seq<byte>, t: seq<byte>)
    requires m.WireText?
    ensures FirstFlagsCode(m, s + t) == FirstFlagsCode(m, s) + t
  {
    hide IntCodeIf, LongCodeIf, BytesCodeIf, EmptyVectorCodeIf, Bit;
    var s6 := IntCodeIf(Bit(m.flags, 30), m.shortcut, s);
    var s5 := IntCodeIf(Bit(m.flags, 25), m.ttl, s6);
    var s4 := EmptyVectorCodeIf(Bit(m.flags, 22), s5);
    var s3 := LongCodeIf(Bit(m.flags, 17), m.group, s4);
    var s2 := BytesCodeIf(Bit(m.flags, 16), m.author, s3);
    FieldAppends(Bit(m.flags, 30), m.shortcut, 0, [], m.chat, s, t);
    FieldAppends(Bit(m.flags, 25), m.ttl, 0, [], m.chat, s6, t);
    FieldAppends(Bit(m.flags, 22), 0, 0, [], m.chat, s5, t);
    FieldAppends(Bit(m.flags, 17), 0, m.group, [], m.chat, s4, t);
    FieldAppends(Bit(m.flags, 16), 0, 0, m.author, m.chat, s3, t);
    FieldAppends(Bit(m.flags, 15), m.edited, 0, [], m.chat, s2, t);
  }

  lemma SecondFlagsAppend(m: WireMessage, s: seq<byte>, t: seq<byte>)
    requires m.WireText?
    ensures SecondFlagsCode(m, s + t) == SecondFlagsCode(m, s) + t
  {
    hide IntCodeIf, LongCodeIf, Bit;
    var s3 := LongCodeIf(Bit(m.flags2, 6), m.paid, s);
    var s2 := IntCodeIf(Bit(m.flags2, 5), m.reportUntil, s3);
    FieldAppends(Bit(m.flags2, 6), 0, m.paid, [], m.chat, s, t);
    FieldAppends(Bit(m.flags2, 5), m.reportUntil, 0, [], m.chat, s3, t);
    FieldAppends(Bit(m.flags2, 2), 0, m.effect, [], m.chat, s2, t);
  }

  lemma MessageAppends(m: WireMessage, s: seq<byte>, t: seq<byte>)
    ensures MessageCode(m, s + t) == MessageCode(m, s) + t
  {
    hide IntCode, BytesCode, OriginCode, EntitiesAndCountsCode, FirstFlagsCode, SecondFlagsCode, PeerCodeIf, Bit;
    match m
    case WireEmpty(flags, _, peer) =>
      FieldAppends(Bit(flags, 0), 0, 0, [], peer, s, t);
    case WireText(_, _, _, _, _, _, _, _, _, _, _, _, _, _, _, _, _, _, _, _, _, _) =>
      var s8 := SecondFlagsCode(m, s);
      var s7 := FirstFlagsCode(m, s8);
      var s6 := EntitiesAndCountsCode(m, s7);
      var s4 := IntCode(U32(m.date)) + (BytesCode(m.text) + s6);
      SecondFlagsAppend(m, s, t);
      FirstFlagsAppend(m, s8, t);
      EntitiesAndCountsAppend(m, s7, t);
      assert IntCode(U32(m.date)) + (BytesCode(m.text) + (s6 + t)) == s4 + t;
      OriginAppends(m, s4, t);
  }

  /** The consumed front of an encoding followed by t is the encoding itself. */
  lemma RawOfMessage(m: WireMessage, t: seq<byte>)
    ensures var s := MessageCode(m, t);
            |s| >= |t| && s[..|s| - |t|] == MessageCode(m, [])
  {
    hide MessageCode;
    MessageAppends(m, [], t);
    assert [] + t == t;
  }

  lemma RawOfUpdate(u: WireUpdate, t: seq<byte>)
    ensures var s := UpdateBodyCode(u, t);
            |s| >= |t| && s[..|s| - |t|] == UpdateBodyCode(u, [])
  {
    hide MessageCode, IntCode;
    var counters := IntCode(u.pts) + (IntCode(u.ptsCount) + []);
    MessageAppends(u.message, counters, t);
    assert counters + t == IntCode(u.pts) + (IntCode(u.ptsCount) + t);
  }

  lemma ReadWithRawCode(m: WireMessage, t: seq<byte>)
    requires ValidMessage(m)
    ensures ReadWithRaw(MessageCode(m, t)) == Ok(WithRaw(MessageMeaning(m), MessageCode(m, [])), t)
  {
    hide ReadMessage, MessageCode, ValidMessage, MessageMeaning, WithRaw;
    ReadMessageCode(m, t);
    RawOfMessage(m, t);
  }

  lemma MessageCodesStep(ms: seq<WireMessage>, t: seq<byte>)
    requires AllValid(ms)
    ensures ms == [] ==> MessageCodes(ms, t) == t && Texts(ms) == []
    ensures ms != [] ==>
              && ValidMessage(ms[0]) && AllValid(ms[1..])
              && MessageCodes(ms, t) == MessageCode(ms[0], MessageCodes(ms[1..], t))
              && Texts(ms) == WithRaw(MessageMeaning(ms[0]), MessageCode(ms[0], [])) + Texts(ms[1..])
  {
    hide MessageCode, ValidMessage, MessageMeaning, WithRaw;
  }

  lemma NothingFrom(s: seq<byte>)
    ensures MessagesFrom(s, 0) == Ok([], s)
  {
  }

  lemma {:induction false} MessagesFromCodes(ms: seq<WireMessage>, t: seq<byte>)
    requires AllValid(ms)
    ensures MessagesFrom(MessageCodes(ms, t), |ms|) == Ok(Texts(ms), t)
    decreases |ms|
  {
    hide ReadWithRaw, MessageCode, MessageCodes, ValidMessage, AllValid, Texts, MessageMeaning, WithRaw, MessagesFrom;
    MessageCodesStep(ms, t);
    if ms == [] {
      NothingFrom(t);
    } else {
      var later := MessageCodes(ms[1..], t);
      ReadWithRawCode(ms[0], later);
      MessagesFromCodes(ms[1..], t);
      MessagesFromStep(MessageCode(ms[0], later), |ms|);
    }
  }

  lemma ReadUpdateBodyCode(u: WireUpdate, t: seq<byte>)
    requires ValidMessage(u.message)
    ensures ReadUpdateBody(UpdateBodyCode(u, t)) == Ok(WithRaw(MessageMeaning(u.message), UpdateBodyCode(u, [])), t)
  {
    hide ReadMessage, MessageCode, ValidMessage, MessageMeaning, WithRaw, ReadInt, IntCode;
    ReadMessageCode(u.message, IntCode(u.pts) + (IntCode(u.ptsCount) + t));
    ReadIntCode(u.pts, IntCode(u.ptsCount) + t);
    ReadIntCode(u.ptsCount, t);
    RawOfUpdate(u, t);
  }

  /** Reading stops at the first update without a message, whatever bytes follow its constructor. */
  lemma {:induction false} UpdatesFromCodes(us: seq<WireUpdate>, others: nat, t: seq<byte>)
    requires AllValidUpdates(us)
    requires others > 0 ==> ReadInt(t).Ok? && !MessageUpdate(ReadInt(t).value)
    ensures var r := UpdatesFrom(UpdateCodes(us, t), |us| + others);
            r.Ok? && r.value == UpdateTexts(us)
    decreases |us|
  {
    hide ReadInt, IntCode, ReadUpdateBody, UpdateBodyCode, ValidMessage, MessageMeaning, WithRaw;
    if us != [] {
      var later := UpdateCodes(us[1..], t);
      var c := if us[0].channel then UPDATE_NEW_CHANNEL_MESSAGE else UPDATE_NEW_MESSAGE;
      ReadIntCode(c, UpdateBodyCode(us[0], later));
      ReadUpdateBodyCode(us[0], later);
      UpdatesFromCodes(us[1..], others, t);
    }
  }

  /**
   * Reading a difference inverts writing it: the messages are exactly the non-empty new
   * messages followed by the messages of the updates before the first update of another kind,
   * in order, each with its ids, peers, date, text and its own bytes.
   */
  lemma ReadDifferenceCode(scan: seq<byte> -> Option<State>, d: WireDifference)
    requires ValidDifference(d)
    ensures ReadDifference(scan, DifferenceCode(d))
            == Some(DifferenceResult(if d.slice then DIFFERENCE_SLICE else DIFFERENCE, scan(DifferenceCode(d)),
                                     Texts(d.messages) + UpdateTexts(d.updates)))
  {
    hide ReadInt, IntCode, ReadVectorHeader, MessagesFrom, UpdatesFrom, MessageCodes, UpdateCodes, Texts,
         UpdateTexts, U32;
    var c := if d.slice then DIFFERENCE_SLICE else DIFFERENCE;
    var updates := UpdatesCode(d);
    var encrypted := IntCode(VECTOR) + (IntCode(0) + updates);
    var messages := IntCode(VECTOR) + (IntCode(U32(|d.messages|)) + MessageCodes(d.messages, encrypted));
    CountWord(|d.messages|);
    CountWord(|d.updates| + d.others);
    ReadIntCode(c, messages);
    ReadVectorHeaderCode(|d.messages|, MessageCodes(d.messages, encrypted));
    MessagesFromCodes(d.messages, encrypted);
    ReadVectorHeaderCode(0, updates);
    ReadVectorHeaderCode(|d.updates| + d.others, UpdateCodes(d.updates, d.tail));
    UpdatesFromCodes(d.updates, d.others, d.tail);
  }
}
