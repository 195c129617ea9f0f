/**
 * Messages of a difference as a server builds them: optional fields that are there or not, the
 * flags words that announce them, and peers and text marks by kind. Written without any of the
 * parser's tables (mtproto/difference.go).
 */
module Posts {
  import opened Arithmetic
  import opened Bytes
  import opened Difference
  import opened TL
  import opened Wrappers

  // Flags words.

  /** The sum of the powers of two of the members of a set below n. */
  function FlagWord(bits: set<nat>, n: nat): (w: nat)
    ensures w < Pow2(n)
  {
    if n == 0 then 0 else FlagWord(bits, n - 1) + (if n - 1 in bits then Pow2(n - 1) else 0)
  }

  function Flags(bits: set<nat>): u32 {
    WordSize();
    FlagWord(bits, 32)
  }

  lemma WordSize()
    ensures Pow2(32) == 0x1_0000_0000
  {
    assert Pow2(8) == 256;
    assert Pow2(16) == 0x1_0000;
    assert Pow2(24) == 0x100_0000;
  }

  lemma {:induction false} Pow2Add(a: nat, b: nat)
    ensures Pow2(a + b) == Pow2(a) * Pow2(b)
  {
    if a > 0 {
      Pow2Add(a - 1, b);
      Reassociate(2, Pow2(a - 1), Pow2(b));
    }
  }

  lemma Reassociate(x: int, y: int, z: int)
    ensures x * (y * z) == x * y * z
  {
  }

  lemma TopBit(w: nat, d: nat, top: nat)
    requires d > 0 && w < d && top < 2
    ensures (w + d * top) / d % 2 == top
  {
    DivModUnique(w + d * top, d, top, w);
  }

  lemma LowerBit(w: nat, d: nat, half: nat)
    requires d > 0
    ensures (w + d * (2 * half)) / d % 2 == w / d % 2
  {
    var q, r := w / d, w % d;
    assert w + d * (2 * half) == d * (q + 2 * half) + r;
    DivModUnique(w + d * (2 * half), d, q + 2 * half, r);
    ModAddMultiple(q, half, 2);
  }

  /** A bit of the word is set exactly when its number is in the set. */
  lemma {:induction false} FlagWordBit(bits: set<nat>, n: nat, k: nat)
    requires k < n
    ensures NthBit(FlagWord(bits, n), k) == 1 <==> k in bits
  {
    hide Pow2;
    var w, top := FlagWord(bits, n - 1), if n - 1 in bits then 1 else 0;
    if k == n - 1 {
      TopBit(w, Pow2(k), top);
    } else {
      FlagWordBit(bits, n - 1, k);
      var half := if top == 1 then Pow2(n - 2 - k) else 0;
      UpperPower(k, n - 1);
      LowerBit(w, Pow2(k), half);
    }
  }

  lemma UpperPower(k: nat, n: nat)
    requires k < n
    ensures Pow2(n) == Pow2(k) * (2 * Pow2(n - 1 - k))
  {
    assert Pow2(n - k) == 2 * Pow2(n - k - 1);
    hide Pow2;
    Pow2Add(k, n - k);
  }

  /** The flags word of a set of bit numbers has exactly these bits. */
  lemma FlagsBit(bits: set<nat>, k: nat)
    requires k < 32
    ensures Bit(Flags(bits), k) <==> k in bits
  {
    hide Pow2, FlagWord;
    FlagWordBit(bits, 32, k);
  }

  // Messages.

  datatype Who = User(id: i64) | Group(id: i64) | Channel(id: i64)

  function WhoCode(w: Who): seq<byte> {
    IntCode(match w case User(_) => PEER_USER case Group(_) => PEER_CHAT case Channel(_) => PEER_CHANNEL)
    + LongCode(U64(w.id))
  }

  function WhoPeer(w: Who): Peer {
    Peer(w.id, match w case User(_) => "user" case Group(_) => "chat" case Channel(_) => "channel")
  }

  /** Marks on a text that carry no data of their own. */
  datatype Style =
    | Unknown | Mention | Hashtag | BotCommand | Url | Email | Bold | Italic | Code | Phone | Cashtag | Underline
    | Strike | BankCard | Spoiler

  function StyleCode(s: Style): u32 {
    match s
    case Unknown => 0xbb92ba95
    case Mention => 0xfa04579d
    case Hashtag => 0x6f635b0d
    case BotCommand => 0x6cef8ac7
    case Url => 0x6ed02538
    case Email => 0x64e475c2
    case Bold => 0xbd610bc9
    case Italic => 0x826f8b60
    case Code => 0x28a20571
    case Phone => 0x9b69e34b
    case Cashtag => 0x4c4e743f
    case Underline => 0x9c4e7e8b
    case Strike => 0xbf0693d4
    case BankCard => 0x761e6af4
    case Spoiler => 0x32ca960f
  }

  /** A mark on a text: a plain one, a code block or link with text, a mention or emoji with an id, a quote. */
  datatype Mark =
    | Styled(style: Style, offset: u32, length: u32)
    | CodeBlock(offset: u32, length: u32, language: seq<byte>)
    | TextUrl(offset: u32, length: u32, url: seq<byte>)
    | MentionName(offset: u32, length: u32, userId: u64)
    | CustomEmoji(offset: u32, length: u32, documentId: u64)
    | Blockquote(flags: u32, offset: u32, length: u32)

  ghost predicate ValidMark(m: Mark) {
    match m
    case CodeBlock(_, _, text) => |text| < 0x100_0000
    case TextUrl(_, _, text) => |text| < 0x100_0000
    case _ => true
  }

  function MarkCode(m: Mark): seq<byte> {
    match m
    case Styled(style, offset, length) => IntCode(StyleCode(style)) + IntCode(offset) + IntCode(length)
    case CodeBlock(offset, length, language) =>
      IntCode(0x73924be0) + IntCode(offset) + IntCode(length) + BytesCode(language)
    case TextUrl(offset, length, url) => IntCode(0x76a6d327) + IntCode(offset) + IntCode(length) + BytesCode(url)
    case MentionName(offset, length, id) => IntCode(0x352dca58) + IntCode(offset) + IntCode(length) + LongCode(id)
    case CustomEmoji(offset, length, id) => IntCode(0xc8cf05f8) + IntCode(offset) + IntCode(length) + LongCode(id)
    case Blockquote(flags, offset, length) => IntCode(0x20df5d0) + IntCode(flags) + IntCode(offset) + IntCode(length)
  }

  function MarksCode(ms: seq<Mark>): seq<byte> {
    if ms == [] then [] else MarkCode(ms[0]) + MarksCode(ms[1..])
  }

  datatype Post = Post(
    id: i32, from: Option<Who>, boosts: Option<u32>, chat: Who, saved: Option<Who>, viaBot: Option<u64>,
    businessBot: Option<u64>, date: i32, text: seq<byte>, marks: Option<seq<Mark>>, counts: Option<(u32, u32)>,
    edited: Option<u32>, author: Option<seq<byte>>, group: Option<u64>, restricted: bool, ttl: Option<u32>,
    shortcut: Option<u32>, effect: Option<u64>, reportUntil: Option<u32>, paid: Option<u64>,
    others: set<nat>, others2: set<nat>)

  /** Bits of the two flags words that announce fields the parser refuses. */
  const REFUSED: set<nat> := {2, 3, 6, 9, 20, 23}

  const REFUSED2: set<nat> := {3, 7}

  /** Texts and counts fit their words, and nothing the parser refuses is announced. */
  ghost predicate ValidPost(p: Post) {
    && |p.text| < 0x100_0000 && (p.author.Some? ==> |p.author.value| < 0x100_0000)
    && (p.marks.Some? ==> ValidMarks(p.marks.value))
    && p.others !! REFUSED && p.others2 !! REFUSED2
  }

  ghost predicate ValidMarks(ms: seq<Mark>) {
    |ms| < 0x1_0000_0000 && forall i :: 0 <= i < |ms| ==> ValidMark(ms[i])
  }

  /** Whether bit k of the first flags word is set: it announces a field, or nothing the parser knows. */
  predicate FirstBit(p: Post, k: nat) {
    match k
    case 7 => p.marks.Some?
    case 8 => p.from.Some?
    case 10 => p.counts.Some?
    case 11 => p.viaBot.Some?
    case 15 => p.edited.Some?
    case 16 => p.author.Some?
    case 17 => p.group.Some?
    case 22 => p.restricted
    case 25 => p.ttl.Some?
    case 28 => p.saved.Some?
    case 29 => p.boosts.Some?
    case 30 => p.shortcut.Some?
    case _ => k in p.others
  }

  predicate SecondBit(p: Post, k: nat) {
    match k
    case 0 => p.businessBot.Some?
    case 2 => p.effect.Some?
    case 5 => p.reportUntil.Some?
    case 6 => p.paid.Some?
    case _ => k in p.others2
  }

  function FirstBits(p: Post): set<nat> {
    set k: nat | k < 32 && FirstBit(p, k)
  }

  function SecondBits(p: Post): set<nat> {
    set k: nat | k < 32 && SecondBit(p, k)
  }

  function FirstFlags(p: Post): u32 {
    Flags(FirstBits(p))
  }

  function SecondFlags(p: Post): u32 {
    Flags(SecondBits(p))
  }

  function OptInt(v: Option<u32>): seq<byte> {
    if v.Some? then IntCode(v.value) else []
  }

  function OptLong(v: Option<u64>): seq<byte> {
    if v.Some? then LongCode(v.value) else []
  }

  function OptBytes(v: Option<seq<byte>>): seq<byte> {
    if v.Some? then BytesCode(v.value) else []
  }

  function OptWho(v: Option<Who>): seq<byte> {
    if v.Some? then WhoCode(v.value) else []
  }

  function OptMarks(v: Option<seq<Mark>>): seq<byte> {
    if v.Some? then IntCode(VECTOR) + IntCode(U32(|v.value|)) + MarksCode(v.value) else []
  }

  function OptCounts(v: Option<(u32, u32)>): seq<byte> {
    if v.Some? then IntCode(v.value.0) + IntCode(v.value.1) else []
  }

  function OptNothing(present: bool): seq<byte> {
    if present then IntCode(VECTOR) + IntCode(0) else []
  }

  /** The fields before the date, between the date and the counts, and after them. */
  function OriginBytes(p: Post): seq<byte> {
    OptWho(p.from) + OptInt(p.boosts) + WhoCode(p.chat) + OptWho(p.saved) + OptLong(p.viaBot) + OptLong(p.businessBot)
  }

  function DetailBytes(p: Post): seq<byte> {
    OptInt(p.edited) + OptBytes(p.author) + OptLong(p.group) + OptNothing(p.restricted) + OptInt(p.ttl)
    + OptInt(p.shortcut)
  }

  function LatestBytes(p: Post): seq<byte> {
    OptLong(p.effect) + OptInt(p.reportUntil) + OptLong(p.paid)
  }

  /** A message with exactly the fields its flags announce. */
  function PostCode(p: Post): seq<byte> {
    IntCode(MESSAGE) + IntCode(FirstFlags(p)) + IntCode(SecondFlags(p)) + IntCode(U32(p.id))
    + OriginBytes(p) + IntCode(U32(p.date)) + BytesCode(p.text)
    + OptMarks(p.marks) + OptCounts(p.counts) + DetailBytes(p) + LatestBytes(p)
  }

  /** What a reader of the message is told. */
  function PostText(p: Post): TextMessage {
    var from := if p.from.Some? then WhoPeer(p.from.value) else Peer(0, "");
    var chat := WhoPeer(p.chat);
    TextMessage(p.id, chat.id, from.id, chat.kind, from.kind, p.date, p.text, [])
  }

  // The message in the form the parser's own serializer takes.

  function WhoWire(w: Who): WirePeer {
    WirePeer(match w case User(_) => PEER_USER case Group(_) => PEER_CHAT case Channel(_) => PEER_CHANNEL, w.id)
  }

  lemma WhoReads(w: Who, t: seq<byte>)
    ensures WhoCode(w) + t == PeerCode(WhoWire(w), t)
    ensures ValidPeer(WhoWire(w)) && PeerMeaning(WhoWire(w)) == WhoPeer(w)
  {
    hide IntCode, LongCode;
  }

  function MarkEntity(m: Mark): Entity {
    match m
    case Styled(style, offset, length) => Entity(StyleCode(style), offset, length, 0, [], 0)
    case CodeBlock(offset, length, language) => Entity(0x73924be0, offset, length, 0, language, 0)
    case TextUrl(offset, length, url) => Entity(0x76a6d327, offset, length, 0, url, 0)
    case MentionName(offset, length, id) => Entity(0x352dca58, offset, length, 0, [], id)
    case CustomEmoji(offset, length, id) => Entity(0xc8cf05f8, offset, length, 0, [], id)
    case Blockquote(flags, offset, length) => Entity(0x20df5d0, flags, offset, length, [], 0)
  }

  lemma MarkShape(m: Mark)
    ensures ShapeOf(MarkEntity(m).constructorId)
            == Some(match m
                    case Styled(_, _, _) => TwoInts
                    case CodeBlock(_, _, _) => TwoIntsAndText
                    case TextUrl(_, _, _) => TwoIntsAndText
                    case MentionName(_, _, _) => TwoIntsAndLong
                    case CustomEmoji(_, _, _) => TwoIntsAndLong
                    case Blockquote(_, _, _) => ThreeInts)
  {
  }

  lemma MarkReads(m: Mark, t: seq<byte>)
    requires ValidMark(m)
    ensures ValidEntity(MarkEntity(m)) && EntityCode(MarkEntity(m), t) == MarkCode(m) + t
  {
    hide IntCode, LongCode, BytesCode, ShapeOf, StyleCode;
    MarkShape(m);
    var e := MarkEntity(m);
    var c, first, second := IntCode(e.constructorId), IntCode(e.first), IntCode(e.second);
    ThreeParts(c, first, second, t);
    FourParts(c, first, second, IntCode(e.third), t);
    FourParts(c, first, second, BytesCode(e.text), t);
    FourParts(c, first, second, LongCode(e.id), t);
  }

  function MarkEntities(ms: seq<Mark>): (es: seq<Entity>)
    ensures |es| == |ms|
    ensures forall i :: 0 <= i < |ms| ==> es[i] == MarkEntity(ms[i])
  {
    seq(|ms|, i requires 0 <= i < |ms| => MarkEntity(ms[i]))
  }

  lemma {:induction false} MarksRead(ms: seq<Mark>, t: seq<byte>)
    requires forall i :: 0 <= i < |ms| ==> ValidMark(ms[i])
    ensures EntityCodes(MarkEntities(ms), t) == MarksCode(ms) + t
    decreases |ms|
  {
    hide MarkCode, MarkEntity, ValidMark, EntityCode;
    if ms == [] {
      assert MarkEntities(ms) == [] && [] + t == t;
    } else {
      assert MarkEntities(ms)[1..] == MarkEntities(ms[1..]);
      MarksRead(ms[1..], t);
      MarkReads(ms[0], MarksCode(ms[1..]) + t);
      assert MarkCode(ms[0]) + (MarksCode(ms[1..]) + t) == MarksCode(ms) + t;
    }
  }

  function Or<T>(v: Option<T>, default: T): T {
    if v.Some? then v.value else default
  }

  /** The parser's form: the flags words with a value for every field, read or not. */
  function PostWire(p: Post): WireMessage {
    WireText(FirstFlags(p), SecondFlags(p), p.id, WhoWire(Or(p.from, p.chat)), Or(p.boosts, 0),
             WhoWire(p.chat), WhoWire(Or(p.saved, p.chat)), Or(p.viaBot, 0), Or(p.businessBot, 0), p.date, p.text,
             MarkEntities(Or(p.marks, [])), Or(p.counts, (0, 0)).0, Or(p.counts, (0, 0)).1, Or(p.edited, 0),
             Or(p.author, []), Or(p.group, 0), Or(p.ttl, 0), Or(p.shortcut, 0), Or(p.effect, 0), Or(p.reportUntil, 0),
             Or(p.paid, 0))
  }

  lemma FirstFlagsBit(p: Post, k: nat)
    requires k < 32
    ensures Bit(FirstFlags(p), k) <==> FirstBit(p, k)
  {
    hide Flags, Bit, FirstBit;
    FlagsBit(FirstBits(p), k);
  }

  lemma SecondFlagsBit(p: Post, k: nat)
    requires k < 32
    ensures Bit(SecondFlags(p), k) <==> SecondBit(p, k)
  {
    hide Flags, Bit, SecondBit;
    FlagsBit(SecondBits(p), k);
  }

  lemma NothingRefused(p: Post)
    requires ValidPost(p)
    ensures !Unsupported(FirstFlags(p), SecondFlags(p))
  {
    hide FirstFlags, SecondFlags, Bit;
    FirstFlagsBit(p, 2);
    FirstFlagsBit(p, 3);
    FirstFlagsBit(p, 6);
    FirstFlagsBit(p, 9);
    FirstFlagsBit(p, 20);
    FirstFlagsBit(p, 23);
    SecondFlagsBit(p, 3);
    SecondFlagsBit(p, 7);
    assert forall k: nat :: k in REFUSED ==> k !in p.others;
    assert forall k: nat :: k in REFUSED2 ==> k !in p.others2;
  }

  // Field by field.

  lemma IntField(v: Option<u32>, t: seq<byte>)
    ensures OptInt(v) + t == IntCodeIf(v.Some?, Or(v, 0), t)
  {
    assert [] + t == t;
  }

  lemma LongField(v: Option<u64>, t: seq<byte>)
    ensures OptLong(v) + t == LongCodeIf(v.Some?, Or(v, 0), t)
  {
    assert [] + t == t;
  }

  lemma BytesField(v: Option<seq<byte>>, t: seq<byte>)
    ensures OptBytes(v) + t == BytesCodeIf(v.Some?, Or(v, []), t)
  {
    assert [] + t == t;
  }

  lemma WhoField(v: Option<Who>, default: Who, t: seq<byte>)
    ensures OptWho(v) + t == PeerCodeIf(v.Some?, WhoWire(Or(v, default)), t)
  {
    hide WhoCode, WhoWire, PeerCode;
    assert [] + t == t;
    if v.Some? {
      WhoReads(v.value, t);
    }
  }

  lemma EmptyField(present: bool, t: seq<byte>)
    ensures OptNothing(present) + t == EmptyVectorCodeIf(present, t)
  {
    hide IntCode;
    assert [] + t == t;
    assert IntCode(VECTOR) + IntCode(0) + t == IntCode(VECTOR) + (IntCode(0) + t);
  }

  lemma CountsField(v: Option<(u32, u32)>, t: seq<byte>)
    ensures OptCounts(v) + t
            == IntCodeIf(v.Some?, Or(v, (0, 0)).0, IntCodeIf(v.Some?, Or(v, (0, 0)).1, t))
  {
    hide IntCode;
    assert [] + t == t;
    if v.Some? {
      var a, b := IntCode(v.value.0), IntCode(v.value.1);
      assert a + b + t == a + (b + t);
    }
  }

  lemma MarksField(v: Option<seq<Mark>>, t: seq<byte>)
    requires v.Some? ==> ValidMarks(v.value)
    ensures OptMarks(v) + t == EntitiesCodeIf(v.Some?, MarkEntities(Or(v, [])), t)
  {
    hide IntCode, MarksCode, EntityCodes, ValidMark;
    assert [] + t == t;
    if v.Some? {
      MarksRead(v.value, t);
      var a, b := IntCode(VECTOR), IntCode(U32(|v.value|));
      assert a + b + MarksCode(v.value) + t == a + (b + (MarksCode(v.value) + t));
    }
  }

  // Group by group.

  lemma OriginAgrees(p: Post, t: seq<byte>)
    ensures OriginBytes(p) + t == OriginCode(PostWire(p), t)
  {
    hide FirstFlags, SecondFlags, Bit, OptWho, OptInt, OptLong, WhoCode, PeerCode, PeerCodeIf, IntCodeIf, LongCodeIf,
         WhoWire, MarkEntities;
    FirstFlagsBit(p, 8);
    FirstFlagsBit(p, 29);
    FirstFlagsBit(p, 28);
    FirstFlagsBit(p, 11);
    SecondFlagsBit(p, 0);
    var t5 := OptLong(p.businessBot) + t;
    var t4 := OptLong(p.viaBot) + t5;
    var t3 := OptWho(p.saved) + t4;
    var t2 := WhoCode(p.chat) + t3;
    var t1 := OptInt(p.boosts) + t2;
    assert OriginBytes(p) + t == OptWho(p.from) + t1;
    LongField(p.businessBot, t);
    LongField(p.viaBot, t5);
    WhoField(p.saved, p.chat, t4);
    WhoReads(p.chat, t3);
    IntField(p.boosts, t2);
    WhoField(p.from, p.chat, t1);
  }

  lemma EntitiesAndCountsAgree(p: Post, t: seq<byte>)
    requires ValidPost(p)
    ensures OptMarks(p.marks) + (OptCounts(p.counts) + t) == EntitiesAndCountsCode(PostWire(p), t)
  {
    hide FirstFlags, SecondFlags, Bit, OptMarks, OptCounts, EntitiesCodeIf, IntCodeIf, WhoWire, MarkEntities,
         ValidMarks;
    FirstFlagsBit(p, 7);
    FirstFlagsBit(p, 10);
    CountsField(p.counts, t);
    MarksField(p.marks, OptCounts(p.counts) + t);
  }

  lemma DetailAgrees(p: Post, t: seq<byte>)
    ensures DetailBytes(p) + t == FirstFlagsCode(PostWire(p), t)
  {
    hide FirstFlags, SecondFlags, Bit, OptInt, OptLong, OptBytes, OptNothing, IntCodeIf, LongCodeIf, BytesCodeIf,
         EmptyVectorCodeIf, WhoWire, MarkEntities;
    FirstFlagsBit(p, 15);
    FirstFlagsBit(p, 16);
    FirstFlagsBit(p, 17);
    FirstFlagsBit(p, 22);
    FirstFlagsBit(p, 25);
    FirstFlagsBit(p, 30);
    var t5 := OptInt(p.shortcut) + t;
    var t4 := OptInt(p.ttl) + t5;
    var t3 := OptNothing(p.restricted) + t4;
    var t2 := OptLong(p.group) + t3;
    var t1 := OptBytes(p.author) + t2;
    assert DetailBytes(p) + t == OptInt(p.edited) + t1;
    IntField(p.shortcut, t);
    IntField(p.ttl, t5);
    EmptyField(p.restricted, t4);
    LongField(p.group, t3);
    BytesField(p.author, t2);
    IntField(p.edited, t1);
  }

  lemma LatestAgrees(p: Post, t: seq<byte>)
    ensures LatestBytes(p) + t == SecondFlagsCode(PostWire(p), t)
  {
    hide FirstFlags, SecondFlags, Bit, OptInt, OptLong, IntCodeIf, LongCodeIf, WhoWire, MarkEntities;
    SecondFlagsBit(p, 2);
    SecondFlagsBit(p, 5);
    SecondFlagsBit(p, 6);
    var t2 := OptLong(p.paid) + t;
    var t1 := OptInt(p.reportUntil) + t2;
    assert LatestBytes(p) + t == OptLong(p.effect) + t1;
    LongField(p.paid, t);
    IntField(p.reportUntil, t2);
    LongField(p.effect, t1);
  }

  /** The parts of a message one after the other, with what follows it. */
  lemma PostParts(p: Post, t: seq<byte>)
    ensures PostCode(p) + t
            == IntCode(MESSAGE) + (IntCode(FirstFlags(p)) + (IntCode(SecondFlags(p)) + (IntCode(U32(p.id))
               + (OriginBytes(p) + (IntCode(U32(p.date)) + (BytesCode(p.text) + (OptMarks(p.marks)
                  + (OptCounts(p.counts) + (DetailBytes(p) + (LatestBytes(p) + t))))))))))
  {
    hide FirstFlags, SecondFlags, OriginBytes, OptMarks, OptCounts, DetailBytes, LatestBytes, IntCode, BytesCode, U32;
    var w4 := IntCode(MESSAGE) + IntCode(FirstFlags(p)) + IntCode(SecondFlags(p)) + IntCode(U32(p.id));
    var w7 := w4 + OriginBytes(p) + IntCode(U32(p.date)) + BytesCode(p.text);
    var w10 := w7 + OptMarks(p.marks) + OptCounts(p.counts) + DetailBytes(p);
    var t10 := LatestBytes(p) + t;
    var t7 := OptMarks(p.marks) + (OptCounts(p.counts) + (DetailBytes(p) + t10));
    var t4 := OriginBytes(p) + (IntCode(U32(p.date)) + (BytesCode(p.text) + t7));
    TwoParts(w10, LatestBytes(p), t);
    FourParts(w7, OptMarks(p.marks), OptCounts(p.counts), DetailBytes(p), t10);
    FourParts(w4, OriginBytes(p), IntCode(U32(p.date)), BytesCode(p.text), t7);
    FourParts(IntCode(MESSAGE), IntCode(FirstFlags(p)), IntCode(SecondFlags(p)), IntCode(U32(p.id)), t4);
  }

  lemma PostAgrees(p: Post, t: seq<byte>)
    requires ValidPost(p)
    ensures PostCode(p) + t == MessageCode(PostWire(p), t)
  {
    hide FirstFlags, SecondFlags, Bit, OriginBytes, OptMarks, OptCounts, DetailBytes, LatestBytes, OriginCode,
         EntitiesAndCountsCode, FirstFlagsCode, SecondFlagsCode, IntCode, BytesCode, U32, WhoWire, MarkEntities,
         ValidMarks;
    var t7 := LatestBytes(p) + t;
    var t6 := DetailBytes(p) + t7;
    var t5 := OptMarks(p.marks) + (OptCounts(p.counts) + t6);
    var t4 := BytesCode(p.text) + t5;
    var t3 := IntCode(U32(p.date)) + t4;
    PostParts(p, t);
    LatestAgrees(p, t);
    DetailAgrees(p, t7);
    EntitiesAndCountsAgree(p, t6);
    OriginAgrees(p, t3);
  }

  lemma WireIsValid(p: Post)
    requires ValidPost(p)
    ensures ValidMessage(PostWire(p)) && MessageMeaning(PostWire(p)) == Some(PostText(p))
  {
    hide FirstFlags, SecondFlags, Bit, WhoWire, WhoPeer, ValidPeer, PeerMeaning, MarkEntity, ValidEntity, ValidMark,
         Unsupported, MarkEntities;
    NothingRefused(p);
    FirstFlagsBit(p, 8);
    WhoReads(p.chat, []);
    WhoReads(Or(p.from, p.chat), []);
    WhoReads(Or(p.saved, p.chat), []);
    var ms := Or(p.marks, []);
    forall i | 0 <= i < |ms|
      ensures ValidEntity(MarkEntities(ms)[i])
    {
      MarkReads(ms[i], []);
    }
  }

  /**
   * A message is read back with its sender, chat, date and text, whichever of the other fields it
   * has and whatever they hold; what follows is untouched.
   */
  lemma ReadPost(p: Post, t: seq<byte>)
    requires ValidPost(p)
    ensures ReadMessage(PostCode(p) + t) == Ok(Some(PostText(p)), t)
  {
    hide ReadMessage, PostCode, MessageCode, ValidMessage, MessageMeaning, PostText, ValidPost, PostWire;
    PostAgrees(p, t);
    WireIsValid(p);
    ReadMessageCode(PostWire(p), t);
  }

  /** The smallest message, word by word: a user writes in a group, and nothing else is announced. */
  lemma ReadPlainMessage(id: i32, user: i64, chat: i64, date: i32, text: seq<byte>, t: seq<byte>)
    requires |text| < 0x100_0000
    ensures ReadMessage(IntCode(0x9815cec8) + IntCode(256) + IntCode(0) + IntCode(U32(id))
                        + (IntCode(0x59511722) + LongCode(U64(user))) + (IntCode(0x36c6019a) + LongCode(U64(chat)))
                        + IntCode(U32(date)) + BytesCode(text) + t)
            == Ok(Some(TextMessage(id, chat, user, "chat", "user", date, text, [])), t)
  {
    var p := Post(id, Some(User(user)), None, Group(chat), None, None, None, date, text, None, None, None, None, None,
                  false, None, None, None, None, None, {}, {});
    hide IntCode, LongCode, BytesCode, U32, U64, ReadMessage, FirstFlags, SecondFlags;
    PlainFlags(p);
    assert ValidPost(p);
    ReadPost(p, t);
    PlainBytes(p);
  }

  ghost predicate IsPlain(p: Post) {
    && p.from.Some? && p.boosts == None && p.saved == None && p.viaBot == None && p.businessBot == None
    && p.marks == None && p.counts == None && p.edited == None && p.author == None && p.group == None
    && !p.restricted && p.ttl == None && p.shortcut == None && p.effect == None && p.reportUntil == None
    && p.paid == None && p.others == {} && p.others2 == {}
  }

  lemma PlainBytes(p: Post)
    requires IsPlain(p)
    ensures PostCode(p)
            == IntCode(MESSAGE) + IntCode(FirstFlags(p)) + IntCode(SecondFlags(p)) + IntCode(U32(p.id))
               + WhoCode(p.from.value) + WhoCode(p.chat) + IntCode(U32(p.date)) + BytesCode(p.text)
  {
    hide IntCode, WhoCode, BytesCode, FirstFlags, SecondFlags, U32;
  }

  lemma PlainFlags(p: Post)
    requires IsPlain(p)
    ensures FirstFlags(p) == 256 && SecondFlags(p) == 0
  {
    assert FirstBits(p) == {8};
    assert SecondBits(p) == {};
    OneFlag(8);
    NoHigherBits({}, 0, 32);
  }

  lemma OneFlag(k: nat)
    requires k < 32
    ensures Flags({k}) == Pow2(k)
  {
    NoHigherBits({k}, k + 1, 32);
    NoLowerBits({k}, k);
  }

  lemma {:induction false} NoLowerBits(bits: set<nat>, n: nat)
    requires forall k: nat :: k in bits ==> n <= k
    ensures FlagWord(bits, n) == 0
  {
    if n > 0 {
      NoLowerBits(bits, n - 1);
    }
  }

  lemma {:induction false} NoHigherBits(bits: set<nat>, m: nat, n: nat)
    requires m <= n && forall k: nat :: k in bits ==> k < m
    ensures FlagWord(bits, n) == FlagWord(bits, m)
  {
    if m < n {
      NoHigherBits(bits, m, n - 1);
    }
  }

  // Differences.

  /** An entry of a message vector: a message, or the trace of one, with or without its chat. */
  datatype Slot = Filled(post: Post) | Empty(id: i32, peer: Option<Who>)

  ghost predicate ValidSlot(s: Slot) {
    s.Filled? ==> ValidPost(s.post)
  }

  function SlotCode(s: Slot): seq<byte> {
    match s
    case Filled(post) => PostCode(post)
    case Empty(id, peer) =>
      IntCode(MESSAGE_EMPTY) + IntCode(if peer.Some? then 1 else 0) + IntCode(U32(id)) + OptWho(peer)
  }

  function SlotsCode(slots: seq<Slot>): seq<byte> {
    if slots == [] then [] else SlotCode(slots[0]) + SlotsCode(slots[1..])
  }

  /** An update that carries an entry and two counters, from a channel or not. */
  datatype News = News(channel: bool, slot: Slot, pts: u32, ptsCount: u32)

  /** An update after its constructor. */
  function NewsBody(n: News): seq<byte> {
    SlotCode(n.slot) + IntCode(n.pts) + IntCode(n.ptsCount)
  }

  function NewsCode(n: News): seq<byte> {
    IntCode(if n.channel then UPDATE_NEW_CHANNEL_MESSAGE else UPDATE_NEW_MESSAGE) + NewsBody(n)
  }

  function AllNewsCode(news: seq<News>): seq<byte> {
    if news == [] then [] else NewsCode(news[0]) + AllNewsCode(news[1..])
  }

  /** The messages a reader gets, each with its own bytes; an update's bytes include the counters. */
  function SlotTexts(slots: seq<Slot>): seq<TextMessage> {
    if slots == [] then []
    else (match slots[0]
          case Filled(post) => [PostText(post).(raw := PostCode(post))]
          case Empty(_, _) => []) + SlotTexts(slots[1..])
  }

  function NewsTexts(news: seq<News>): seq<TextMessage> {
    if news == [] then []
    else (match news[0].slot
          case Filled(post) => [PostText(post).(raw := NewsBody(news[0]))]
          case Empty(_, _) => []) + NewsTexts(news[1..])
  }

  /** A difference: entries, updates with an entry, `others` updates of other kinds that open `tail`. */
  datatype Report = Report(slice: bool, slots: seq<Slot>, news: seq<News>, others: nat, tail: seq<byte>)

  ghost predicate ValidReport(r: Report) {
    && |r.slots| < 0x1_0000_0000 && (forall i :: 0 <= i < |r.slots| ==> ValidSlot(r.slots[i]))
    && |r.news| + r.others < 0x1_0000_0000 && (forall i :: 0 <= i < |r.news| ==> ValidSlot(r.news[i].slot))
    && (r.others > 0 ==> ReadInt(r.tail).Ok? && !MessageUpdate(ReadInt(r.tail).value))
  }

  function ReportConstructor(r: Report): u32 {
    if r.slice then 0xa8fb1981 else 0x00f49ca0
  }

  function ReportCode(r: Report): seq<byte> {
    IntCode(ReportConstructor(r))
    + IntCode(VECTOR) + IntCode(U32(|r.slots|)) + SlotsCode(r.slots)
    + IntCode(VECTOR) + IntCode(0)
    + IntCode(VECTOR) + IntCode(U32(|r.news| + r.others)) + AllNewsCode(r.news) + r.tail
  }

  function SlotWire(s: Slot): WireMessage {
    match s
    case Filled(post) => PostWire(post)
    case Empty(id, peer) => WireEmpty(if peer.Some? then 1 else 0, id, WhoWire(Or(peer, User(0))))
  }

  lemma SlotAgrees(s: Slot, t: seq<byte>)
    requires ValidSlot(s)
    ensures SlotCode(s) + t == MessageCode(SlotWire(s), t)
    ensures ValidMessage(SlotWire(s))
    ensures MessageMeaning(SlotWire(s)) == if s.Filled? then Some(PostText(s.post)) else None
  {
    hide PostCode, PostWire, PostText, OptWho, PeerCodeIf, WhoWire, ValidPeer, PeerMeaning, IntCode, U32, ValidPost;
    match s
    case Filled(post) =>
      PostAgrees(post, t);
      WireIsValid(post);
    case Empty(id, peer) =>
      assert Pow2(0) == 1;
      WhoField(peer, User(0), t);
      WhoReads(Or(peer, User(0)), []);
      var c, flags, word := IntCode(MESSAGE_EMPTY), IntCode(if peer.Some? then 1 else 0), IntCode(U32(id));
      FourParts(c, flags, word, OptWho(peer), t);
  }

  function SlotWires(slots: seq<Slot>): (ms: seq<WireMessage>)
    ensures |ms| == |slots|
  {
    if slots == [] then [] else [SlotWire(slots[0])] + SlotWires(slots[1..])
  }

  lemma {:induction false} SlotsAgree(slots: seq<Slot>, t: seq<byte>)
    requires forall i :: 0 <= i < |slots| ==> ValidSlot(slots[i])
    ensures SlotsCode(slots) + t == MessageCodes(SlotWires(slots), t)
    ensures AllValid(SlotWires(slots)) && Texts(SlotWires(slots)) == SlotTexts(slots)
  {
    hide SlotCode, SlotWire, MessageCode, ValidMessage, MessageMeaning, PostText, PostCode, ValidSlot;
    assert [] + t == t;
    if slots != [] {
      var ms := SlotWires(slots);
      assert ms[0] == SlotWire(slots[0]) && ms[1..] == SlotWires(slots[1..]);
      SlotsAgree(slots[1..], t);
      SlotAgrees(slots[0], SlotsCode(slots[1..]) + t);
      SlotAgrees(slots[0], []);
      SlotRaw(slots[0]);
      assert SlotCode(slots[0]) + SlotsCode(slots[1..]) + t == SlotCode(slots[0]) + (SlotsCode(slots[1..]) + t);
    }
  }

  lemma SlotRaw(s: Slot)
    requires ValidSlot(s)
    ensures SlotCode(s) == MessageCode(SlotWire(s), [])
    ensures s.Filled? ==> SlotCode(s) == PostCode(s.post)
  {
    hide MessageCode, SlotWire, ValidSlot, PostCode, ValidMessage, MessageMeaning, PostText;
    SlotAgrees(s, []);
    assert SlotCode(s) + [] == SlotCode(s);
  }

  function NewsWire(n: News): WireUpdate {
    WireUpdate(n.channel, SlotWire(n.slot), n.pts, n.ptsCount)
  }

  function NewsWires(news: seq<News>): (us: seq<WireUpdate>)
    ensures |us| == |news|
  {
    if news == [] then [] else [NewsWire(news[0])] + NewsWires(news[1..])
  }

  lemma NewsAgrees(n: News, t: seq<byte>)
    requires ValidSlot(n.slot)
    ensures NewsBody(n) + t == UpdateBodyCode(NewsWire(n), t)
  {
    hide SlotCode, SlotWire, MessageCode, ValidMessage, MessageMeaning, PostText, ValidSlot, IntCode;
    ThreeParts(SlotCode(n.slot), IntCode(n.pts), IntCode(n.ptsCount), t);
    SlotAgrees(n.slot, IntCode(n.pts) + (IntCode(n.ptsCount) + t));
  }

  lemma {:induction false} AllNewsAgree(news: seq<News>, t: seq<byte>)
    requires forall i :: 0 <= i < |news| ==> ValidSlot(news[i].slot)
    ensures AllNewsCode(news) + t == UpdateCodes(NewsWires(news), t)
    ensures AllValidUpdates(NewsWires(news)) && UpdateTexts(NewsWires(news)) == NewsTexts(news)
  {
    hide SlotWire, UpdateBodyCode, NewsBody, IntCode, ValidMessage, MessageMeaning, PostText, ValidSlot, MessageCode;
    assert [] + t == t;
    if news != [] {
      var us := NewsWires(news);
      assert us[0] == NewsWire(news[0]) && us[1..] == NewsWires(news[1..]);
      var later := AllNewsCode(news[1..]) + t;
      AllNewsAgree(news[1..], t);
      NewsAgrees(news[0], later);
      NewsAgrees(news[0], []);
      assert NewsBody(news[0]) + [] == NewsBody(news[0]);
      SlotAgrees(news[0].slot, []);
      var c := IntCode(if news[0].channel then UPDATE_NEW_CHANNEL_MESSAGE else UPDATE_NEW_MESSAGE);
      ThreeParts(c, NewsBody(news[0]), AllNewsCode(news[1..]), t);
    }
  }

  function ReportWire(r: Report): WireDifference {
    WireDifference(r.slice, SlotWires(r.slots), NewsWires(r.news), r.others, r.tail)
  }

  lemma ReportAgrees(r: Report)
    requires ValidReport(r)
    ensures ValidDifference(ReportWire(r)) && DifferenceCode(ReportWire(r)) == ReportCode(r)
    ensures Texts(ReportWire(r).messages) == SlotTexts(r.slots)
    ensures UpdateTexts(ReportWire(r).updates) == NewsTexts(r.news)
  {
    hide SlotsCode, AllNewsCode, MessageCodes, UpdateCodes, IntCode, U32, SlotTexts, NewsTexts, Texts, UpdateTexts,
         AllValid, AllValidUpdates, SlotWires, NewsWires, ValidSlot, ReadInt;
    var c, v := IntCode(ReportConstructor(r)), IntCode(VECTOR);
    var updates := v + (IntCode(U32(|r.news| + r.others)) + (AllNewsCode(r.news) + r.tail));
    var encrypted := v + (IntCode(0) + updates);
    var count, words := IntCode(U32(|r.slots|)), IntCode(U32(|r.news| + r.others));
    SlotsAgree(r.slots, encrypted);
    AllNewsAgree(r.news, r.tail);
    var w4 := c + v + count + SlotsCode(r.slots);
    var w7 := w4 + v + IntCode(0) + v;
    ThreeParts(w7, words, AllNewsCode(r.news), r.tail);
    FourParts(w4, v, IntCode(0), v, words + (AllNewsCode(r.news) + r.tail));
    FourParts(c, v, count, SlotsCode(r.slots), encrypted);
    assert ReportCode(r) == c + (v + (count + (SlotsCode(r.slots) + encrypted)));
  }

  /**
   * A difference is read back as its messages, then those of its updates, in order, with sender,
   * chat, date, text and bytes of each; entries without a message leave nothing.
   */
  lemma ReadReport(scan: seq<byte> -> Option<State>, r: Report)
    requires ValidReport(r)
    ensures ReadDifference(scan, ReportCode(r))
            == Some(DifferenceResult(ReportConstructor(r), scan(ReportCode(r)),
                                     SlotTexts(r.slots) + NewsTexts(r.news)))
  {
    hide ReadDifference, ReportCode, DifferenceCode, SlotTexts, NewsTexts, Texts, UpdateTexts, ValidDifference,
         ValidReport;
    ReportAgrees(r);
    ReadDifferenceCode(scan, ReportWire(r));
  }

  /** The two differences without messages carry a date and a sequence number, or a counter. */
  lemma ReadShortReports(scan: seq<byte> -> Option<State>, date: i32, seqNo: i32, pts: i32, t: seq<byte>)
    ensures ReadDifference(scan, IntCode(0x5d75a138) + (IntCode(U32(date)) + (IntCode(U32(seqNo)) + t)))
            == Some(DifferenceResult(0x5d75a138, Some(State(0, 0, date, seqNo)), []))
    ensures ReadDifference(scan, IntCode(0x4afe8f6d) + (IntCode(U32(pts)) + t))
            == Some(DifferenceResult(0x4afe8f6d, Some(State(pts, 0, 0, 0)), []))
  {
    hide ReadInt, IntCode, U32, Wrap32, DifferenceMessages;
    ReadIntCode(0x5d75a138, IntCode(U32(date)) + (IntCode(U32(seqNo)) + t));
    ReadIntCode(U32(date), IntCode(U32(seqNo)) + t);
    ReadIntCode(U32(seqNo), t);
    ReadIntCode(0x4afe8f6d, IntCode(U32(pts)) + t);
    ReadIntCode(U32(pts), t);
    Wrap32U32(date);
    Wrap32U32(seqNo);
    Wrap32U32(pts);
  }
}
