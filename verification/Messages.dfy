/**
 * What an inbound message body means (mtproto/invoke.go, handleMessage and
 * parseRPCResultObject): nested containers as a flat sequence of leaves, scanned from left to
 * right until the first result or error.
 */
module Messages {
  import opened Bytes
  import opened TL
  import opened Wrappers

  const RPC_RESULT: u32 := 0xf35c6d01
  const RPC_ERROR: u32 := 0x2144ca19
  const MSG_CONTAINER: u32 := 0x73f1f8dc
  const BAD_MSG_NOTIFICATION: u32 := 0xa7eff811
  const BAD_SERVER_SALT: u32 := 0xedab447b
  const NEW_SESSION_CREATED: u32 := 0x9ec20908
  const GZIP_PACKED: u32 := 0x3072cfa1

  /** Library calls on payloads: decompression, and the trimming of error texts. */
  datatype Decoders = Decoders(gunzip: seq<byte> -> Option<seq<byte>>, clean: seq<byte> -> seq<byte>)

  datatype Error =
    | Malformed
    | RpcError(code: i32, message: seq<byte>)
    | BadServerSalt(badMsgId: i64, badSeqNo: i32, errorCode: i32, newSalt: i64)
    | BadMessage(badMsgId: i64, badSeqNo: i32, errorCode: i32)
    | ReadFailed
    | WriteFailed
    | BadPacket
    | NoRandomness
    | RetryLimit

  /** The errors that reading a message can raise. */
  predicate FromMessage(error: Error) {
    error.Malformed? || error.RpcError? || error.BadServerSalt? || error.BadMessage?
  }

  datatype InvokeResult = InvokeResult(responseMsgId: i64, constructorId: u32, body: seq<byte>, gzipPacked: bool)

  datatype Outcome = Continue | Done(result: InvokeResult) | Failed(error: Error)

  // One leaf.

  /** parseRPCResultObject. */
  function RpcOutcome(dec: Decoders, msgId: i64, body: seq<byte>): Outcome {
    match ReadInt(body)
    case Err => Failed(Malformed)
    case Ok(constructorId, s) =>
      if constructorId == RPC_ERROR then
        match ReadInt(s)
        case Err => Failed(Malformed)
        case Ok(code, s2) =>
          (match ReadBytes(s2)
           case Err => Failed(Malformed)
           case Ok(message, _) => Failed(RpcError(Wrap32(code), dec.clean(message))))
      else if constructorId == GZIP_PACKED then
        match ReadBytes(s)
        case Err => Failed(Malformed)
        case Ok(packed, _) =>
          (match dec.gunzip(packed)
           case None => Failed(Malformed)
           case Some(unpacked) =>
             (match ReadInt(unpacked)
              case Err => Failed(Malformed)
              case Ok(inner, _) => Done(InvokeResult(msgId, inner, unpacked, true))))
      else Done(InvokeResult(msgId, constructorId, body, false))
  }

  /** The salt and the error of bad_server_salt, after its constructor. */
  function SaltOutcome(s: seq<byte>, salt: i64): (Outcome, i64) {
    match (var (badMsgId, s1) :- ReadLong(s);
           var (badSeqNo, s2) :- ReadInt(s1);
           var (code, s3) :- ReadInt(s2);
           var (newSalt, s4) :- ReadLong(s3);
           Ok(BadServerSalt(Wrap64(badMsgId), Wrap32(badSeqNo), Wrap32(code), Wrap64(newSalt)), s4))
    case Err => (Failed(Malformed), salt)
    case Ok(error, _) => (Failed(error), error.newSalt)
  }

  function BadMessageOutcome(s: seq<byte>): Outcome {
    match (var (badMsgId, s1) :- ReadLong(s);
           var (badSeqNo, s2) :- ReadInt(s1);
           var (code, s3) :- ReadInt(s2);
           Ok(BadMessage(Wrap64(badMsgId), Wrap32(badSeqNo), Wrap32(code)), s3))
    case Err => Failed(Malformed)
    case Ok(error, _) => Failed(error)
  }

  function NewSessionSalt(s: seq<byte>): Res<i64> {
    var (firstMsgId, s1) :- ReadLong(s);
    var (uniqueId, s2) :- ReadLong(s1);
    var (newSalt, s3) :- ReadLong(s2);
    Ok(Wrap64(newSalt), s3)
  }

  /** What a body that is not a container does to the pending request and to the server salt. */
  function LeafStep(dec: Decoders, msgId: i64, body: seq<byte>, requestId: i64, salt: i64): (Outcome, i64)
    requires |body| >= 4
  {
    var Ok(constructorId, s) := ReadInt(body);
    if constructorId == RPC_RESULT then
      match ReadLong(s)
      case Err => (Failed(Malformed), salt)
      case Ok(answers, rest) =>
        if Wrap64(answers) != requestId then (Continue, salt) else (RpcOutcome(dec, msgId, rest), salt)
    else if constructorId == NEW_SESSION_CREATED then
      match NewSessionSalt(s)
      case Err => (Failed(Malformed), salt)
      case Ok(newSalt, _) => (Continue, newSalt)
    else if constructorId == BAD_SERVER_SALT then SaltOutcome(s, salt)
    else if constructorId == BAD_MSG_NOTIFICATION then (BadMessageOutcome(s), salt)
    else (Continue, salt)
  }

  // The flat scan.

  /** A leaf body with its message id, or the place where the bytes stop making sense. */
  datatype Item = Leaf(msgId: i64, body: seq<byte>) | Broken

  ghost predicate LeafBody(body: seq<byte>) {
    |body| >= 4 && ReadInt(body).value != MSG_CONTAINER
  }

  /** The entry of a container at the front of s: id, sequence number, length, body, alignment. */
  function ReadChild(s: seq<byte>): (r: Res<(i64, seq<byte>)>)
    ensures Consumes(r, s, 16)
    ensures r.Ok? ==> |r.value.1| + 16 <= |s|
  {
    var (msgId, s1) :- ReadLong(s);
    var (seqNo, s2) :- ReadInt(s1);
    var (length, s3) :- ReadInt(s2);
    var (body, s4) :- ReadRaw(s3, length);
    Ok((Wrap64(msgId), body), SkipToWord(length, s4))
  }

  /** The bytes after a body of n bytes up to the next word boundary, or to the end. */
  function SkipToWord(n: nat, s: seq<byte>): (t: seq<byte>)
    ensures |t| <= |s|
  {
    var gap := Aligned(n) - n;
    if |s| < gap then [] else s[gap..]
  }

  function Flatten(msgId: i64, body: seq<byte>): seq<Item>
    decreases |body|, 0
  {
    match ReadInt(body)
    case Err => [Broken]
    case Ok(constructorId, s) =>
      if constructorId != MSG_CONTAINER then [Leaf(msgId, body)]
      else
        match ReadInt(s)
        case Err => [Broken]
        case Ok(count, s2) => FlattenChildren(s2, count)
  }

  function FlattenChildren(s: seq<byte>, count: nat): seq<Item>
    decreases |s|, count
  {
    if count == 0 then []
    else
      match ReadChild(s)
      case Err => [Broken]
      case Ok(child, t) => Flatten(child.0, child.1) + FlattenChildren(t, count - 1)
  }

  function ItemStep(dec: Decoders, item: Item, requestId: i64, salt: i64): (Outcome, i64) {
    match item
    case Broken => (Failed(Malformed), salt)
    case Leaf(msgId, body) =>
      if |body| < 4 then (Failed(Malformed), salt) else LeafStep(dec, msgId, body, requestId, salt)
  }

  /** Left to right over the items, stopping at the first result or error. */
  function Scan(dec: Decoders, items: seq<Item>, requestId: i64, salt: i64): (Outcome, i64) {
    if items == [] then (Continue, salt)
    else
      var (outcome, salt') := ItemStep(dec, items[0], requestId, salt);
      if outcome != Continue then (outcome, salt') else Scan(dec, items[1..], requestId, salt')
  }

  lemma {:induction false} ScanConcat(dec: Decoders, a: seq<Item>, b: seq<Item>, requestId: i64, salt: i64)
    ensures var (outcome, salt') := Scan(dec, a, requestId, salt);
            Scan(dec, a + b, requestId, salt)
            == if outcome != Continue then (outcome, salt') else Scan(dec, b, requestId, salt')
    decreases |a|
  {
    if a == [] {
      assert a + b == b;
    } else {
      hide ItemStep;
      assert (a + b)[1..] == a[1..] + b;
      ScanConcat(dec, a[1..], b, requestId, ItemStep(dec, a[0], requestId, salt).1);
    }
  }

  /** Scanning the entries of a container: the first entry's items, then the later entries. */
  lemma ScanChildren(dec: Decoders, s: seq<byte>, count: nat, requestId: i64, salt: i64)
    ensures Scan(dec, FlattenChildren(s, count), requestId, salt)
            == if count == 0 then (Continue, salt)
               else match ReadChild(s)
                    case Err => (Failed(Malformed), salt)
                    case Ok(child, t) =>
                      var (outcome, salt') := Scan(dec, Flatten(child.0, child.1), requestId, salt);
                      if outcome != Continue then (outcome, salt')
                      else Scan(dec, FlattenChildren(t, count - 1), requestId, salt')
  {
    hide ReadChild, LeafStep;
    if count > 0 && ReadChild(s).Ok? {
      var Ok(child, t) := ReadChild(s);
      ScanConcat(dec, Flatten(child.0, child.1), FlattenChildren(t, count - 1), requestId, salt);
    }
  }

  /** Item i is an rpc_result for the given request and yields this result. */
  ghost predicate Answers(dec: Decoders, item: Item, requestId: i64, result: InvokeResult) {
    && item.Leaf? && |item.body| >= 12
    && ReadInt(item.body).value == RPC_RESULT
    && Wrap64(ReadLong(item.body[4..]).value) == requestId
    && RpcOutcome(dec, item.msgId, item.body[12..]) == Done(result)
  }

  lemma LeafAnswers(dec: Decoders, item: Item, requestId: i64, salt: i64)
    requires ItemStep(dec, item, requestId, salt).0.Done?
    ensures Answers(dec, item, requestId, ItemStep(dec, item, requestId, salt).0.result)
    ensures ItemStep(dec, item, requestId, salt).0.result.responseMsgId == item.msgId
  {
    var s := ReadInt(item.body).rest;
    assert s == item.body[4..];
    if ReadLong(s).Ok? {
      assert ReadLong(s).rest == item.body[12..];
    }
  }

  /** An outcome raised by a message; if it is bad_server_salt, the salt it carries is installed. */
  ghost predicate Plausible(r: (Outcome, i64)) {
    r.0.Failed? ==> FromMessage(r.0.error) && (r.0.error.BadServerSalt? ==> r.1 == r.0.error.newSalt)
  }

  lemma LeafOutcomesPlausible(dec: Decoders, msgId: i64, s: seq<byte>, salt: i64)
    ensures Plausible(SaltOutcome(s, salt))
    ensures Plausible((BadMessageOutcome(s), salt))
    ensures Plausible((RpcOutcome(dec, msgId, s), salt))
  {
  }

  /**
   * A scan that ends in a result ends at an item that answers the request; one that ends in
   * bad_server_salt leaves its salt.
   */
  lemma {:induction false} ScanEnds(dec: Decoders, items: seq<Item>, requestId: i64, salt: i64)
    ensures var (outcome, salt') := Scan(dec, items, requestId, salt);
            && (outcome.Done? ==> exists item :: item in items && Answers(dec, item, requestId, outcome.result))
            && Plausible((outcome, salt'))
  {
    if items != [] {
      hide RpcOutcome, NewSessionSalt, BadMessageOutcome, SaltOutcome;
      var (outcome, salt') := ItemStep(dec, items[0], requestId, salt);
      if outcome == Continue {
        ScanEnds(dec, items[1..], requestId, salt');
      } else if outcome.Done? {
        LeafAnswers(dec, items[0], requestId, salt);
      } else {
        StepPlausible(dec, items[0], requestId, salt);
      }
    }
  }

  lemma StepPlausible(dec: Decoders, item: Item, requestId: i64, salt: i64)
    ensures Plausible(ItemStep(dec, item, requestId, salt))
  {
    hide RpcOutcome, NewSessionSalt, BadMessageOutcome, SaltOutcome;
    if item.Leaf? && |item.body| >= 4 {
      var Ok(_, s) := ReadInt(item.body);
      LeafOutcomesPlausible(dec, item.msgId, s, salt);
      if ReadLong(s).Ok? {
        LeafOutcomesPlausible(dec, item.msgId, ReadLong(s).rest, salt);
      }
    }
  }

  // Two replies as a server writes them.

  /** bad_server_salt for the fields of an error. */
  function BadSaltCode(notice: Error): seq<byte>
    requires notice.BadServerSalt?
  {
    IntCode(BAD_SERVER_SALT)
    + (LongCode(U64(notice.badMsgId)) + (IntCode(U32(notice.badSeqNo)) + (IntCode(U32(notice.errorCode))
       + LongCode(U64(notice.newSalt)))))
  }

  /** rpc_result for a request. */
  function ResultCode(requestId: i64, result: seq<byte>): seq<byte> {
    IntCode(RPC_RESULT) + (LongCode(U64(requestId)) + result)
  }

  lemma ReadBadSalt(notice: Error, salt: i64)
    requires notice.BadServerSalt?
    ensures var s := LongCode(U64(notice.badMsgId)) + (IntCode(U32(notice.badSeqNo)) + (IntCode(U32(notice.errorCode))
                     + LongCode(U64(notice.newSalt))));
            SaltOutcome(s, salt) == (Failed(notice), notice.newSalt)
  {
    hide ReadLong, ReadInt, LongCode, IntCode, U64, U32, Wrap64, Wrap32;
    var s3 := LongCode(U64(notice.newSalt));
    var s2 := IntCode(U32(notice.errorCode)) + s3;
    var s1 := IntCode(U32(notice.badSeqNo)) + s2;
    ReadLongCode(U64(notice.badMsgId), s1);
    ReadIntCode(U32(notice.badSeqNo), s2);
    ReadIntCode(U32(notice.errorCode), s3);
    ReadLongCode(U64(notice.newSalt), []);
    assert s3 + [] == s3;
    Wrap64U64(notice.badMsgId);
    Wrap32U32(notice.badSeqNo);
    Wrap32U32(notice.errorCode);
    Wrap64U64(notice.newSalt);
  }

  lemma ScanLeaf(dec: Decoders, msgId: i64, body: seq<byte>, requestId: i64, salt: i64)
    requires LeafBody(body)
    ensures Scan(dec, Flatten(msgId, body), requestId, salt) == LeafStep(dec, msgId, body, requestId, salt)
  {
    hide LeafStep;
    var items := Flatten(msgId, body);
    assert items == [Leaf(msgId, body)] && items[1..] == [];
  }

  /** A bad_server_salt ends the scan with the error it carries and leaves the salt it announces. */
  lemma ScanBadSalt(dec: Decoders, msgId: i64, notice: Error, requestId: i64, salt: i64)
    requires notice.BadServerSalt?
    ensures Scan(dec, Flatten(msgId, BadSaltCode(notice)), requestId, salt) == (Failed(notice), notice.newSalt)
  {
    var body := BadSaltCode(notice);
    var s := LongCode(U64(notice.badMsgId)) + (IntCode(U32(notice.badSeqNo)) + (IntCode(U32(notice.errorCode))
             + LongCode(U64(notice.newSalt))));
    assert body == IntCode(BAD_SERVER_SALT) + s;
    ReadIntCode(BAD_SERVER_SALT, s);
    hide ReadInt, IntCode, LongCode, Scan, Flatten, SaltOutcome, BadSaltCode, U64, U32;
    ScanLeaf(dec, msgId, body, requestId, salt);
    ReadBadSalt(notice, salt);
  }

  /** An rpc_result for the request ends the scan with what it carries. */
  lemma ScanResult(dec: Decoders, msgId: i64, requestId: i64, result: seq<byte>, salt: i64)
    ensures Scan(dec, Flatten(msgId, ResultCode(requestId, result)), requestId, salt)
            == (RpcOutcome(dec, msgId, result), salt)
  {
    var body, s := ResultCode(requestId, result), LongCode(U64(requestId)) + result;
    ReadIntCode(RPC_RESULT, s);
    ReadLongCode(U64(requestId), result);
    Wrap64U64(requestId);
    hide ReadInt, ReadLong, IntCode, LongCode, Scan, Flatten, RpcOutcome, U64, Wrap64;
    ScanLeaf(dec, msgId, body, requestId, salt);
  }

  /** bad_msg_notification for the fields of an error. */
  function NotificationCode(notice: Error): seq<byte>
    requires notice.BadMessage?
  {
    IntCode(BAD_MSG_NOTIFICATION) + LongCode(U64(notice.badMsgId)) + IntCode(U32(notice.badSeqNo))
    + IntCode(U32(notice.errorCode))
  }

  lemma ReadNotification(notice: Error, t: seq<byte>)
    requires notice.BadMessage?
    ensures var s := LongCode(U64(notice.badMsgId)) + (IntCode(U32(notice.badSeqNo)) + (IntCode(U32(notice.errorCode))
                     + t));
            BadMessageOutcome(s) == Failed(notice)
  {
    hide ReadLong, ReadInt, LongCode, IntCode, U64, U32, Wrap64, Wrap32;
    var s2 := IntCode(U32(notice.errorCode)) + t;
    var s1 := IntCode(U32(notice.badSeqNo)) + s2;
    ReadLongCode(U64(notice.badMsgId), s1);
    ReadIntCode(U32(notice.badSeqNo), s2);
    ReadIntCode(U32(notice.errorCode), t);
    Wrap64U64(notice.badMsgId);
    Wrap32U32(notice.badSeqNo);
    Wrap32U32(notice.errorCode);
  }

  lemma NotificationParts(notice: Error, t: seq<byte>)
    requires notice.BadMessage?
    ensures NotificationCode(notice) + t
            == IntCode(BAD_MSG_NOTIFICATION) + (LongCode(U64(notice.badMsgId)) + (IntCode(U32(notice.badSeqNo))
               + (IntCode(U32(notice.errorCode)) + t)))
  {
    hide IntCode, LongCode, U64, U32;
    FourParts(IntCode(BAD_MSG_NOTIFICATION), LongCode(U64(notice.badMsgId)), IntCode(U32(notice.badSeqNo)),
              IntCode(U32(notice.errorCode)), t);
  }

  /** A bad_msg_notification ends the scan with the error it carries and leaves the salt alone. */
  lemma ScanNotification(dec: Decoders, msgId: i64, notice: Error, t: seq<byte>, requestId: i64, salt: i64)
    requires notice.BadMessage?
    ensures Scan(dec, Flatten(msgId, NotificationCode(notice) + t), requestId, salt) == (Failed(notice), salt)
  {
    hide ReadInt, ReadLong, IntCode, LongCode, Scan, Flatten, BadMessageOutcome, NotificationCode, U64, U32, RpcOutcome,
         SaltOutcome, NewSessionSalt, Wrap64;
    var s := LongCode(U64(notice.badMsgId)) + (IntCode(U32(notice.badSeqNo)) + (IntCode(U32(notice.errorCode)) + t));
    NotificationParts(notice, t);
    ReadIntCode(BAD_MSG_NOTIFICATION, s);
    ReadNotification(notice, t);
    ScanLeaf(dec, msgId, IntCode(BAD_MSG_NOTIFICATION) + s, requestId, salt);
  }

  /** new_session_created ends nothing and installs the salt after its two identifiers. */
  lemma ScanNewSession(dec: Decoders, msgId: i64, first: u64, unique: u64, newSalt: i64, t: seq<byte>,
                       requestId: i64, salt: i64)
    ensures Scan(dec, Flatten(msgId, IntCode(NEW_SESSION_CREATED) + (LongCode(first) + (LongCode(unique)
                                     + (LongCode(U64(newSalt)) + t)))), requestId, salt)
            == (Continue, newSalt)
  {
    hide ReadInt, ReadLong, IntCode, LongCode, Scan, Flatten, U64, Wrap64;
    var s2 := LongCode(U64(newSalt)) + t;
    var s1 := LongCode(unique) + s2;
    var s := LongCode(first) + s1;
    ReadIntCode(NEW_SESSION_CREATED, s);
    ReadLongCode(first, s1);
    ReadLongCode(unique, s2);
    ReadLongCode(U64(newSalt), t);
    Wrap64U64(newSalt);
    ScanLeaf(dec, msgId, IntCode(NEW_SESSION_CREATED) + s, requestId, salt);
  }

  /** Constructors of a body that handleMessage looks into. */
  const HANDLED: set<u32> := {0xf35c6d01, 0x73f1f8dc, 0xa7eff811, 0xedab447b, 0x9ec20908}

  /** Results for other requests, acknowledgements and everything unknown change nothing. */
  lemma ScanIgnored(dec: Decoders, msgId: i64, body: seq<byte>, other: i64, t: seq<byte>, requestId: i64, salt: i64)
    ensures |body| >= 4 && ReadInt(body).value !in HANDLED ==>
              Scan(dec, Flatten(msgId, body), requestId, salt) == (Continue, salt)
    ensures other != requestId ==>
              Scan(dec, Flatten(msgId, ResultCode(other, t)), requestId, salt) == (Continue, salt)
  {
    ReadIntCode(RPC_RESULT, LongCode(U64(other)) + t);
    ReadLongCode(U64(other), t);
    Wrap64U64(other);
    hide ReadInt, ReadLong, IntCode, LongCode, Scan, Flatten, RpcOutcome, NewSessionSalt, SaltOutcome,
         BadMessageOutcome, U64, Wrap64;
    if |body| >= 4 && ReadInt(body).value !in HANDLED {
      ScanLeaf(dec, msgId, body, requestId, salt);
    }
    if other != requestId {
      ScanLeaf(dec, msgId, ResultCode(other, t), requestId, salt);
    }
  }

  /** Too short for its constructor, or for having one. */
  ghost predicate Truncated(body: seq<byte>) {
    |body| < 4 ||
    var constructorId, n := ReadInt(body).value, |body| - 4;
    || (constructorId == MSG_CONTAINER && n < 4)
    || (constructorId == RPC_RESULT && n < 8)
    || (constructorId == NEW_SESSION_CREATED && n < 24)
    || (constructorId == BAD_SERVER_SALT && n < 24)
    || (constructorId == BAD_MSG_NOTIFICATION && n < 16)
  }

  /** A body that is cut short is an error, and its salt is not installed. */
  lemma ScanTruncated(dec: Decoders, msgId: i64, body: seq<byte>, requestId: i64, salt: i64)
    requires Truncated(body)
    ensures Scan(dec, Flatten(msgId, body), requestId, salt) == (Failed(Malformed), salt)
  {
    hide RpcOutcome, Wrap64, Wrap32;
    if |body| >= 4 && ReadInt(body).value != MSG_CONTAINER {
      hide Scan, Flatten;
      ScanLeaf(dec, msgId, body, requestId, salt);
    } else {
      assert Flatten(msgId, body) == [Broken];
    }
  }

  // What an rpc_result carries.

  /** An rpc_error is raised with its code and its text trimmed. */
  lemma ErrorPayload(dec: Decoders, msgId: i64, code: i32, message: seq<byte>, t: seq<byte>)
    requires |message| < 0x100_0000
    ensures RpcOutcome(dec, msgId, IntCode(RPC_ERROR) + (IntCode(U32(code)) + (BytesCode(message) + t)))
            == Failed(RpcError(code, dec.clean(message)))
  {
    hide ReadInt, ReadBytes, IntCode, BytesCode, U32, Wrap32;
    ReadIntCode(RPC_ERROR, IntCode(U32(code)) + (BytesCode(message) + t));
    ReadIntCode(U32(code), BytesCode(message) + t);
    ReadBytesCode(message, t);
    Wrap32U32(code);
  }

  /** A compressed result is its decompressed bytes under their own constructor; without one it is malformed. */
  lemma PackedPayload(dec: Decoders, msgId: i64, packed: seq<byte>, constructorId: u32, rest: seq<byte>, t: seq<byte>)
    requires |packed| < 0x100_0000
    ensures var r := RpcOutcome(dec, msgId, IntCode(GZIP_PACKED) + (BytesCode(packed) + t));
            && (dec.gunzip(packed) == Some(IntCode(constructorId) + rest) ==>
                  r == Done(InvokeResult(msgId, constructorId, IntCode(constructorId) + rest, true)))
            && (dec.gunzip(packed) == None || |dec.gunzip(packed).value| < 4 ==> r == Failed(Malformed))
  {
    hide ReadInt, ReadBytes, IntCode, BytesCode;
    ReadIntCode(GZIP_PACKED, BytesCode(packed) + t);
    ReadBytesCode(packed, t);
    ReadIntCode(constructorId, rest);
  }

  /** Any other result is handed over as it came. */
  lemma PlainPayload(dec: Decoders, msgId: i64, constructorId: u32, rest: seq<byte>)
    requires constructorId != 0x2144ca19 && constructorId != 0x3072cfa1
    ensures RpcOutcome(dec, msgId, IntCode(constructorId) + rest)
            == Done(InvokeResult(msgId, constructorId, IntCode(constructorId) + rest, false))
  {
    hide ReadInt, IntCode;
    ReadIntCode(constructorId, rest);
  }

  // Trees of messages and their encodings.

  /** A message a server sends: a body that is not a container, or a container of messages. */
  datatype Tree =
    | Single(msgId: i64, seqNo: i32, content: seq<byte>)
    | Container(msgId: i64, seqNo: i32, children: seq<Tree>)

  function TreeBody(t: Tree): seq<byte> {
    match t
    case Single(_, _, content) => content
    case Container(_, _, children) => IntCode(MSG_CONTAINER) + (IntCode(U32(|children|)) + ForestCode(children))
  }

  /** The entries of a container: each body padded with zeros to whole words. */
  function ForestCode(ts: seq<Tree>): seq<byte> {
    if ts == [] then []
    else ChildCode(ts[0], TreeBody(ts[0])) + ForestCode(ts[1..])
  }

  function ChildCode(t: Tree, body: seq<byte>): seq<byte> {
    LongCode(U64(t.msgId)) + (IntCode(U32(t.seqNo)) + (IntCode(U32(|body|)) + (body + Zeros(Aligned(|body|) - |body|))))
  }

  function Leaves(t: Tree): seq<Item> {
    match t
    case Single(msgId, _, content) => [Leaf(msgId, content)]
    case Container(_, _, children) => ForestLeaves(children)
  }

  function ForestLeaves(ts: seq<Tree>): seq<Item> {
    if ts == [] then [] else Leaves(ts[0]) + ForestLeaves(ts[1..])
  }

  /** Every single message is a non-empty body that is not a container, and every length and count fits its word. */
  ghost predicate Encodable(t: Tree) {
    match t
    case Single(_, _, content) => LeafBody(content)
    case Container(_, _, children) => |children| < 0x1_0000_0000 && EncodableForest(children)
  }

  ghost predicate EncodableForest(ts: seq<Tree>) {
    ts != [] ==> Encodable(ts[0]) && |TreeBody(ts[0])| < 0x1_0000_0000 && EncodableForest(ts[1..])
  }

  lemma SmallWord(n: nat)
    requires n < 0x1_0000_0000
    ensures U32(n) == n
  {
  }

  lemma SkipPad(n: nat, pad: seq<byte>, rest: seq<byte>)
    requires |pad| == Aligned(n) - n
    ensures SkipToWord(n, pad + rest) == rest
  {
  }

  lemma ReadChildOfCode(t: Tree, body: seq<byte>, rest: seq<byte>)
    requires |body| < 0x1_0000_0000
    ensures ReadChild(ChildCode(t, body) + rest) == Ok((t.msgId, body), rest)
  {
    hide ReadLong, ReadInt, LongCode, IntCode, Aligned, U32, U64, Wrap64, SkipToWord;
    var pad := Zeros(Aligned(|body|) - |body|);
    var r3 := body + (pad + rest);
    var r2 := IntCode(U32(|body|)) + r3;
    var r1 := IntCode(U32(t.seqNo)) + r2;
    assert ChildCode(t, body) + rest == LongCode(U64(t.msgId)) + r1;
    ReadLongCode(U64(t.msgId), r1);
    ReadIntCode(U32(t.seqNo), r2);
    ReadIntCode(U32(|body|), r3);
    SmallWord(|body|);
    Wrap64U64(t.msgId);
    assert r3[..|body|] == body && r3[|body|..] == pad + rest;
    SkipPad(|body|, pad, rest);
  }

  /** Flattening the encoding of any tree, however nested, gives its leaves from left to right. */
  lemma {:induction false} FlattenTree(t: Tree)
    requires Encodable(t)
    ensures Flatten(t.msgId, TreeBody(t)) == Leaves(t)
    decreases t, 0
  {
    match t
    case Single(_, _, content) =>
    case Container(_, _, children) =>
      hide ReadInt, IntCode, ForestCode, ForestLeaves, FlattenChildren;
      ReadIntCode(MSG_CONTAINER, IntCode(U32(|children|)) + ForestCode(children));
      ReadIntCode(U32(|children|), ForestCode(children));
      SmallWord(|children|);
      FlattenForest(children, []);
      assert ForestCode(children) + [] == ForestCode(children);
  }

  /** Hence the outcome and the salt for an encoded tree are those of one scan over its leaves. */
  lemma ScanTree(dec: Decoders, t: Tree, requestId: i64, salt: i64)
    requires Encodable(t)
    ensures Scan(dec, Flatten(t.msgId, TreeBody(t)), requestId, salt) == Scan(dec, Leaves(t), requestId, salt)
  {
    FlattenTree(t);
  }

  lemma {:induction false} FlattenForest(ts: seq<Tree>, rest: seq<byte>)
    requires EncodableForest(ts)
    ensures FlattenChildren(ForestCode(ts) + rest, |ts|) == ForestLeaves(ts)
    decreases ts, 1
  {
    if ts != [] {
      hide ChildCode, ReadChild, TreeBody, Flatten, Leaves;
      var body, later := TreeBody(ts[0]), ForestCode(ts[1..]) + rest;
      assert ForestCode(ts) + rest == ChildCode(ts[0], body) + later;
      ReadChildOfCode(ts[0], body, later);
      FlattenTree(ts[0]);
      FlattenForest(ts[1..], rest);
    }
  }
}
