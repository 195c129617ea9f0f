/** Chat identifiers: raw peer ids and the public dialog ids handlers see (updates/message.go). */
module ChatIds {
  import opened Bytes

  const CHAT_PRIVATE := "private"
  const CHAT_GROUP := "group"
  const CHAT_SUPERGROUP := "supergroup"
  const CHAT_CHANNEL := "channel"

  const CHANNEL_OFFSET: i64 := 1_000_000_000_000

  /** Subtraction of 64-bit integers. */
  function Sub64(a: int, b: int): i64 {
    Wrap64(a - b)
  }

  lemma Sub64Cases(a: i64, b: i64)
    ensures Sub64(a, b) == if a - b > MAX_I64 then a - b - 0x1_0000_0000_0000_0000
                           else if a - b < -MAX_I64 - 1 then a - b + 0x1_0000_0000_0000_0000
                           else a - b
  {
  }

  function NormalizeChatID(rawId: i64, chatType: string): i64 {
    if rawId == 0 then 0
    else if chatType == CHAT_GROUP then
      if rawId < 0 then rawId else Sub64(0, rawId)
    else if chatType == CHAT_SUPERGROUP || chatType == CHAT_CHANNEL then
      if rawId <= -CHANNEL_OFFSET then rawId
      else if rawId < 0 then rawId
      else Sub64(-CHANNEL_OFFSET, rawId)
    else rawId
  }

  function RawChatID(chatId: i64): i64 {
    if chatId <= -CHANNEL_OFFSET then Sub64(Sub64(0, chatId), CHANNEL_OFFSET)
    else if chatId < 0 then Sub64(0, chatId)
    else chatId
  }

  /** The positive raw ids whose public id names them unambiguously. */
  predicate Representable(rawId: i64, chatType: string) {
    if chatType == CHAT_GROUP then rawId < CHANNEL_OFFSET
    else if chatType == CHAT_SUPERGROUP || chatType == CHAT_CHANNEL then
      rawId <= MAX_I64 - CHANNEL_OFFSET + 1 || rawId == MAX_I64 - CHANNEL_OFFSET / 2 + 1
    else true
  }

  /**
   * RawChatID undoes NormalizeChatID on a positive raw id exactly when a basic-group id stays
   * below the channel range and a channel id does not overflow (one overflowing id maps to itself).
   */
  lemma RawChatIDUndoesNormalize(rawId: i64, chatType: string)
    requires rawId > 0
    ensures RawChatID(NormalizeChatID(rawId, chatType)) == rawId <==> Representable(rawId, chatType)
  {
    hide Sub64;
    var id := NormalizeChatID(rawId, chatType);
    Sub64Cases(0, rawId);
    Sub64Cases(-CHANNEL_OFFSET, rawId);
    Sub64Cases(0, id);
    Sub64Cases(Sub64(0, id), CHANNEL_OFFSET);
  }

  /** Public ids of positive raw ids never collide across the three forms. */
  lemma PublicIDForms(rawId: i64, chatType: string)
    requires rawId > 0
    requires chatType == CHAT_GROUP ==> rawId < CHANNEL_OFFSET
    requires chatType == CHAT_SUPERGROUP || chatType == CHAT_CHANNEL ==> rawId <= MAX_I64 - CHANNEL_OFFSET + 1
    ensures var id := NormalizeChatID(rawId, chatType);
            && RawChatID(id) == rawId
            && (if chatType == CHAT_GROUP then -CHANNEL_OFFSET < id < 0
                else if chatType == CHAT_SUPERGROUP || chatType == CHAT_CHANNEL then id < -CHANNEL_OFFSET
                else id == rawId)
  {
    hide Sub64;
    RawChatIDUndoesNormalize(rawId, chatType);
    Sub64Cases(0, rawId);
    Sub64Cases(-CHANNEL_OFFSET, rawId);
  }
}
