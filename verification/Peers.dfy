/** Sightings of peers and what remembering them does to the bot's index (mtproto_bot.go). */
module Peers {
  import opened Bytes
  import opened ChatIds
  import opened Wrappers

  datatype PeerRef = PeerRef(id: i64, accessHash: i64, kind: string, title: string, username: string)

  type Index = map<i64, PeerRef>

  function UpdateChatType(kind: string): string {
    if kind == "user" then CHAT_PRIVATE
    else if kind == "chat" then CHAT_GROUP
    else if kind == "supergroup" then CHAT_SUPERGROUP
    else if kind == "channel" then CHAT_CHANNEL
    else ""
  }

  function PublicPeerID(p: PeerRef): i64 {
    NormalizeChatID(p.id, UpdateChatType(p.kind))
  }

  /** A new sighting completed with what an older entry knew; a supergroup stays a supergroup. */
  function MergeWith(p: PeerRef, earlier: PeerRef): PeerRef {
    PeerRef(
      p.id,
      if p.accessHash == 0 then earlier.accessHash else p.accessHash,
      if p.kind == "" || (p.kind == "channel" && earlier.kind == "supergroup") then earlier.kind else p.kind,
      if p.title == "" then earlier.title else p.title,
      if p.username == "" then earlier.username else p.username)
  }

  function MergeKey(peers: Index, p: PeerRef, key: i64): PeerRef {
    if key != 0 && key in peers then MergeWith(p, peers[key]) else p
  }

  /** mergePeerLocked: both keys are taken from the peer as it arrived. */
  function Merged(peers: Index, p: PeerRef): (r: PeerRef)
    ensures r.id == p.id
  {
    MergeKey(peers, MergeKey(peers, p, p.id), PublicPeerID(p))
  }

  /** storePeerLocked. */
  function Stored(peers: Index, p: PeerRef): Index {
    var under := peers[p.id := p];
    if PublicPeerID(p) != 0 then under[PublicPeerID(p) := p] else under
  }

  function Remember(peers: Index, p: PeerRef): Index {
    if p.id == 0 then peers else Stored(peers, Merged(peers, p))
  }

  /** rememberPeers over a batch, or over the concatenation of all batches so far. */
  function RememberAll(peers: Index, batch: seq<PeerRef>): Index {
    if batch == [] then peers
    else Remember(RememberAll(peers, batch[..|batch| - 1]), batch[|batch| - 1])
  }

  lemma RememberStep(peers: Index, batch: seq<PeerRef>, n: nat)
    requires n <= |batch|
    ensures RememberAll(peers, batch[..n])
            == if n == 0 then peers else Remember(RememberAll(peers, batch[..n - 1]), batch[n - 1])
  {
    hide Remember;
    assert n > 0 ==> batch[..n][..n - 1] == batch[..n - 1];
  }

  lemma {:induction false} RememberAllConcat(peers: Index, a: seq<PeerRef>, b: seq<PeerRef>)
    ensures RememberAll(peers, a + b) == RememberAll(RememberAll(peers, a), b)
    decreases |b|
  {
    if b == [] {
      assert a + b == a;
    } else {
      var n := |b| - 1;
      assert (a + b)[..|a + b| - 1] == a + b[..n];
      RememberAllConcat(peers, a, b[..n]);
    }
  }

  /** getPeer: the id itself, or else the raw id behind it. */
  function Lookup(peers: Index, id: i64): Option<PeerRef> {
    if id in peers then Some(peers[id])
    else if RawChatID(id) in peers then Some(peers[RawChatID(id)])
    else None
  }
}
