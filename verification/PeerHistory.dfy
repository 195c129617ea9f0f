/**
 * What the dual-keyed index of the bot says after any history of sightings, whatever kinds the
 * sightings of one id have (mtproto_bot.go).
 */
module PeerHistory {
  import opened Bytes
  import opened ChatIds
  import opened Peers
  import opened Wrappers

  /** A positive id that the public form of the sighting's kind can carry. */
  predicate Carried(p: PeerRef) {
    var chatType := UpdateChatType(p.kind);
    && p.id > 0
    && (chatType == CHAT_GROUP ==> p.id < CHANNEL_OFFSET)
    && (chatType == CHAT_SUPERGROUP || chatType == CHAT_CHANNEL ==> p.id <= MAX_I64 - CHANNEL_OFFSET + 1)
  }

  ghost predicate AllCarried(h: seq<PeerRef>) {
    forall i :: 0 <= i < |h| ==> Carried(h[i])
  }

  lemma PublicIDOfCarried(p: PeerRef)
    requires Carried(p)
    ensures RawChatID(PublicPeerID(p)) == p.id && RawChatID(p.id) == p.id && PublicPeerID(p) != 0
  {
    hide NormalizeChatID, RawChatID;
    PublicIDForms(p.id, UpdateChatType(p.kind));
    PublicIDForms(p.id, "");
  }

  /** The public id of an id as a channel. */
  function ChannelID(id: i64): i64 {
    NormalizeChatID(id, CHAT_CHANNEL)
  }

  predicate ChannelKind(kind: string) {
    kind == "channel" || kind == "supergroup"
  }

  /** Only channels and supergroups use the channel form of an id. */
  lemma ChannelForm(p: PeerRef)
    requires Carried(p) && p.id <= MAX_I64 - CHANNEL_OFFSET + 1
    ensures ChannelID(p.id) != p.id
    ensures PublicPeerID(p) == ChannelID(p.id) <==> ChannelKind(p.kind)
  {
    hide RawChatID;
    PublicIDForms(p.id, CHAT_CHANNEL);
    SameChannelForm(p.id);
    hide NormalizeChatID;
    PublicIDForms(p.id, UpdateChatType(p.kind));
  }

  lemma PlainForms(id: i64)
    ensures NormalizeChatID(id, CHAT_PRIVATE) == NormalizeChatID(id, "") == id
  {
  }

  lemma SameChannelForm(id: i64)
    ensures NormalizeChatID(id, CHAT_SUPERGROUP) == NormalizeChatID(id, CHAT_CHANNEL)
  {
  }

  // What the index should hold for an id.

  ghost predicate EverSupergroup(h: seq<PeerRef>, id: i64) {
    exists i :: 0 <= i < |h| && h[i].id == id && h[i].kind == "supergroup"
  }

  lemma EverLater(h: seq<PeerRef>, p: PeerRef, id: i64)
    ensures EverSupergroup(h + [p], id) <==> EverSupergroup(h, id) || (p.id == id && p.kind == "supergroup")
  {
    var later := h + [p];
    assert later[|h|] == p && forall i :: 0 <= i < |h| ==> later[i] == h[i];
  }

  /** A sighting merged into what was known, a channel being a supergroup once it ever was one. */
  ghost function Updated(before: Option<PeerRef>, p: PeerRef, ever: bool): PeerRef {
    match before
    case None => p
    case Some(e) => MergeWith(p, e).(kind := if p.kind == "channel" && ever then "supergroup" else MergeWith(p, e).kind)
  }

  /** The sightings of one raw id merged in order, or nothing if it was never seen. */
  ghost function Entry(h: seq<PeerRef>, id: i64): (r: Option<PeerRef>)
    ensures r.Some? ==> r.value.id == id
  {
    if h == [] then None
    else
      var front, last := h[..|h| - 1], h[|h| - 1];
      if last.id != id then Entry(front, id) else Some(Updated(Entry(front, id), last, EverSupergroup(front, id)))
  }

  lemma EntryLater(h: seq<PeerRef>, p: PeerRef, id: i64)
    ensures Entry(h + [p], id)
            == if p.id != id then Entry(h, id) else Some(Updated(Entry(h, id), p, EverSupergroup(h, id)))
  {
    hide Updated, EverSupergroup;
    assert (h + [p])[..|h|] == h;
  }

  /** An entry's kind agrees with whether its id was ever seen as a supergroup, and its id is carried. */
  lemma {:induction false} EntryCarried(h: seq<PeerRef>, id: i64)
    requires AllCarried(h)
    ensures EverSupergroup(h, id) ==> Entry(h, id).Some? && id <= MAX_I64 - CHANNEL_OFFSET + 1
    ensures Entry(h, id).Some? ==>
              var e := Entry(h, id).value;
              && Carried(e)
              && (e.kind == "supergroup" ==> EverSupergroup(h, id))
              && (e.kind == "channel" ==> !EverSupergroup(h, id))
    decreases |h|
  {
    if h != [] {
      var n := |h| - 1;
      assert h == h[..n] + [h[n]];
      EverLater(h[..n], h[n], id);
      EntryCarried(h[..n], id);
      assert Carried(h[n]);
      hide EverSupergroup;
    }
  }

  /** The last non-empty kind among the sightings of an id. */
  function LastKind(h: seq<PeerRef>, id: i64): string {
    if h == [] then ""
    else
      var last := h[|h| - 1];
      if last.id == id && last.kind != "" then last.kind else LastKind(h[..|h| - 1], id)
  }

  /** The kind of an entry is the last one seen, except that a channel ever seen as a supergroup is one. */
  lemma {:induction false} EntryKind(h: seq<PeerRef>, id: i64)
    requires AllCarried(h) && Entry(h, id).Some?
    ensures Entry(h, id).value.kind
            == if LastKind(h, id) == "channel" && EverSupergroup(h, id) then "supergroup" else LastKind(h, id)
    decreases |h|
  {
    var n := |h| - 1;
    var front := h[..n];
    assert h == front + [h[n]];
    EverLater(front, h[n], id);
    EntryCarried(front, id);
    if Entry(front, id).Some? {
      EntryKind(front, id);
    } else {
      NeverEntered(front, id);
    }
    hide EverSupergroup;
  }

  lemma {:induction false} NeverEntered(h: seq<PeerRef>, id: i64)
    ensures Entry(h, id) == None <==> forall i :: 0 <= i < |h| ==> h[i].id != id
    ensures Entry(h, id) == None ==> LastKind(h, id) == "" && !EverSupergroup(h, id)
    decreases |h|
  {
    if h != [] {
      NeverEntered(h[..|h| - 1], id);
    }
  }

  /** Once some sighting of an id had a kind, so has its entry. */
  lemma EntryKnowsKind(h: seq<PeerRef>, i: nat)
    requires AllCarried(h) && i < |h| && h[i].kind != ""
    ensures Entry(h, h[i].id).Some? && Entry(h, h[i].id).value.kind != ""
  {
    NeverEntered(h, h[i].id);
    EntryKind(h, h[i].id);
    LastKindKnown(h, i);
  }

  lemma {:induction false} LastKindKnown(h: seq<PeerRef>, i: nat)
    requires i < |h| && h[i].kind != ""
    ensures LastKind(h, h[i].id) != ""
    decreases |h|
  {
    if i < |h| - 1 {
      LastKindKnown(h[..|h| - 1], i);
    }
  }

  /** v is the last non-empty value of a field among the sightings of id, or empty if there is none. */
  ghost predicate LastNonEmpty<T(!new)>(h: seq<PeerRef>, id: i64, field: PeerRef -> T, empty: T, v: T) {
    || (v == empty && forall i :: 0 <= i < |h| && h[i].id == id ==> field(h[i]) == empty)
    || (v != empty && exists i :: && 0 <= i < |h| && h[i].id == id && field(h[i]) == v
                                  && forall j :: i < j < |h| && h[j].id == id ==> field(h[j]) == empty)
  }

  lemma {:induction false} EntryKeepsLast<T(!new)>(h: seq<PeerRef>, id: i64, field: PeerRef -> T, empty: T)
    requires forall p, q :: field(MergeWith(p, q)) == if field(p) == empty then field(q) else field(p)
    requires forall p: PeerRef, kind: string :: field(p.(kind := kind)) == field(p)
    requires Entry(h, id).Some?
    ensures LastNonEmpty(h, id, field, empty, field(Entry(h, id).value))
    decreases |h|
  {
    hide EverSupergroup, MergeWith;
    var n := |h| - 1;
    var front := h[..n];
    assert forall i :: 0 <= i < n ==> front[i] == h[i];
    if Entry(front, id).Some? {
      EntryKeepsLast(front, id, field, empty);
      if h[n].id == id {
        var e, ever := Entry(front, id).value, EverSupergroup(front, id);
        var merged := MergeWith(h[n], e);
        assert Updated(Some(e), h[n], ever)
               == merged.(kind := if h[n].kind == "channel" && ever then "supergroup" else merged.kind);
      }
    } else {
      NeverEntered(front, id);
    }
  }

  /** The entry of an id has the last non-empty access hash, username and title seen for it. */
  lemma EntryFields(h: seq<PeerRef>, id: i64)
    requires Entry(h, id).Some?
    ensures var entry := Entry(h, id).value;
            && LastNonEmpty(h, id, (p: PeerRef) => p.accessHash, 0, entry.accessHash)
            && LastNonEmpty(h, id, (p: PeerRef) => p.username, "", entry.username)
            && LastNonEmpty(h, id, (p: PeerRef) => p.title, "", entry.title)
  {
    EntryKeepsLast(h, id, (p: PeerRef) => p.accessHash, 0);
    EntryKeepsLast(h, id, (p: PeerRef) => p.username, "");
    EntryKeepsLast(h, id, (p: PeerRef) => p.title, "");
  }

  // The index.

  /** What a key holds knows no more than the entry of its id, except which kinds it ever had. */
  ghost predicate Older(h: seq<PeerRef>, q: PeerRef, e: PeerRef) {
    && (e.accessHash == 0 ==> q.accessHash == 0) && (e.title == "" ==> q.title == "")
    && (e.username == "" ==> q.username == "") && (e.kind == "" ==> q.kind == "")
    && (q.kind == "supergroup" ==> EverSupergroup(h, q.id))
  }

  /** Both current keys of an id hold its entry; a former supergroup is still under its channel form. */
  ghost predicate HoldsEntry(h: seq<PeerRef>, peers: Index, id: i64) {
    && (id in peers <==> Entry(h, id).Some?)
    && (Entry(h, id).Some? ==>
          var e := Entry(h, id).value;
          peers[id] == e && PublicPeerID(e) in peers && peers[PublicPeerID(e)] == e)
    && (EverSupergroup(h, id) ==> ChannelID(id) in peers && peers[ChannelID(id)].kind == "supergroup")
  }

  /** A key is one of the two keys of what it holds: an entry of a seen id, current or older. */
  ghost predicate HoldsOlder(h: seq<PeerRef>, peers: Index, k: i64)
    requires k in peers
  {
    var q := peers[k];
    && q.id == RawChatID(k) && Carried(q) && (k == q.id || k == PublicPeerID(q))
    && Entry(h, q.id).Some? && Older(h, q, Entry(h, q.id).value)
  }

  ghost predicate Indexed(h: seq<PeerRef>, peers: Index) {
    && (forall id: i64 :: id > 0 ==> HoldsEntry(h, peers, id))
    && (forall k: i64 :: k in peers ==> HoldsOlder(h, peers, k))
  }

  /** Merging with a key that knows no more changes nothing but the kind, and that only to supergroup. */
  lemma MergeOlder(h: seq<PeerRef>, p: PeerRef, e: PeerRef, q: PeerRef)
    requires q.id == e.id == p.id && Older(h, q, e)
    requires e.kind == "channel" ==> !EverSupergroup(h, p.id)
    requires e.kind == "supergroup" ==> EverSupergroup(h, p.id)
    requires p.kind == "channel" && EverSupergroup(h, p.id) ==> q.kind == "supergroup" || e.kind == "supergroup"
    ensures MergeWith(MergeWith(p, e), q) == Updated(Some(e), p, EverSupergroup(h, p.id))
  {
    hide EverSupergroup;
  }

  lemma MergedIsEntry(h: seq<PeerRef>, peers: Index, p: PeerRef)
    requires Indexed(h, peers) && AllCarried(h) && Carried(p)
    ensures Some(Merged(peers, p)) == Entry(h + [p], p.id)
  {
    hide RawChatID, NormalizeChatID, EverSupergroup, Older, Updated, MergeWith, Entry;
    PublicIDOfCarried(p);
    EntryLater(h, p, p.id);
    EntryCarried(h, p.id);
    assert HoldsEntry(h, peers, p.id);
    var k := PublicPeerID(p);
    if Entry(h, p.id) == None {
      assert k in peers ==> HoldsOlder(h, peers, k);
      NoneUpdated(p, EverSupergroup(h, p.id));
    } else {
      var e := Entry(h, p.id).value;
      if p.kind == "channel" && EverSupergroup(h, p.id) {
        ChannelForm(p);
      }
      if k in peers {
        assert HoldsOlder(h, peers, k);
        MergeOlder(h, p, e, peers[k]);
      } else {
        OlderThanItself(h, e);
        MergeOlder(h, p, e, e);
        MergeTwice(p, e);
      }
    }
  }

  lemma NoneUpdated(p: PeerRef, ever: bool)
    ensures Updated(None, p, ever) == p
  {
  }

  lemma OlderThanItself(h: seq<PeerRef>, e: PeerRef)
    requires e.kind == "supergroup" ==> EverSupergroup(h, e.id)
    ensures Older(h, e, e)
  {
  }

  lemma MergeTwice(p: PeerRef, e: PeerRef)
    ensures MergeWith(MergeWith(p, e), e) == MergeWith(p, e)
  {
  }

  /** A new entry knows no less than the one before, so what was older stays older. */
  lemma OlderLater(h: seq<PeerRef>, p: PeerRef, q: PeerRef, e: PeerRef, m: PeerRef)
    requires Older(h, q, e) && m == Updated(Some(e), p, EverSupergroup(h, p.id))
    ensures Older(h + [p], q, m)
  {
    EverLater(h, p, q.id);
    hide EverSupergroup;
  }

  lemma RememberIndexed(h: seq<PeerRef>, peers: Index, p: PeerRef)
    requires Indexed(h, peers) && AllCarried(h) && Carried(p)
    ensures Indexed(h + [p], Remember(peers, p))
  {
    hide RawChatID, NormalizeChatID, EverSupergroup, Older, Updated, Entry, Merged, Carried;
    var later, m, h' := Remember(peers, p), Merged(peers, p), h + [p];
    MergedIsEntry(h, peers, p);
    assert AllCarried(h');
    EntryCarried(h', p.id);
    PublicIDOfCarried(m);
    CarriedPositive(p);
    forall id: i64 | id > 0
      ensures HoldsEntry(h', later, id)
    {
      EntryLater(h, p, id);
      EverLater(h, p, id);
      assert HoldsEntry(h, peers, id);
      if id != p.id {
        OtherKeys(h, id, p.id, m);
      } else {
        FormerSupergroup(h, peers, p);
      }
    }
    forall k: i64 | k in later
      ensures HoldsOlder(h', later, k)
    {
      if k == p.id || k == PublicPeerID(m) {
        OlderThanItself(h', m);
      } else {
        assert HoldsOlder(h, peers, k);
        var q := peers[k];
        EntryLater(h, p, q.id);
        if q.id == p.id {
          OlderLater(h, p, q, Entry(h, p.id).value, m);
        } else {
          OlderElsewhere(h, p, q, Entry(h, q.id).value);
        }
      }
    }
  }

  lemma CarriedPositive(p: PeerRef)
    requires Carried(p)
    ensures p.id > 0
  {
  }

  lemma OlderElsewhere(h: seq<PeerRef>, p: PeerRef, q: PeerRef, e: PeerRef)
    requires Older(h, q, e)
    ensures Older(h + [p], q, e)
  {
    EverLater(h, p, q.id);
    hide EverSupergroup;
  }

  /** Keys of different raw ids never coincide. */
  lemma OtherKeys(h: seq<PeerRef>, id: i64, other: i64, m: PeerRef)
    requires AllCarried(h) && id > 0 && id != other && other > 0 && m.id == other && Carried(m)
    ensures id != other && id != PublicPeerID(m)
    ensures Entry(h, id).Some? ==>
              PublicPeerID(Entry(h, id).value) != other && PublicPeerID(Entry(h, id).value) != PublicPeerID(m)
    ensures EverSupergroup(h, id) ==> ChannelID(id) != other && ChannelID(id) != PublicPeerID(m)
  {
    hide RawChatID, NormalizeChatID, EverSupergroup, Entry, Carried;
    PublicIDOfCarried(m);
    EntryCarried(h, id);
    PlainID(id);
    if Entry(h, id).Some? {
      PublicIDOfCarried(Entry(h, id).value);
    }
    if EverSupergroup(h, id) {
      PublicIDForms(id, CHAT_CHANNEL);
    }
  }

  lemma PlainID(id: i64)
    requires id > 0
    ensures RawChatID(id) == id
  {
  }

  /** What was ever seen as a supergroup is under its channel form after one more sighting. */
  lemma FormerSupergroup(h: seq<PeerRef>, peers: Index, p: PeerRef)
    requires Indexed(h, peers) && AllCarried(h) && Carried(p)
    ensures var later := Remember(peers, p);
            EverSupergroup(h + [p], p.id) ==> ChannelID(p.id) in later && later[ChannelID(p.id)].kind == "supergroup"
  {
    hide RawChatID, NormalizeChatID, EverSupergroup, Older, Updated, Entry, Merged, HoldsOlder;
    var m, h' := Merged(peers, p), h + [p];
    MergedIsEntry(h, peers, p);
    EverLater(h, p, p.id);
    assert AllCarried(h');
    EntryCarried(h', p.id);
    PublicIDOfCarried(m);
    if EverSupergroup(h', p.id) {
      ChannelForm(m);
      if !ChannelKind(m.kind) {
        assert HoldsEntry(h, peers, p.id);
        LastKindStored(h, p);
      }
    }
  }

  /** A sighting as a supergroup makes the entry one. */
  lemma LastKindStored(h: seq<PeerRef>, p: PeerRef)
    ensures p.kind == "supergroup" ==> Entry(h + [p], p.id).Some? && Entry(h + [p], p.id).value.kind == "supergroup"
  {
    EntryLater(h, p, p.id);
    hide Entry, EverSupergroup;
  }

  /** For every history of carried sightings both current keys of every seen id hold its entry. */
  lemma {:induction false} IndexedByHistory(h: seq<PeerRef>)
    requires AllCarried(h)
    ensures Indexed(h, RememberAll(map[], h))
    decreases |h|
  {
    hide RawChatID, NormalizeChatID, Merged, Remember;
    if h != [] {
      var n := |h| - 1;
      IndexedByHistory(h[..n]);
      RememberIndexed(h[..n], RememberAll(map[], h[..n]), h[n]);
      assert h[..n] + [h[n]] == h;
    }
  }

  /** Every public id that the entry of an id has had. */
  ghost function FormsOf(h: seq<PeerRef>, id: i64): set<i64> {
    if h == [] then {}
    else
      FormsOf(h[..|h| - 1], id)
      + (if h[|h| - 1].id == id && Entry(h, id).Some? then {PublicPeerID(Entry(h, id).value)} else {})
  }

  /** k is the id of a seen peer or a public id that its entry has had. */
  ghost predicate WasKey(h: seq<PeerRef>, k: i64) {
    var id := RawChatID(k);
    Entry(h, id).Some? && (k == id || k in FormsOf(h, id))
  }

  lemma FormsLater(h: seq<PeerRef>, p: PeerRef, id: i64)
    ensures FormsOf(h + [p], id)
            == FormsOf(h, id)
               + (if p.id == id && Entry(h + [p], id).Some? then {PublicPeerID(Entry(h + [p], id).value)} else {})
  {
    hide Entry, PublicPeerID;
    assert (h + [p])[..|h|] == h;
  }

  lemma {:induction false} FormsSeen(h: seq<PeerRef>, id: i64)
    ensures FormsOf(h, id) != {} ==> Entry(h, id).Some?
    decreases |h|
  {
    hide Updated, PublicPeerID, EverSupergroup;
    if h != [] {
      FormsSeen(h[..|h| - 1], id);
    }
  }

  lemma WasKeyLater(h: seq<PeerRef>, p: PeerRef, k: i64)
    requires AllCarried(h) && Carried(p)
    ensures Entry(h + [p], p.id).Some?
    ensures WasKey(h + [p], k) <==> WasKey(h, k) || k == p.id || k == PublicPeerID(Entry(h + [p], p.id).value)
  {
    hide RawChatID, NormalizeChatID, Entry, Updated, EverSupergroup, FormsOf;
    var id := RawChatID(k);
    EntryLater(h, p, id);
    EntryLater(h, p, p.id);
    FormsLater(h, p, id);
    FormsSeen(h, id);
    assert AllCarried(h + [p]);
    EntryCarried(h + [p], p.id);
    PublicIDOfCarried(Entry(h + [p], p.id).value);
  }

  /** The keys of the index are exactly the ids seen and the public ids their entries have had. */
  lemma {:induction false} KeysOfHistory(h: seq<PeerRef>)
    requires AllCarried(h)
    ensures forall k: i64 :: k in RememberAll(map[], h) <==> WasKey(h, k)
    decreases |h|
  {
    hide RawChatID, NormalizeChatID, Merged, WasKey, Indexed, Entry;
    if h == [] {
      NoKeys();
    } else {
      var n := |h| - 1;
      var front, p := h[..n], h[n];
      assert front + [p] == h && AllCarried(front) && Carried(p);
      KeysOfHistory(front);
      IndexedByHistory(front);
      var peers := RememberAll(map[], front);
      MergedIsEntry(front, peers, p);
      EntryCarried(h, p.id);
      PublicIDOfCarried(Merged(peers, p));
      CarriedPositive(p);
      forall k: i64
        ensures k in RememberAll(map[], h) <==> WasKey(h, k)
      {
        WasKeyLater(front, p, k);
      }
    }
  }

  lemma NoKeys()
    ensures forall k: i64 :: !WasKey([], k)
  {
  }

  /** Looking a seen peer up by raw id and by public id gives the same entry, whatever kinds it was seen with. */
  lemma LookupsAgree(h: seq<PeerRef>, id: i64)
    requires AllCarried(h) && id > 0 && Entry(h, id).Some?
    ensures var peers, entry := RememberAll(map[], h), Entry(h, id);
            Lookup(peers, id) == entry == Lookup(peers, PublicPeerID(entry.value))
  {
    hide RawChatID, NormalizeChatID, Entry, RememberAll;
    IndexedByHistory(h);
    assert HoldsEntry(h, RememberAll(map[], h), id);
  }

  /**
   * Asked in any form, an id is answered exactly when it was seen, with a peer of that raw id; in a
   * form it never had, with its current entry.
   */
  lemma LookupAnyForm(h: seq<PeerRef>, form: i64)
    requires AllCarried(h) && RawChatID(form) > 0
    ensures var peers, id := RememberAll(map[], h), RawChatID(form);
            && (Lookup(peers, form).Some? <==> Entry(h, id).Some?)
            && (Lookup(peers, form).Some? ==> Lookup(peers, form).value.id == id)
            && (form !in peers ==> Lookup(peers, form) == Entry(h, id))
  {
    hide RawChatID, NormalizeChatID, Entry, RememberAll;
    IndexedByHistory(h);
    assert HoldsEntry(h, RememberAll(map[], h), RawChatID(form));
  }

  /** Sightings of one id as a user and then as a channel leave one entry: a channel with the user's name. */
  lemma SharedIdMerges()
    ensures var h := [PeerRef(5, 0, "user", "", "u"), PeerRef(5, 0, "channel", "", "")];
            Entry(h, 5) == Some(PeerRef(5, 0, "channel", "", "u"))
  {
    var user, channel := PeerRef(5, 0, "user", "", "u"), PeerRef(5, 0, "channel", "", "");
    EntryLater([], user, 5);
    EntryLater([user], channel, 5);
    assert [] + [user] == [user] && [user] + [channel] == [user, channel];
    assert !EverSupergroup([user], 5);
  }

  /** An id seen as a group and then as a channel keeps its old group key, with the group's entry. */
  lemma StaleKeyStays()
    ensures var h := [PeerRef(5, 0, "chat", "", ""), PeerRef(5, 0, "channel", "", "")];
            var peers := RememberAll(map[], h);
            -5 in peers && peers[-5] == h[0] && 5 in peers && peers[5] == h[1]
  {
    var group, channel := PeerRef(5, 0, "chat", "", ""), PeerRef(5, 0, "channel", "", "");
    var h := [group, channel];
    assert PublicPeerID(group) == -5 && PublicPeerID(channel) == -CHANNEL_OFFSET - 5;
    hide PublicPeerID, NormalizeChatID;
    RememberStep(map[], h, 0);
    RememberStep(map[], h, 1);
    RememberStep(map[], h, 2);
    assert h[..2] == h;
    var first: Index := map[5 := group, -5 := group];
    assert Remember(map[], group) == first;
    assert Merged(first, channel) == channel;
  }

  /** The public id of a carried sighting by its kind: users keep their id, the rest get one of two negative forms. */
  lemma PublicIDByKind(p: PeerRef)
    requires Carried(p)
    ensures PublicPeerID(p)
            == if p.kind == "chat" then -p.id
               else if p.kind == "channel" || p.kind == "supergroup" then -1_000_000_000_000 - p.id
               else p.id
  {
    hide Sub64;
    Sub64Cases(0, p.id);
    Sub64Cases(-CHANNEL_OFFSET, p.id);
  }

  /** Sightings of other ids leave a key alone: its presence and its peer are what they were. */
  lemma {:induction false} OtherKeysKept(h: seq<PeerRef>, batch: seq<PeerRef>, k: i64)
    requires AllCarried(h + batch)
    requires forall i :: 0 <= i < |batch| ==> batch[i].id != RawChatID(k)
    ensures var before, after := RememberAll(map[], h), RememberAll(map[], h + batch);
            && (k in after <==> k in before) && (k in before ==> after[k] == before[k])
    decreases |batch|
  {
    hide RememberAll, RawChatID, NormalizeChatID, Carried;
    if batch == [] {
      assert h + batch == h;
    } else {
      var n := |batch| - 1;
      var front, p := h + batch[..n], batch[n];
      assert front + [p] == h + batch;
      assert AllCarried(front) by {
        assert forall i :: 0 <= i < |front| ==> front[i] == (h + batch)[i];
      }
      assert Carried(p) by {
        assert (h + batch)[|h| + n] == p;
      }
      OtherKeysKept(h, batch[..n], k);
      OneSighting(front, p, k);
    }
  }

  lemma OneSighting(h: seq<PeerRef>, p: PeerRef, k: i64)
    requires AllCarried(h) && Carried(p) && p.id != RawChatID(k)
    ensures var before, after := RememberAll(map[], h), RememberAll(map[], h + [p]);
            && (k in after <==> k in before) && (k in before ==> after[k] == before[k])
  {
    var later := h + [p];
    assert later[..|later| - 1] == h;
    var peers := RememberAll(map[], h);
    assert RememberAll(map[], later) == Remember(peers, p);
    hide RememberAll, RawChatID, NormalizeChatID, Merged, Entry;
    IndexedByHistory(h);
    MergedIsEntry(h, peers, p);
    assert AllCarried(later);
    EntryCarried(later, p.id);
    PublicIDOfCarried(Merged(peers, p));
    CarriedPositiveId(p);
  }

  lemma CarriedPositiveId(p: PeerRef)
    requires Carried(p)
    ensures p.id > 0
  {
  }
}
