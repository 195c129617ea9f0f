/**
 * The dual-keyed peer index of the bot (mtproto_bot.go): every peer is kept under its raw id
 * and under its public id, merging what earlier sightings knew.
 */
module PeerIndex {
  import opened Bytes
  import opened ChatIds
  import opened Difference
  import opened PeerHistory
  import opened Peers
  import opened Wrappers

  // What the index should hold: the summary of the sightings of each id.

  /** The sightings of one raw id merged in order, or nothing if it was never seen. */
  function Summary(h: seq<PeerRef>, id: i64): (r: Option<PeerRef>)
    ensures r.Some? ==> r.value.id == id
  {
    if h == [] then None
    else
      var before, last := Summary(h[..|h| - 1], id), h[|h| - 1];
      if last.id != id then before
      else if before == None then Some(last)
      else Some(MergeWith(last, before.value))
  }

  /** The three kinds of raw ids; one id never changes its class. */
  datatype Class = User | BasicGroup | Channel

  /** A sighting that fits the class of its id, with an id the public form can carry. */
  ghost predicate Fits(cls: i64 -> Class, p: PeerRef) {
    p.id > 0 &&
    match cls(p.id)
    case User => p.kind == "" || p.kind == "user"
    case BasicGroup => (p.kind == "" || p.kind == "chat") && p.id < CHANNEL_OFFSET
    case Channel => (p.kind == "" || p.kind == "channel" || p.kind == "supergroup")
                    && p.id <= MAX_I64 - CHANNEL_OFFSET + 1
  }

  ghost predicate AllFit(cls: i64 -> Class, h: seq<PeerRef>) {
    forall i :: 0 <= i < |h| ==> Fits(cls, h[i])
  }

  lemma {:induction false} SummaryFits(cls: i64 -> Class, h: seq<PeerRef>, id: i64)
    requires AllFit(cls, h)
    ensures Summary(h, id).Some? ==> Fits(cls, Summary(h, id).value)
    decreases |h|
  {
    if h != [] {
      SummaryFits(cls, h[..|h| - 1], id);
    }
  }

  /** The public id of a fitting peer leads back to its raw id, whatever its kind has been refined to. */
  lemma PublicIDOfFitting(cls: i64 -> Class, p: PeerRef)
    requires Fits(cls, p)
    ensures RawChatID(PublicPeerID(p)) == p.id && RawChatID(p.id) == p.id && PublicPeerID(p) != 0
    ensures forall q: PeerRef :: Fits(cls, q) && q.id == p.id ==>
              PublicPeerID(q) == PublicPeerID(p) || p.kind == "" || q.kind == ""
    ensures p.kind == "" ==> PublicPeerID(p) == p.id
  {
    hide NormalizeChatID, RawChatID;
    PublicIDForms(p.id, UpdateChatType(p.kind));
    PublicIDForms(p.id, "");
    assert NormalizeChatID(p.id, CHAT_SUPERGROUP) == NormalizeChatID(p.id, CHAT_CHANNEL) by {
      SameChannelForm(p.id);
    }
  }

  /** Key k is the raw id or the public id of a peer that was seen. */
  ghost predicate Known(h: seq<PeerRef>, k: i64) {
    var seen := Summary(h, RawChatID(k));
    seen.Some? && (k == seen.value.id || k == PublicPeerID(seen.value))
  }

  /** The index holds exactly the summaries, each under exactly its two keys. */
  ghost predicate MatchesHistory(h: seq<PeerRef>, peers: Index) {
    forall k: i64 :: (k in peers <==> Known(h, k)) && (k in peers ==> Some(peers[k]) == Summary(h, RawChatID(k)))
  }

  lemma MergedIsSummary(cls: i64 -> Class, h: seq<PeerRef>, peers: Index, p: PeerRef)
    requires MatchesHistory(h, peers) && AllFit(cls, h) && Fits(cls, p)
    ensures Some(Merged(peers, p)) == Summary(h + [p], p.id)
  {
    hide NormalizeChatID, RawChatID;
    var seen := Summary(h, p.id);
    assert (h + [p])[..|h|] == h;
    PublicIDOfFitting(cls, p);
    SummaryFits(cls, h, p.id);
    if seen.Some? {
      PublicIDOfFitting(cls, seen.value);
      assert Known(h, p.id);
    } else {
      assert !Known(h, p.id) && !Known(h, PublicPeerID(p));
    }
  }

  lemma RememberMatches(cls: i64 -> Class, h: seq<PeerRef>, peers: Index, p: PeerRef)
    requires MatchesHistory(h, peers) && AllFit(cls, h) && Fits(cls, p)
    ensures MatchesHistory(h + [p], Remember(peers, p))
  {
    hide NormalizeChatID, RawChatID, Merged, MergeWith;
    var later := Remember(peers, p);
    var entry := Merged(peers, p);
    MergedIsSummary(cls, h, peers, p);
    assert AllFit(cls, h + [p]);
    SummaryFits(cls, h + [p], p.id);
    PublicIDOfFitting(cls, entry);
    SummaryFits(cls, h, p.id);
    assert (h + [p])[..|h|] == h;
    if Summary(h, p.id).Some? {
      KindRefined(cls, h, p);
      PublicIDOfFitting(cls, Summary(h, p.id).value);
    }
    forall k: i64
      ensures (k in later <==> Known(h + [p], k)) && (k in later ==> Some(later[k]) == Summary(h + [p], RawChatID(k)))
    {
      if RawChatID(k) == p.id {
        assert k in peers ==> k == p.id || k == PublicPeerID(Summary(h, p.id).value);
      } else {
        assert k != p.id && k != PublicPeerID(entry);
        assert Summary(h + [p], RawChatID(k)) == Summary(h, RawChatID(k));
      }
    }
  }

  /** Merging never forgets that a kind was known. */
  lemma KindRefined(cls: i64 -> Class, h: seq<PeerRef>, p: PeerRef)
    requires Summary(h, p.id).Some?
    ensures var after := Summary(h + [p], p.id);
            after.Some? && (after.value.kind == "" ==> Summary(h, p.id).value.kind == "" && p.kind == "")
  {
    assert (h + [p])[..|h|] == h;
  }

  /** For every history of fitting sightings the index holds exactly their summaries. */
  lemma {:induction false} IndexMatchesHistory(cls: i64 -> Class, h: seq<PeerRef>)
    requires AllFit(cls, h)
    ensures MatchesHistory(h, RememberAll(map[], h))
    decreases |h|
  {
    hide NormalizeChatID, RawChatID, Merged, Remember;
    if h != [] {
      var n := |h| - 1;
      IndexMatchesHistory(cls, h[..n]);
      RememberMatches(cls, h[..n], RememberAll(map[], h[..n]), h[n]);
      assert h[..n] + [h[n]] == h;
    }
  }

  lemma {:induction false} NeverSeen(h: seq<PeerRef>, id: i64)
    ensures Summary(h, id) == None <==> forall i :: 0 <= i < |h| ==> h[i].id != id
    decreases |h|
  {
    if h != [] {
      NeverSeen(h[..|h| - 1], id);
    }
  }

  lemma FitsIsCarried(cls: i64 -> Class, p: PeerRef)
    requires Fits(cls, p)
    ensures Carried(p)
  {
  }

  /** When no id changes its class the entry of an id is the summary of its sightings. */
  lemma {:induction false} EntryIsSummary(cls: i64 -> Class, h: seq<PeerRef>, id: i64)
    requires AllFit(cls, h)
    ensures AllCarried(h) && Entry(h, id) == Summary(h, id)
    decreases |h|
  {
    forall i | 0 <= i < |h| ensures Carried(h[i]) {
      FitsIsCarried(cls, h[i]);
    }
    if h != [] {
      var n := |h| - 1;
      var front := h[..n];
      EntryIsSummary(cls, front, id);
      assert h == front + [h[n]];
      EntryLater(front, h[n], id);
      EntryCarried(front, id);
      SummaryFits(cls, front, id);
      if EverSupergroup(front, id) {
        var i :| 0 <= i < |front| && front[i].id == id && front[i].kind == "supergroup";
        assert Fits(cls, front[i]);
        EntryKnowsKind(front, i);
      }
    }
  }

  // Snapshots.

  ghost predicate EntryOf(peers: Index, p: PeerRef) {
    exists k: i64 :: k in peers && peers[k] == p
  }

  /** The entries of the index without repeating a kind and id, in any order. */
  ghost predicate IsSnapshot(peers: Index, out: seq<PeerRef>) {
    && (forall i :: 0 <= i < |out| ==> out[i].id != 0 && EntryOf(peers, out[i]))
    && (forall k :: k in peers && peers[k].id != 0 ==>
          exists i :: 0 <= i < |out| && out[i].kind == peers[k].kind && out[i].id == peers[k].id)
    && (forall i, j :: 0 <= i < j < |out| ==> out[i].kind != out[j].kind || out[i].id != out[j].id)
  }

  /** A snapshot under way: the kinds and ids seen are those of the entries taken, and cover the keys visited. */
  ghost predicate Visited(peers: Index, keys: set<i64>, seen: set<(string, i64)>, out: seq<PeerRef>) {
    && keys <= peers.Keys
    && (forall i :: 0 <= i < |out| ==> out[i].id != 0 && EntryOf(peers, out[i]))
    && (forall i :: 0 <= i < |out| ==> (out[i].kind, out[i].id) in seen)
    && (forall key :: key in seen ==> exists i :: 0 <= i < |out| && (out[i].kind, out[i].id) == key)
    && (forall i, j :: 0 <= i < j < |out| ==> out[i].kind != out[j].kind || out[i].id != out[j].id)
    && (forall k :: k in peers && k !in keys && peers[k].id != 0 ==> (peers[k].kind, peers[k].id) in seen)
  }

  lemma NothingVisited(peers: Index)
    ensures Visited(peers, peers.Keys, {}, [])
  {
  }

  lemma VisitOne(peers: Index, keys: set<i64>, seen: set<(string, i64)>, out: seq<PeerRef>, k: i64)
    requires Visited(peers, keys, seen, out) && k in keys
    ensures k in peers
    ensures var key := (peers[k].kind, peers[k].id);
            if key !in seen && peers[k].id != 0 then Visited(peers, keys - {k}, seen + {key}, out + [peers[k]])
            else Visited(peers, keys - {k}, seen, out)
  {
    var p, after := peers[k], out + [peers[k]];
    if (p.kind, p.id) !in seen && p.id != 0 {
      assert EntryOf(peers, p);
      hide EntryOf;
      assert after[|out|] == p && forall i :: 0 <= i < |out| ==> after[i] == out[i];
    }
  }

  lemma AllVisited(peers: Index, seen: set<(string, i64)>, out: seq<PeerRef>)
    requires Visited(peers, {}, seen, out)
    ensures IsSnapshot(peers, out)
  {
    hide EntryOf;
  }

  lemma {:induction false} SnapshotFrom(peers: Index, keys: set<i64>, seen: set<(string, i64)>, out: seq<PeerRef>)
    returns (full: seq<PeerRef>)
    requires Visited(peers, keys, seen, out)
    ensures IsSnapshot(peers, full)
    decreases keys
  {
    hide Visited, IsSnapshot;
    if keys == {} {
      AllVisited(peers, seen, out);
      full := out;
    } else {
      var k :| k in keys;
      VisitOne(peers, keys, seen, out, k);
      var key := (peers[k].kind, peers[k].id);
      if key !in seen && peers[k].id != 0 {
        full := SnapshotFrom(peers, keys - {k}, seen + {key}, out + [peers[k]]);
      } else {
        full := SnapshotFrom(peers, keys - {k}, seen, out);
      }
    }
  }

  /** The order of a snapshot is arbitrary: any of its entries can come last. */
  lemma MoveLast(peers: Index, out: seq<PeerRef>, i: nat)
    requires IsSnapshot(peers, out) && i < |out|
    ensures IsSnapshot(peers, out[..i] + out[i + 1..] + [out[i]])
  {
    hide EntryOf;
    var moved, n := out[..i] + out[i + 1..] + [out[i]], |out| - 1;
    assert forall j :: 0 <= j < i ==> moved[j] == out[j];
    assert forall j :: i < j <= n ==> moved[j - 1] == out[j];
    assert moved[n] == out[i];
    assert forall j :: i <= j < n ==> moved[j] == out[j + 1];
  }

  /** Every key holds the current entry of its id. */
  ghost predicate OneEntryEach(peers: Index) {
    forall k :: k in peers ==> peers[k].id in peers && peers[k] == peers[peers[k].id]
  }

  /** What an index holds after a history, as far as snapshots are concerned. */
  ghost predicate WellKeyed(peers: Index) {
    forall k :: k in peers ==>
      var q := peers[k];
      && Carried(q) && RawChatID(k) == q.id && (k == q.id || k == PublicPeerID(q))
      && q.id in peers
      && var e := peers[q.id];
         e.id == q.id && PublicPeerID(e) in peers && peers[PublicPeerID(e)] == e
  }

  lemma HistoryWellKeyed(h: seq<PeerRef>)
    requires AllCarried(h)
    ensures WellKeyed(RememberAll(map[], h))
  {
    hide RawChatID, NormalizeChatID, RememberAll, Entry, Older, Carried, EverSupergroup;
    var peers := RememberAll(map[], h);
    IndexedByHistory(h);
    forall k | k in peers
      ensures HoldsOlder(h, peers, k) && peers[k].id > 0 && HoldsEntry(h, peers, peers[k].id)
    {
      assert HoldsOlder(h, peers, k);
      CarriedPositive(peers[k]);
    }
  }

  // Replaying distinct ids.

  ghost predicate DistinctPeers(out: seq<PeerRef>) {
    && AllCarried(out)
    && forall i, j :: 0 <= i < j < |out| ==> out[i].id != out[j].id
  }

  ghost predicate KeyOf(p: PeerRef, k: i64) {
    k == p.id || k == PublicPeerID(p)
  }

  ghost predicate HasKey(out: seq<PeerRef>, k: i64) {
    exists i :: 0 <= i < |out| && KeyOf(out[i], k)
  }

  /** The keys of different ids never coincide. */
  lemma KeysApart(p: PeerRef, q: PeerRef, k: i64)
    requires Carried(p) && Carried(q) && p.id != q.id && KeyOf(p, k)
    ensures !KeyOf(q, k)
  {
    hide RawChatID, NormalizeChatID, Carried;
    PublicIDOfCarried(p);
    PublicIDOfCarried(q);
  }

  /** Peers with distinct ids are each stored as they come, under their two keys, and nothing else is. */
  ghost predicate StoredEach(out: seq<PeerRef>, peers: Index) {
    && (forall k: i64 :: k in peers <==> HasKey(out, k))
    && (forall i: nat, k: i64 :: i < |out| && KeyOf(out[i], k) ==> k in peers && peers[k] == out[i])
  }

  lemma StoreUnseen(peers: Index, p: PeerRef)
    requires Carried(p) && p.id !in peers && PublicPeerID(p) !in peers
    ensures Remember(peers, p) == peers[p.id := p][PublicPeerID(p) := p]
  {
    PublicIDOfCarried(p);
    hide RawChatID, NormalizeChatID, MergeWith;
  }

  lemma StoreEach(front: seq<PeerRef>, p: PeerRef, peers: Index)
    requires DistinctPeers(front + [p]) && StoredEach(front, peers)
    ensures StoredEach(front + [p], Remember(peers, p))
  {
    hide Carried, Remember, KeyOf;
    var out, n := front + [p], |front|;
    assert out[n] == p && forall i :: 0 <= i < n ==> out[i] == front[i];
    assert Carried(out[n]);
    forall i: nat, k: i64 | i < n && KeyOf(front[i], k)
      ensures !KeyOf(p, k)
    {
      assert Carried(out[i]) && out[i].id != out[n].id;
      KeysApart(front[i], p, k);
    }
    OwnKeys(p);
    assert KeyOf(p, p.id) && KeyOf(p, PublicPeerID(p));
    Unkeyed(front, p, p.id);
    Unkeyed(front, p, PublicPeerID(p));
    StoreUnseen(peers, p);
    hide DistinctPeers;
    forall k: i64
      ensures HasKey(out, k) <==> HasKey(front, k) || KeyOf(p, k)
    {
      if HasKey(front, k) {
        var i :| 0 <= i < n && KeyOf(front[i], k);
        assert KeyOf(out[i], k);
      }
      if KeyOf(p, k) {
        assert KeyOf(out[n], k);
      }
    }
  }

  lemma Unkeyed(front: seq<PeerRef>, p: PeerRef, k: i64)
    requires KeyOf(p, k) && forall i: nat, k: i64 :: i < |front| && KeyOf(front[i], k) ==> !KeyOf(p, k)
    ensures !HasKey(front, k)
  {
    hide KeyOf;
  }

  lemma OwnKeys(p: PeerRef)
    ensures forall k: i64 :: KeyOf(p, k) <==> k == p.id || k == PublicPeerID(p)
  {
  }

  lemma {:induction false} ReplayDistinct(out: seq<PeerRef>)
    requires DistinctPeers(out)
    ensures StoredEach(out, RememberAll(map[], out))
    decreases |out|
  {
    hide Carried, Remember;
    if out != [] {
      var n := |out| - 1;
      ReplayDistinct(out[..n]);
      assert out[..n] + [out[n]] == out;
      StoreEach(out[..n], out[n], RememberAll(map[], out[..n]));
    }
  }

  /** With one entry for each id every snapshot names each id once and carries its entry. */
  lemma SnapshotDistinct(peers: Index, out: seq<PeerRef>)
    requires WellKeyed(peers) && OneEntryEach(peers) && IsSnapshot(peers, out)
    ensures DistinctPeers(out)
    ensures forall i :: 0 <= i < |out| ==> out[i].id in peers && peers[out[i].id] == out[i]
  {
    hide RawChatID, NormalizeChatID, Carried;
    forall i | 0 <= i < |out|
      ensures Carried(out[i]) && out[i].id in peers && peers[out[i].id] == out[i]
    {
      assert EntryOf(peers, out[i]);
      var k: i64 :| k in peers && peers[k] == out[i];
    }
  }

  lemma ReplayKey(peers: Index, out: seq<PeerRef>, after: Index, k: i64)
    requires WellKeyed(peers) && OneEntryEach(peers) && IsSnapshot(peers, out) && StoredEach(out, after)
    ensures k in peers <==> k in after
    ensures k in peers ==> after[k] == peers[k]
  {
    hide RawChatID, NormalizeChatID, Carried;
    SnapshotDistinct(peers, out);
    hide DistinctPeers, EntryOf;
    if k in peers {
      var q := peers[k];
      assert q.id != 0 by {
        CarriedPositive(q);
      }
      var i :| 0 <= i < |out| && out[i].kind == q.kind && out[i].id == q.id;
      assert out[i] == q && KeyOf(out[i], k);
    }
    if k in after {
      assert HasKey(out, k);
      var i :| 0 <= i < |out| && KeyOf(out[i], k);
      assert out[i].id in peers && peers[out[i].id] == out[i];
    }
  }

  lemma ReplayRebuilds(peers: Index, out: seq<PeerRef>)
    requires WellKeyed(peers) && OneEntryEach(peers) && IsSnapshot(peers, out)
    ensures RememberAll(map[], out) == peers
  {
    hide RememberAll, WellKeyed, OneEntryEach, IsSnapshot, StoredEach;
    SnapshotDistinct(peers, out);
    ReplayDistinct(out);
    var after := RememberAll(map[], out);
    forall k: i64
      ensures k in peers <==> k in after
      ensures k in peers ==> after[k] == peers[k]
    {
      ReplayKey(peers, out, after, k);
    }
  }

  /** An entry left under an old key differs in kind from the current one, and both are in every snapshot. */
  lemma StaleEntry(peers: Index, out: seq<PeerRef>, k: i64) returns (i: nat)
    requires WellKeyed(peers) && IsSnapshot(peers, out) && k in peers && peers[k] != peers[peers[k].id]
    ensures i < |out| && out[i] == peers[k]
    ensures var q, e := peers[k], peers[peers[k].id];
            q.kind != e.kind && q.kind != "" && (q.kind == "channel" ==> e.kind != "supergroup")
  {
    hide RawChatID;
    var q, e := peers[k], peers[peers[k].id];
    SameChannelForm(q.id);
    PlainForms(q.id);
    hide NormalizeChatID;
    assert k == PublicPeerID(q) != PublicPeerID(e);
    assert q.id != 0 by {
      CarriedPositive(q);
    }
    i :| 0 <= i < |out| && out[i].kind == q.kind && out[i].id == q.id;
    assert EntryOf(peers, out[i]);
    var k': i64 :| k' in peers && peers[k'] == out[i];
  }

  /** No snapshot of such an index shows the id as a supergroup when the left-over entry is a channel. */
  lemma NoSupergroup(peers: Index, out: seq<PeerRef>, k: i64)
    requires WellKeyed(peers) && IsSnapshot(peers, out) && k in peers && peers[k] != peers[peers[k].id]
    requires peers[k].kind == "channel" && peers[peers[k].id].kind != "supergroup"
    ensures !EverSupergroup(out, peers[k].id)
  {
    hide RawChatID;
    var q := peers[k];
    SameChannelForm(q.id);
    hide NormalizeChatID;
    forall j | 0 <= j < |out| && out[j].id == q.id
      ensures out[j].kind != "supergroup"
    {
      assert EntryOf(peers, out[j]);
    }
  }

  lemma SnapshotCarried(peers: Index, out: seq<PeerRef>)
    requires WellKeyed(peers) && IsSnapshot(peers, out)
    ensures AllCarried(out)
  {
    hide Carried, RawChatID, NormalizeChatID;
    forall i | 0 <= i < |out| ensures Carried(out[i]) {
      assert EntryOf(peers, out[i]);
    }
  }

  /** If some id has an entry left over, the snapshot that ends with it does not replay to the same index. */
  lemma StaleReplay(peers: Index, k: i64) returns (out: seq<PeerRef>)
    requires WellKeyed(peers) && k in peers && peers[k] != peers[peers[k].id]
    ensures IsSnapshot(peers, out) && Lookup(RememberAll(map[], out), peers[k].id) != Lookup(peers, peers[k].id)
  {
    hide WellKeyed, IsSnapshot, RememberAll, Entry, LastKind, EverSupergroup, Carried, RawChatID, NormalizeChatID,
         Visited;
    IdsHeld(peers);
    NothingVisited(peers);
    var any := SnapshotFrom(peers, peers.Keys, {}, []);
    var i := StaleEntry(peers, any, k);
    MoveLast(peers, any, i);
    var front, q := any[..i] + any[i + 1..], any[i];
    out := front + [q];
    var e := peers[q.id];
    SnapshotCarried(peers, out);
    IndexedByHistory(out);
    assert out[|out| - 1] == q && Carried(q);
    CarriedPositive(q);
    NeverEntered(out, q.id);
    EntryKind(out, q.id);
    LastKindOfLast(front, q);
    if q.kind == "channel" {
      NoSupergroup(peers, out, k);
    }
    assert HoldsEntry(out, RememberAll(map[], out), q.id);
  }

  lemma LastKindOfLast(front: seq<PeerRef>, q: PeerRef)
    requires q.kind != ""
    ensures LastKind(front + [q], q.id) == q.kind
  {
  }

  /** Two indexes answer every lookup alike. */
  ghost predicate SameLookups(a: Index, b: Index) {
    forall id: i64 :: Lookup(a, id) == Lookup(b, id)
  }

  /**
   * After any history, replaying a snapshot into an empty index rebuilds the same index, and even
   * just one that answers every lookup alike, whatever the order of the snapshot, exactly when
   * every key holds the current entry of its id.
   */
  lemma SnapshotReplayExactly(h: seq<PeerRef>)
    requires AllCarried(h)
    ensures var peers := RememberAll(map[], h);
            && ((forall out :: IsSnapshot(peers, out) ==> RememberAll(map[], out) == peers) <==> OneEntryEach(peers))
            && ((forall out :: IsSnapshot(peers, out) ==> SameLookups(RememberAll(map[], out), peers))
                <==> OneEntryEach(peers))
  {
    hide RememberAll, IsSnapshot, WellKeyed, OneEntryEach, Lookup;
    var peers := RememberAll(map[], h);
    HistoryWellKeyed(h);
    if OneEntryEach(peers) {
      forall out | IsSnapshot(peers, out)
        ensures RememberAll(map[], out) == peers && SameLookups(RememberAll(map[], out), peers)
      {
        ReplayRebuilds(peers, out);
      }
    } else {
      var k := LeftOver(peers);
      var out := StaleReplay(peers, k);
      assert !SameLookups(RememberAll(map[], out), peers);
    }
  }

  /** Every public id that the entry of an id has had is its raw id or its current public id. */
  ghost predicate FormsSettled(h: seq<PeerRef>) {
    forall id: i64 :: id > 0 && Entry(h, id).Some? ==> FormsOf(h, id) <= {id, PublicPeerID(Entry(h, id).value)}
  }

  /** In terms of the sightings: every key holds the current entry exactly when no entry has left a public id behind. */
  lemma OneEntryEachExactly(h: seq<PeerRef>)
    requires AllCarried(h)
    ensures OneEntryEach(RememberAll(map[], h)) <==> FormsSettled(h)
  {
    hide RememberAll, Entry, FormsOf, RawChatID, NormalizeChatID, Carried, WasKey, HoldsEntry;
    var peers := RememberAll(map[], h);
    HistoryWellKeyed(h);
    KeysOfHistory(h);
    IndexedByHistory(h);
    if FormsSettled(h) {
      forall k | k in peers
        ensures peers[k].id in peers && peers[k] == peers[peers[k].id]
      {
        KeySettled(h, peers, k);
      }
    }
    if OneEntryEach(peers) {
      forall id: i64 | id > 0 && Entry(h, id).Some?
        ensures FormsOf(h, id) <= {id, PublicPeerID(Entry(h, id).value)}
      {
        forall f | f in FormsOf(h, id)
          ensures f == id || f == PublicPeerID(Entry(h, id).value)
        {
          FormHeld(h, peers, id, f);
        }
      }
    }
  }

  lemma KeySettled(h: seq<PeerRef>, peers: Index, k: i64)
    requires AllCarried(h) && FormsSettled(h) && WellKeyed(peers) && Indexed(h, peers)
    requires k in peers && WasKey(h, k)
    ensures peers[k].id in peers && peers[k] == peers[peers[k].id]
  {
    hide Entry, FormsOf, RawChatID, NormalizeChatID, Carried;
    var id := RawChatID(k);
    CarriedPositive(peers[k]);
    assert HoldsEntry(h, peers, id);
  }

  lemma FormHeld(h: seq<PeerRef>, peers: Index, id: i64, f: i64)
    requires AllCarried(h) && WellKeyed(peers) && Indexed(h, peers) && OneEntryEach(peers)
    requires id > 0 && Entry(h, id).Some? && f in FormsOf(h, id)
    requires forall k: i64 :: k in peers <==> WasKey(h, k)
    ensures f == id || f == PublicPeerID(Entry(h, id).value)
  {
    hide Entry, FormsOf, RawChatID, NormalizeChatID, Carried;
    FormsRaw(h, id, f);
    assert WasKey(h, f) && f in peers;
    assert HoldsEntry(h, peers, id);
  }

  lemma {:induction false} FormsRaw(h: seq<PeerRef>, id: i64, f: i64)
    requires AllCarried(h) && f in FormsOf(h, id)
    ensures RawChatID(f) == id
    decreases |h|
  {
    hide Entry, RawChatID, NormalizeChatID;
    if f in FormsOf(h[..|h| - 1], id) {
      FormsRaw(h[..|h| - 1], id, f);
    } else {
      EntryCarried(h, id);
      PublicIDOfCarried(Entry(h, id).value);
    }
  }

  lemma LeftOver(peers: Index) returns (k: i64)
    requires WellKeyed(peers) && !OneEntryEach(peers)
    ensures k in peers && peers[k].id in peers && peers[k] != peers[peers[k].id]
  {
    IdsHeld(peers);
    hide WellKeyed;
    k :| k in peers && !(peers[k].id in peers && peers[k] == peers[peers[k].id]);
  }

  lemma IdsHeld(peers: Index)
    requires WellKeyed(peers)
    ensures forall k :: k in peers ==> peers[k].id in peers
  {
  }

  /** When no id changes its class every snapshot, in any order, replays to the same index. */
  lemma SnapshotReplay(cls: i64 -> Class, h: seq<PeerRef>, out: seq<PeerRef>)
    requires AllFit(cls, h) && IsSnapshot(RememberAll(map[], h), out)
    ensures RememberAll(map[], out) == RememberAll(map[], h)
  {
    hide NormalizeChatID, RawChatID, RememberAll, Summary, IsSnapshot;
    var peers := RememberAll(map[], h);
    IndexMatchesHistory(cls, h);
    EntryIsSummary(cls, h, 0);
    SnapshotReplayExactly(h);
    forall k | k in peers
      ensures peers[k].id in peers && peers[k] == peers[peers[k].id]
    {
      var id := RawChatID(k);
      assert Known(h, k);
      SummaryFits(cls, h, id);
      PublicIDOfFitting(cls, Summary(h, id).value);
      assert Known(h, id);
    }
  }

  // The bot.

  /** A message as handlers see it. */
  datatype Update = Update(id: i32, chatId: i64, rawChatId: i64, fromId: i64, chatType: string, text: seq<byte>)

  /** peersFromTextMessage: the chat, then the sender, as far as the message names them. */
  function PeersFromTextMessage(m: TextMessage): seq<PeerRef> {
    (if m.chatId != 0 && m.chatKind != "" then [PeerRef(m.chatId, 0, m.chatKind, "", "")] else [])
    + (if m.fromId != 0 && m.fromKind != "" then [PeerRef(m.fromId, 0, m.fromKind, "", "")] else [])
  }

  /** What a message adds to the history: its chat and its sender under their own kinds, and nothing else. */
  lemma SightingsOf(h: seq<PeerRef>, m: TextMessage)
    requires m.chatId != 0 && m.chatKind != ""
    ensures var after, named := h + PeersFromTextMessage(m), m.fromId != 0 && m.fromKind != "";
            && (named ==> LastKind(after, m.fromId) == m.fromKind)
            && (!named || m.fromId != m.chatId ==> LastKind(after, m.chatId) == m.chatKind)
            && (forall id: i64 :: id != m.chatId && (id != m.fromId || !named) ==>
                  Entry(after, id) == Entry(h, id) && LastKind(after, id) == LastKind(h, id))
  {
    hide Entry, LastKind;
    var chat, sender := PeerRef(m.chatId, 0, m.chatKind, "", ""), PeerRef(m.fromId, 0, m.fromKind, "", "");
    var one := h + [chat];
    forall id: i64
      ensures id != m.chatId ==> Entry(one, id) == Entry(h, id)
      ensures LastKind(one, id) == if id == m.chatId then m.chatKind else LastKind(h, id)
    {
      EntryLater(h, chat, id);
      LastKindLater(h, chat, id);
    }
    if m.fromId != 0 && m.fromKind != "" {
      assert h + PeersFromTextMessage(m) == one + [sender];
      forall id: i64
        ensures id != m.fromId ==> Entry(one + [sender], id) == Entry(one, id)
        ensures LastKind(one + [sender], id) == if id == m.fromId then m.fromKind else LastKind(one, id)
      {
        EntryLater(one, sender, id);
        LastKindLater(one, sender, id);
      }
    } else {
      assert h + PeersFromTextMessage(m) == one;
    }
  }

  lemma LastKindLater(h: seq<PeerRef>, p: PeerRef, id: i64)
    ensures LastKind(h + [p], id) == if p.id == id && p.kind != "" then p.kind else LastKind(h, id)
  {
    assert (h + [p])[..|h|] == h;
  }

  /** The type of chat that a kind stands for. */
  function ChatTypeName(kind: string, private: bool): string {
    match kind
    case "user" => "private"
    case "chat" => "group"
    case "supergroup" => "supergroup"
    case "channel" => "channel"
    case _ => if private then "private" else ""
  }

  class Bot {
    var peers: Index
    ghost var history: seq<PeerRef>  // every sighting so far, in order

    ghost predicate Valid()
      reads this
    {
      peers == RememberAll(map[], history)
    }

    constructor ()
      ensures Valid() && history == [] && peers == map[]
    {
      peers, history := map[], [];
    }

    /** mergePeerLocked. */
    method MergePeer(p: PeerRef) returns (merged: PeerRef)
      ensures merged == if p.id == 0 then p else Merged(peers, p)
    {
      merged := p;
      if p.id == 0 {
        return;
      }
      var keys := [p.id, PublicPeerID(p)];
      for i := 0 to |keys|
        invariant i == 0 ==> merged == p
        invariant i == 1 ==> merged == MergeKey(peers, p, keys[0])
        invariant i == 2 ==> merged == MergeKey(peers, MergeKey(peers, p, keys[0]), keys[1])
      {
        var key := keys[i];
        if key != 0 && key in peers {
          merged := MergeWith(merged, peers[key]);
        }
      }
    }

    /** storePeerLocked. */
    method StorePeer(p: PeerRef)
      requires p.id != 0
      modifies this`peers
      ensures peers == Stored(old(peers), p)
    {
      peers := peers[p.id := p];
      var publicId := PublicPeerID(p);
      if publicId != 0 {
        peers := peers[publicId := p];
      }
    }

    /** rememberPeers. */
    method RememberPeers(batch: seq<PeerRef>)
      requires Valid()
      modifies this
      ensures Valid() && history == old(history) + batch
      ensures peers == RememberAll(old(peers), batch)
    {
      hide Merged, Stored, RememberAll;
      ghost var start := peers;
      RememberStep(start, batch, 0);
      for i := 0 to |batch|
        invariant peers == RememberAll(start, batch[..i]) && history == old(history)
      {
        RememberStep(start, batch, i + 1);
        var p := batch[i];
        if p.id != 0 {
          var merged := MergePeer(p);
          StorePeer(merged);
        }
      }
      assert batch[..|batch|] == batch;
      RememberAllConcat(map[], history, batch);
      history := history + batch;
    }

    /** getPeer. */
    method GetPeer(id: i64) returns (p: Option<PeerRef>)
      ensures p == Lookup(peers, id)
    {
      if id in peers {
        return Some(peers[id]);
      }
      var rawId := RawChatID(id);
      p := if rawId in peers then Some(peers[rawId]) else None;
    }

    /** snapshotPeers: the map is visited in an arbitrary order. */
    method SnapshotPeers() returns (out: seq<PeerRef>)
      ensures IsSnapshot(peers, out)
    {
      out := [];
      var seen: set<(string, i64)> := {};
      var keys := peers.Keys;
      hide Visited;
      NothingVisited(peers);
      while keys != {}
        invariant Visited(peers, keys, seen, out)
        decreases keys
      {
        var k :| k in keys;
        VisitOne(peers, keys, seen, out, k);
        keys := keys - {k};
        var p := peers[k];
        if (p.kind, p.id) !in seen && p.id != 0 {
          seen := seen + {(p.kind, p.id)};
          out := out + [p];
        }
      }
      AllVisited(peers, seen, out);
    }

    /** mtprotoTextMessageToUpdate. */
    method ToUpdate(m: TextMessage) returns (u: Update)
      ensures u.id == m.id && u.rawChatId == m.chatId && u.text == m.text
      ensures u.fromId == if m.fromId == 0 then m.chatId else m.fromId
      ensures var cached := Lookup(peers, m.chatId);
              var kind := if cached.Some? && cached.value.kind != "" then cached.value.kind else m.chatKind;
              u.chatType == (if UpdateChatType(kind) == "" && m.chatId == u.fromId then CHAT_PRIVATE
                             else UpdateChatType(kind))
      ensures u.chatId == NormalizeChatID(m.chatId, u.chatType)
    {
      var fromId := if m.fromId == 0 then m.chatId else m.fromId;
      var chatKind := m.chatKind;
      var cached := GetPeer(m.chatId);
      if cached.Some? && cached.value.kind != "" {
        chatKind := cached.value.kind;
      }
      var chatType := UpdateChatType(chatKind);
      if chatType == "" && m.chatId == fromId {
        chatType := CHAT_PRIVATE;
      }
      u := Update(m.id, NormalizeChatID(m.chatId, chatType), m.chatId, fromId, chatType, m.text);
    }

    /**
     * What Run does with one message, after any history of sightings with carried ids: the
     * dispatched chat id resolves to a peer whose id is the raw chat id, and decodes to that raw id;
     * the chat type is that of the peer's kind; chat and sender are known under the kinds the
     * message gives them; and no key of any other peer changes.
     */
    method Receive(m: TextMessage) returns (u: Update)
      requires Valid() && m.chatId != 0 && m.chatKind != ""
      requires AllCarried(history + PeersFromTextMessage(m))
      modifies this
      ensures Valid() && history == old(history) + PeersFromTextMessage(m)
      ensures u.rawChatId == m.chatId == RawChatID(u.chatId)
      ensures var entry := Entry(history, m.chatId);
              && entry.Some? && Lookup(peers, u.chatId) == entry && u.chatId == PublicPeerID(entry.value)
              && u.chatType == ChatTypeName(entry.value.kind, m.fromId == 0 || m.fromId == m.chatId)
      ensures m.fromId == 0 || m.fromKind == "" || m.fromId != m.chatId ==> LastKind(history, m.chatId) == m.chatKind
      ensures m.fromId != 0 && m.fromKind != "" ==>
                && LastKind(history, m.fromId) == m.fromKind
                && Entry(history, m.fromId).Some? && Lookup(peers, m.fromId) == Entry(history, m.fromId)
      ensures forall k: i64 :: RawChatID(k) != m.chatId && (RawChatID(k) != m.fromId || m.fromKind == "") ==>
                && (k in peers <==> k in old(peers)) && (k in peers ==> peers[k] == old(peers)[k])
      ensures forall id: i64 :: id != m.chatId && (id != m.fromId || m.fromKind == "") ==>
                Entry(history, id) == Entry(old(history), id) && LastKind(history, id) == LastKind(old(history), id)
    {
      hide NormalizeChatID, RawChatID, RememberAll, MergeWith, Entry, LastKind;
      var sightings := PeersFromTextMessage(m);
      ghost var before := history;
      RememberPeers(sightings);
      SightingsOf(before, m);
      assert history[|old(history)|] == PeerRef(m.chatId, 0, m.chatKind, "", "");
      assert Carried(history[|old(history)|]);
      EntryKnowsKind(history, |old(history)|);
      LookupsAgree(history, m.chatId);
      ghost var entry := Entry(history, m.chatId).value;
      EntryCarried(history, m.chatId);
      PublicIDOfCarried(entry);
      PlainForms(m.chatId);
      if m.fromId != 0 && m.fromKind != "" {
        SenderKnown(before, m);
      }
      forall k: i64 | RawChatID(k) != m.chatId && (RawChatID(k) != m.fromId || m.fromKind == "")
        ensures (k in peers <==> k in old(peers)) && (k in peers ==> peers[k] == old(peers)[k])
      {
        OtherKeysKept(before, sightings, k);
      }
      u := ToUpdate(m);
    }
  }

  lemma SenderKnown(h: seq<PeerRef>, m: TextMessage)
    requires m.chatId != 0 && m.chatKind != "" && AllCarried(h + PeersFromTextMessage(m))
    requires m.fromId != 0 && m.fromKind != ""
    ensures var after := h + PeersFromTextMessage(m);
            Entry(after, m.fromId).Some? && Lookup(RememberAll(map[], after), m.fromId) == Entry(after, m.fromId)
  {
    hide Entry, LastKind, Lookup, RememberAll, Carried;
    var after := h + PeersFromTextMessage(m);
    var last := |after| - 1;
    assert after[last] == PeerRef(m.fromId, 0, m.fromKind, "", "");
    assert Carried(after[last]);
    EntryKnowsKind(after, last);
    CarriedPositive(after[last]);
    LookupsAgree(after, m.fromId);
  }
}
