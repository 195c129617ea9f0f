/** The bounded caches behind the dispatcher (updates/cache.go). */
module Caches {
  import opened Bytes
  import opened PeerIndex
  import opened Wrappers

  /** The last n elements, or all of them. */
  function Tail<T>(s: seq<T>, n: nat): (t: seq<T>)
    ensures |t| == if |s| <= n then |s| else n
  {
    if |s| <= n then s else s[|s| - n..]
  }

  lemma TailGrows<T>(s: seq<T>, n: nat, x: T)
    ensures n > 0 ==> Tail(s + [x], n) == (if |Tail(s, n)| < n then Tail(s, n) else Tail(s, n)[1..]) + [x]
    ensures n == 0 ==> Tail(s + [x], n) == []
  {
  }

  lemma TailOfTail<T>(s: seq<T>, n: nat, m: nat)
    ensures Tail(Tail(s, n), m) == Tail(s, if m < n then m else n)
  {
  }

  /** A ring read from its oldest element on. */
  function Unrolled<T>(ring: seq<T>, pos: nat): (r: seq<T>)
    requires pos <= |ring|
    ensures |r| == |ring|
  {
    ring[pos..] + ring[..pos]
  }

  lemma UnrolledFromStart<T>(ring: seq<T>)
    ensures Unrolled(ring, 0) == ring
  {
  }

  lemma NextPosition(pos: nat, size: nat)
    requires pos < size
    ensures (pos + 1) % size == if pos + 1 == size then 0 else pos + 1
  {
  }

  /** Overwriting the oldest element and stepping on drops it and appends the new one. */
  lemma RingStep<T>(ring: seq<T>, pos: nat, x: T, next: nat)
    requires pos < |ring| && next == if pos + 1 == |ring| then 0 else pos + 1
    ensures Unrolled(ring[pos := x], next) == Unrolled(ring, pos)[1..] + [x]
  {
  }

  /** A ring of the most recent messages. */
  class MessageCache {
    const limit: nat
    var items: seq<Update>
    var pos: nat
    var full: bool
    ghost var added: seq<Update>  // every message ever added, in order

    /** orderedLocked: oldest first. */
    function Ordered(): seq<Update>
      reads this
      requires pos <= |items|
    {
      if !full then items else Unrolled(items, pos)
    }

    ghost predicate Valid()
      reads this
    {
      && pos <= |items| <= limit
      && (full ==> pos < |items| == limit)
      && (!full ==> pos == 0)
      && Ordered() == Tail(added, limit)
    }

    /** What the cache holds, oldest first: the last `limit` messages ever added. */
    ghost function Contents(): seq<Update>
      reads this
    {
      Tail(added, limit)
    }

    constructor (size: int)
      ensures Valid() && added == [] && limit == if size < 0 then 0 else size
    {
      limit := if size < 0 then 0 else size;
      items, pos, full, added := [], 0, false, [];
    }

    method Add(m: Update)
      requires Valid()
      modifies this
      ensures Valid() && added == old(added) + [m]
    {
      hide Tail, Unrolled;
      TailGrows(added, limit, m);
      added := added + [m];
      if limit <= 0 {
        assert items == [];
        return;
      }
      if |items| < limit {
        items := items + [m];
        return;
      }
      UnrolledFromStart(items);
      NextPosition(pos, limit);
      RingStep(items, pos, m, (pos + 1) % limit);
      items := items[pos := m];
      pos := (pos + 1) % limit;
      full := true;
    }

    method Len() returns (n: nat)
      requires Valid()
      ensures n == |Tail(added, limit)|
    {
      n := |items|;
    }

    /** All cached messages, oldest first: the last `limit` ever added. */
    method All() returns (out: seq<Update>)
      requires Valid()
      ensures out == Contents() == Tail(added, limit)
    {
      out := Ordered();
    }

    /** Up to n of the most recent messages, oldest first. */
    method Last(n: int) returns (out: seq<Update>)
      requires Valid()
      ensures out == Tail(added, if n <= 0 then 0 else if n < limit then n else limit)
    {
      if n <= 0 {
        return [];
      }
      var ordered := Ordered();
      TailOfTail(added, limit, n);
      var count := if n > |ordered| then |ordered| else n;
      out := ordered[|ordered| - count..];
    }
  }

  datatype CachedPeer = CachedPeer(id: i64, accessHash: i64, kind: string, username: string,
                                   firstName: string, lastName: string, title: string)

  // The reference: a list of peers with distinct ids, oldest insertion first.

  /** The position of an id, or the length of the list. */
  function Position(contents: seq<CachedPeer>, id: i64): (i: nat)
    ensures i <= |contents|
    ensures i < |contents| ==> contents[i].id == id
    ensures forall j :: 0 <= j < i ==> contents[j].id != id
  {
    if contents == [] || contents[0].id == id then 0 else 1 + Position(contents[1..], id)
  }

  /** Updating keeps the place of a known id; a new id goes to the end and may evict the oldest. */
  function FifoPut(contents: seq<CachedPeer>, p: CachedPeer, limit: nat): seq<CachedPeer> {
    if p.id == 0 || limit == 0 then contents
    else
      var i := Position(contents, p.id);
      if i < |contents| then contents[i := p]
      else if |contents| >= limit then contents[1..] + [p]
      else contents + [p]
  }

  function FifoRun(puts: seq<CachedPeer>, limit: nat): seq<CachedPeer> {
    if puts == [] then [] else FifoPut(FifoRun(puts[..|puts| - 1], limit), puts[|puts| - 1], limit)
  }

  lemma FifoRunGrows(puts: seq<CachedPeer>, p: CachedPeer, limit: nat)
    ensures FifoRun(puts + [p], limit) == FifoPut(FifoRun(puts, limit), p, limit)
  {
    hide FifoPut;
    assert (puts + [p])[..|puts|] == puts;
  }

  ghost predicate DistinctIds(contents: seq<CachedPeer>) {
    forall i, j :: 0 <= i < j < |contents| ==> contents[i].id != contents[j].id
  }

  /** p is the last peer put under its id. */
  ghost predicate LatestPut(puts: seq<CachedPeer>, p: CachedPeer) {
    exists k :: 0 <= k < |puts| && puts[k] == p && forall j :: k < j < |puts| ==> puts[j].id != p.id
  }

  lemma LatestPutKept(puts: seq<CachedPeer>, last: CachedPeer, p: CachedPeer)
    requires LatestPut(puts, p) && last.id != p.id
    ensures LatestPut(puts + [last], p)
  {
    var k :| 0 <= k < |puts| && puts[k] == p && forall j :: k < j < |puts| ==> puts[j].id != p.id;
    assert (puts + [last])[k] == p;
  }

  lemma LatestPutNew(puts: seq<CachedPeer>, last: CachedPeer)
    ensures LatestPut(puts + [last], last)
  {
    assert (puts + [last])[|puts|] == last;
  }

  /** One put keeps ids distinct and the length bounded; it leaves the new peer and otherwise only old ones. */
  lemma FifoPutStep(before: seq<CachedPeer>, p: CachedPeer, limit: nat)
    requires DistinctIds(before) && |before| <= limit
    ensures var after := FifoPut(before, p, limit);
            && DistinctIds(after) && |after| <= limit
            && (forall i :: 0 <= i < |after| ==> after[i] == p || after[i] in before)
            && (p.id != 0 && limit > 0 ==>
                  p in after && forall i :: 0 <= i < |after| ==> after[i] == p || after[i].id != p.id)
            && (p.id == 0 || limit == 0 ==> after == before)
  {
    var after := FifoPut(before, p, limit);
    var i := Position(before, p.id);
    if p.id != 0 && limit > 0 {
      assert after[if i < |before| then i else |after| - 1] == p;
    }
  }

  /**
   * After any run of puts: ids are distinct and not zero, at most `limit` are kept, every entry
   * is the latest one put under its id, and the last put is present.
   */
  lemma {:induction false} FifoRunProperties(puts: seq<CachedPeer>, limit: nat)
    ensures var contents := FifoRun(puts, limit);
            && DistinctIds(contents) && |contents| <= limit
            && (forall i :: 0 <= i < |contents| ==> contents[i].id != 0 && LatestPut(puts, contents[i]))
            && (limit > 0 && puts != [] && puts[|puts| - 1].id != 0 ==> puts[|puts| - 1] in contents)
    decreases |puts|
  {
    if puts != [] {
      hide LatestPut, FifoPut, DistinctIds;
      var n := |puts| - 1;
      var before, last := FifoRun(puts[..n], limit), puts[n];
      var contents := FifoRun(puts, limit);
      FifoRunProperties(puts[..n], limit);
      FifoPutStep(before, last, limit);
      assert puts[..n] + [last] == puts;
      LatestPutNew(puts[..n], last);
      forall i | 0 <= i < |contents|
        ensures contents[i].id != 0 && LatestPut(puts, contents[i])
      {
        if contents[i] != last {
          LatestPutKept(puts[..n], last, contents[i]);
        }
      }
    } else {
      assert FifoRun(puts, limit) == [];
    }
  }

  /**
   * The ids in the order in which they came in: a put comes in when its id is not among the last
   * `limit` that did.
   */
  function Arrivals(puts: seq<CachedPeer>, limit: nat): (ids: seq<i64>) {
    if puts == [] then []
    else
      var before, last := Arrivals(puts[..|puts| - 1], limit), puts[|puts| - 1];
      if last.id == 0 || last.id in Tail(before, limit) then before else before + [last.id]
  }

  function Ids(contents: seq<CachedPeer>): (ids: seq<i64>)
    ensures |ids| == |contents|
    ensures forall i :: 0 <= i < |contents| ==> ids[i] == contents[i].id
  {
    seq(|contents|, i requires 0 <= i < |contents| => contents[i].id)
  }

  lemma PositionOfId(contents: seq<CachedPeer>, id: i64)
    ensures Position(contents, id) < |contents| <==> id in Ids(contents)
  {
    var i := Position(contents, id);
    if i < |contents| {
      assert Ids(contents)[i] == id;
    }
  }

  /** One put changes the ids as one arrival does. */
  lemma FifoPutIds(before: seq<CachedPeer>, p: CachedPeer, limit: nat, arrived: seq<i64>)
    requires limit > 0 && Ids(before) == Tail(arrived, limit)
    ensures Ids(FifoPut(before, p, limit))
            == Tail(if p.id == 0 || p.id in Tail(arrived, limit) then arrived else arrived + [p.id], limit)
  {
    PositionOfId(before, p.id);
    hide Position;
    var after := FifoPut(before, p, limit);
    var i := Position(before, p.id);
    if p.id != 0 && i < |before| {
      assert Ids(before[i := p]) == Ids(before);
    }
  }

  /** What the cache keeps is the last `limit` arrivals, in the order in which they came in. */
  lemma {:induction false} FifoKeepsArrivals(puts: seq<CachedPeer>, limit: nat)
    ensures Ids(FifoRun(puts, limit)) == Tail(Arrivals(puts, limit), limit)
    decreases |puts|
  {
    hide FifoPut;
    if puts != [] {
      var n := |puts| - 1;
      FifoKeepsArrivals(puts[..n], limit);
      if limit > 0 {
        FifoPutIds(FifoRun(puts[..n], limit), puts[n], limit, Arrivals(puts[..n], limit));
      } else {
        FifoRunProperties(puts, limit);
      }
    }
  }

  // The representation: an insertion order and a map.

  ghost predicate Consistent(order: seq<i64>, items: map<i64, CachedPeer>) {
    && (forall i :: 0 <= i < |order| ==> order[i] in items && items[order[i]].id == order[i])
    && (forall i, j :: 0 <= i < j < |order| ==> order[i] != order[j])
    && (forall k :: k in items ==> k in order)
  }

  /** The entries in insertion order. */
  ghost function Entries(order: seq<i64>, items: map<i64, CachedPeer>): (r: seq<CachedPeer>)
    requires Consistent(order, items)
    ensures |r| == |order|
  {
    seq(|order|, i requires 0 <= i < |order| => items[order[i]])
  }

  lemma EntriesPosition(order: seq<i64>, items: map<i64, CachedPeer>, id: i64)
    requires Consistent(order, items)
    ensures var i := Position(Entries(order, items), id);
            (i < |order| <==> id in items) && (i < |order| ==> order[i] == id)
  {
    var i := Position(Entries(order, items), id);
    if id in items {
      var k :| 0 <= k < |order| && order[k] == id;
      assert Entries(order, items)[k].id == id;
    }
  }

  lemma EntriesUpdate(order: seq<i64>, items: map<i64, CachedPeer>, p: CachedPeer, at: nat)
    requires Consistent(order, items) && at < |order| && order[at] == p.id
    ensures Consistent(order, items[p.id := p])
    ensures Entries(order, items[p.id := p]) == Entries(order, items)[at := p]
  {
  }

  lemma EntriesAppend(order: seq<i64>, items: map<i64, CachedPeer>, p: CachedPeer)
    requires Consistent(order, items) && p.id !in items
    ensures Consistent(order + [p.id], items[p.id := p])
    ensures Entries(order + [p.id], items[p.id := p]) == Entries(order, items) + [p]
  {
    var longer := order + [p.id];
    assert longer[|order|] == p.id;
    assert forall k :: k in order ==> k in longer;
  }

  lemma EntriesEvict(order: seq<i64>, items: map<i64, CachedPeer>)
    requires Consistent(order, items) && order != []
    ensures Consistent(order[1..], items - {order[0]})
    ensures Entries(order[1..], items - {order[0]}) == Entries(order, items)[1..]
  {
    forall k | k in items && k != order[0]
      ensures k in order[1..]
    {
      var i :| 0 <= i < |order| && order[i] == k;
      assert order[1..][i - 1] == k;
    }
  }

  /** The first-in first-out peer cache: an insertion order and a map. */
  class PeerCache {
    const limit: nat
    var order: seq<i64>
    var items: map<i64, CachedPeer>
    ghost var puts: seq<CachedPeer>  // every peer ever put, in order

    ghost predicate Valid()
      reads this
    {
      Consistent(order, items) && Entries(order, items) == FifoRun(puts, limit)
    }

    /** What the cache holds, in insertion order: what the reference makes of all puts. */
    ghost function Contents(): seq<CachedPeer>
      reads this
    {
      FifoRun(puts, limit)
    }

    constructor (size: int)
      ensures Valid() && puts == [] && limit == if size < 0 then 0 else size
    {
      limit := if size < 0 then 0 else size;
      order, items, puts := [], map[], [];
    }

    method Put(p: CachedPeer)
      requires Valid()
      modifies this
      ensures Valid() && puts == old(puts) + [p]
    {
      hide Consistent, Entries, FifoRun, Position;
      ghost var before := Entries(order, items);
      FifoRunGrows(puts, p, limit);
      puts := puts + [p];
      if p.id == 0 || limit <= 0 {
        return;
      }
      EntriesPosition(order, items, p.id);
      if p.id !in items {
        if |order| >= limit {
          EntriesEvict(order, items);
          var oldest := order[0];
          order := order[1..];
          items := items - {oldest};
        }
        EntriesAppend(order, items, p);
        order := order + [p.id];
      } else {
        EntriesUpdate(order, items, p, Position(before, p.id));
      }
      items := items[p.id := p];
    }

    /** The entry under an id, which is the latest one put under it. */
    method Get(id: i64) returns (p: Option<CachedPeer>)
      requires Valid()
      ensures p.Some? <==> Position(FifoRun(puts, limit), id) < |FifoRun(puts, limit)|
      ensures p.Some? ==> p.value.id == id && p.value in FifoRun(puts, limit) && LatestPut(puts, p.value)
    {
      EntriesPosition(order, items, id);
      if id !in items {
        return None;
      }
      p := Some(items[id]);
      FifoRunProperties(puts, limit);
      hide LatestPut;
      assert Entries(order, items)[Position(Entries(order, items), id)] == items[id];
    }

    method All() returns (out: seq<CachedPeer>)
      requires Valid()
      ensures out == Contents() == FifoRun(puts, limit)
    {
      out := [];
      for i := 0 to |order|
        invariant out == Entries(order, items)[..i]
      {
        if order[i] in items {
          out := out + [items[order[i]]];
        }
      }
    }
  }
}
