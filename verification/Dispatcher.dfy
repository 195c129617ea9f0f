/** Routing and the cache policy (updates/dispatcher.go, updates/options.go). */
module Dispatcher {
  import opened Caches
  import opened PeerIndex
  import opened Wrappers

  datatype CacheMode = CacheDefault | CacheNone | CacheAllMessages | CacheMatchedMessages | CacheFilteredMessages

  type Filter = Update -> bool

  /** A route; the handler's result says whether it succeeded. */
  datatype Route = Route(filter: Filter, handler: Update -> bool)

  datatype Config = Config(updatesEnabled: bool, mode: CacheMode, cacheFilter: Option<Filter>)

  /** The routes that accept a message, in registration order. */
  function Matching(routes: seq<Route>, m: Update): seq<Route> {
    if routes == [] then []
    else (if routes[0].filter(m) then [routes[0]] else []) + Matching(routes[1..], m)
  }

  /** shouldCacheMessage. */
  predicate ShouldCache(config: Config, limit: nat, m: Update, matched: bool) {
    limit > 0 &&
    match config.mode
    case CacheNone => false
    case CacheAllMessages => true
    case CacheFilteredMessages => config.cacheFilter.Some? && config.cacheFilter.value(m)
    case _ => matched
  }

  /** cachePeers: the sender as a user, then the chat under its type or a guess at it. */
  function PeersOf(m: Update): seq<CachedPeer> {
    (if m.fromId != 0 then [CachedPeer(m.fromId, 0, "user", "", "", "", "")] else [])
    + (if m.chatId != 0 then
         var kind := if m.chatType != "" then m.chatType else if m.chatId == m.fromId then "user" else "chat";
         [CachedPeer(m.chatId, 0, kind, "", "", "", "")]
       else [])
  }

  /** What happened to a dispatcher: a message under the routes of that moment, or a peer put directly. */
  datatype Event = Message(routes: seq<Route>, message: Update) | Put(peer: CachedPeer)

  predicate Accepted(config: Config, limit: nat, e: Event) {
    e.Message? && ShouldCache(config, limit, e.message, Matching(e.routes, e.message) != [])
  }

  /** The subsequence of messages that the cache policy accepts. */
  function AcceptedMessages(config: Config, limit: nat, events: seq<Event>): seq<Update> {
    if events == [] then []
    else
      var last := events[|events| - 1];
      AcceptedMessages(config, limit, events[..|events| - 1])
      + (if Accepted(config, limit, last) then [last.message] else [])
  }

  /** The peers put by an event: those of a cached or handled message, or the one given. */
  function EventPeers(config: Config, limit: nat, e: Event): seq<CachedPeer> {
    match e
    case Put(p) => [p]
    case Message(routes, m) =>
      if Accepted(config, limit, e) || Matching(routes, m) != [] then PeersOf(m) else []
  }

  function AllPuts(config: Config, limit: nat, events: seq<Event>): seq<CachedPeer> {
    if events == [] then []
    else AllPuts(config, limit, events[..|events| - 1]) + EventPeers(config, limit, events[|events| - 1])
  }

  lemma EventsGrow(config: Config, limit: nat, events: seq<Event>, e: Event)
    ensures AcceptedMessages(config, limit, events + [e])
            == AcceptedMessages(config, limit, events) + (if Accepted(config, limit, e) then [e.message] else [])
    ensures AllPuts(config, limit, events + [e]) == AllPuts(config, limit, events) + EventPeers(config, limit, e)
  {
    hide Accepted, EventPeers;
    assert (events + [e])[..|events|] == events;
  }

  // What the policy means, mode by mode.

  /** The messages among some events that satisfy a condition, in order. */
  ghost function MessagesWhere(events: seq<Event>, keep: Event -> bool): (ms: seq<Update>) {
    if events == [] then []
    else
      var last := events[|events| - 1];
      MessagesWhere(events[..|events| - 1], keep) + (if last.Message? && keep(last) then [last.message] else [])
  }

  /** Some route registered at the time accepts the message. */
  ghost predicate Wanted(e: Event) {
    e.Message? && exists i :: 0 <= i < |e.routes| && e.routes[i].filter(e.message)
  }

  /**
   * Nothing is kept without room or in the first mode; otherwise everything, what the cache filter
   * accepts (nothing if there is none), or what some route accepts.
   */
  ghost predicate Kept(config: Config, limit: nat, e: Event)
    requires e.Message?
  {
    limit > 0 && config.mode != CacheNone &&
    (config.mode == CacheAllMessages
     || (config.mode == CacheFilteredMessages && config.cacheFilter.Some? && config.cacheFilter.value(e.message))
     || ((config.mode == CacheMatchedMessages || config.mode == CacheDefault) && Wanted(e)))
  }

  /** The numbers, from some number on, of the routes that accept a message, lowest first. */
  function Accepting(routes: seq<Route>, m: Update, from: nat): (at: seq<nat>)
    ensures forall i :: 0 <= i < |at| ==> from <= at[i] < |routes|
    ensures forall i, j :: 0 <= i < j < |at| ==> at[i] < at[j]
    decreases |routes| - from
  {
    if from >= |routes| then []
    else (if routes[from].filter(m) then [from] else []) + Accepting(routes, m, from + 1)
  }

  lemma {:induction false} AcceptingAll(routes: seq<Route>, m: Update, from: nat, k: nat)
    ensures k in Accepting(routes, m, from) <==> from <= k < |routes| && routes[k].filter(m)
    decreases |routes| - from
  {
    if from < |routes| {
      AcceptingAll(routes, m, from + 1, k);
    }
  }

  lemma {:induction false} MatchingAt(routes: seq<Route>, m: Update, from: nat)
    requires from <= |routes|
    ensures var matched, at := Matching(routes[from..], m), Accepting(routes, m, from);
            |matched| == |at| && forall i :: 0 <= i < |at| ==> matched[i] == routes[at[i]]
    decreases |routes| - from
  {
    if from < |routes| {
      assert routes[from..][1..] == routes[from + 1..];
      MatchingAt(routes, m, from + 1);
    }
  }

  /** The routes that match are exactly those whose filters accept, in the order of their registration. */
  lemma MatchingIndices(routes: seq<Route>, m: Update) returns (at: seq<nat>)
    ensures |at| == |Matching(routes, m)|
    ensures forall i, j :: 0 <= i < j < |at| ==> at[i] < at[j]
    ensures forall i :: 0 <= i < |at| ==> at[i] < |routes| && Matching(routes, m)[i] == routes[at[i]]
    ensures forall k: nat :: k in at <==> k < |routes| && routes[k].filter(m)
  {
    hide Matching, Accepting;
    at := Accepting(routes, m, 0);
    MatchingAt(routes, m, 0);
    assert routes[0..] == routes;
    forall k: nat
      ensures k in at <==> k < |routes| && routes[k].filter(m)
    {
      AcceptingAll(routes, m, 0, k);
    }
  }

  lemma MatchingSome(e: Event)
    requires e.Message?
    ensures Matching(e.routes, e.message) != [] <==> Wanted(e)
  {
    hide Matching;
    var at := MatchingIndices(e.routes, e.message);
    if at != [] {
      assert at[0] in at;
    }
  }

  /** The accepted messages, in each of the modes. */
  lemma {:induction false} AcceptedByMode(config: Config, limit: nat, events: seq<Event>)
    ensures var accepted := AcceptedMessages(config, limit, events);
            && (limit == 0 || config.mode == CacheNone ==> accepted == [])
            && (limit > 0 && config.mode == CacheAllMessages ==> accepted == MessagesWhere(events, (e: Event) => true))
            && (limit > 0 && config.mode == CacheFilteredMessages ==>
                  accepted == MessagesWhere(events, (e: Event) => e.Message? && config.cacheFilter.Some?
                                                         && config.cacheFilter.value(e.message)))
            && (limit > 0 && (config.mode == CacheMatchedMessages || config.mode == CacheDefault) ==>
                  accepted == MessagesWhere(events, (e: Event) => Wanted(e)))
    decreases |events|
  {
    hide Matching, Wanted;
    if events != [] {
      var last := events[|events| - 1];
      AcceptedByMode(config, limit, events[..|events| - 1]);
      if last.Message? {
        MatchingSome(last);
      }
    }
  }

  /** The kind under which a chat is put: its type, or a guess. */
  function ChatKind(m: Update): string {
    if m.chatType != "" then m.chatType else if m.chatId == m.fromId then "user" else "chat"
  }

  /** The last peer put under the chat's id is of the chat's kind, under another sender's id a user; the others stay. */
  ghost predicate PeersUpdated(before: seq<CachedPeer>, after: seq<CachedPeer>, m: Update) {
    && (m.chatId != 0 ==>
          exists p: CachedPeer :: LatestPut(after, p) && p.id == m.chatId && p.kind == ChatKind(m))
    && (m.fromId != 0 && m.fromId != m.chatId ==>
          exists p: CachedPeer :: LatestPut(after, p) && p.id == m.fromId && p.kind == "user")
    && (forall p: CachedPeer :: p.id != m.chatId && p.id != m.fromId ==>
          (LatestPut(after, p) <==> LatestPut(before, p)))
  }

  /**
   * A message that is kept or wanted leaves its chat as the last peer put under the chat's id, with
   * the type of the chat, and its sender, if it has another id, as a user; any other message and
   * any other id leave everything as it was.
   */
  lemma MessagePeers(config: Config, limit: nat, events: seq<Event>, routes: seq<Route>, m: Update)
    ensures var e := Message(routes, m);
            var before, after := AllPuts(config, limit, events), AllPuts(config, limit, events + [e]);
            if !Kept(config, limit, e) && !Wanted(e) then after == before
            else PeersUpdated(before, after, m)
  {
    hide AllPuts, Matching, Wanted, PeersUpdated;
    var e := Message(routes, m);
    var before := AllPuts(config, limit, events);
    MatchingSome(e);
    EventsGrow(config, limit, events, e);
    if Kept(config, limit, e) || Wanted(e) {
      assert AllPuts(config, limit, events + [e]) == before + PeersOf(m);
      PeersPut(before, m);
    } else {
      assert before + [] == before;
    }
  }

  lemma PeersPut(before: seq<CachedPeer>, m: Update)
    ensures PeersUpdated(before, before + PeersOf(m), m)
  {
    hide LatestPut;
    var sender, one := CachedPeer(m.fromId, 0, "user", "", "", "", ""), before;
    if m.fromId != 0 {
      one := before + [sender];
      LatestPutNew(before, sender);
      OtherPutKept(before, sender);
    }
    if m.chatId == 0 {
      assert before + PeersOf(m) == one;
    } else {
      var chat := CachedPeer(m.chatId, 0, ChatKind(m), "", "", "", "");
      assert before + PeersOf(m) == one + [chat];
      LatestPutNew(one, chat);
      OtherPutKept(one, chat);
    }
  }

  lemma OtherPutKept(puts: seq<CachedPeer>, last: CachedPeer)
    ensures forall p: CachedPeer :: p.id != last.id ==> (LatestPut(puts + [last], p) <==> LatestPut(puts, p))
  {
    forall p: CachedPeer | p.id != last.id
      ensures LatestPut(puts + [last], p) <==> LatestPut(puts, p)
    {
      OnePutKept(puts, last, p);
    }
  }

  lemma OnePutKept(puts: seq<CachedPeer>, last: CachedPeer, p: CachedPeer)
    requires p.id != last.id
    ensures LatestPut(puts + [last], p) <==> LatestPut(puts, p)
  {
    var longer := puts + [last];
    if LatestPut(puts, p) {
      LatestPutKept(puts, last, p);
    }
    if LatestPut(longer, p) {
      var k :| 0 <= k < |longer| && longer[k] == p && forall j :: k < j < |longer| ==> longer[j].id != p.id;
      assert puts[k] == p && forall j :: k < j < |puts| ==> puts[j] == longer[j];
    }
  }

  /** Which of the matched routes run: all up to and including the first whose handler fails. */
  function Handled(matched: seq<Route>, m: Update): seq<Route> {
    if matched == [] then []
    else if !matched[0].handler(m) then [matched[0]]
    else [matched[0]] + Handled(matched[1..], m)
  }

  /** When the first i handlers succeed and the next one, if any, fails, exactly these have run. */
  lemma {:induction false} HandledUpTo(matched: seq<Route>, m: Update, i: nat)
    requires i <= |matched| && forall k :: 0 <= k < i ==> matched[k].handler(m)
    ensures i == |matched| ==> Handled(matched, m) == matched
    ensures i < |matched| && !matched[i].handler(m) ==> Handled(matched, m) == matched[..i + 1]
  {
    if i > 0 {
      HandledUpTo(matched[1..], m, i - 1);
      assert matched == [matched[0]] + matched[1..];
    }
  }

  ghost predicate AllSucceed(matched: seq<Route>, m: Update) {
    forall i :: 0 <= i < |matched| ==> matched[i].handler(m)
  }

  /**
   * The routes that run are a prefix of those that match; only the last can have failed, and
   * then none is missing for another reason.
   */
  lemma {:induction false} HandledPrefix(matched: seq<Route>, m: Update)
    ensures var ran := Handled(matched, m);
            && ran <= matched
            && (forall i :: 0 <= i < |ran| - 1 ==> ran[i].handler(m))
            && (|ran| < |matched| ==> ran != [] && !ran[|ran| - 1].handler(m))
    decreases |matched|
  {
    if matched != [] && matched[0].handler(m) {
      HandledPrefix(matched[1..], m);
    }
  }

  /** A call of a handler, with what both caches held at that moment. */
  datatype Call = Call(route: Route, message: Update, recent: seq<Update>, known: seq<CachedPeer>)

  /** The calls of some routes for one message while the caches stay as they are. */
  function Calls(ran: seq<Route>, m: Update, recent: seq<Update>, known: seq<CachedPeer>): (calls: seq<Call>)
    ensures |calls| == |ran|
  {
    seq(|ran|, i requires 0 <= i < |ran| => Call(ran[i], m, recent, known))
  }

  lemma NoCalls(log: seq<Call>, m: Update, recent: seq<Update>, known: seq<CachedPeer>)
    ensures log + Calls([], m, recent, known) == log
  {
  }

  lemma OneMoreCall(log: seq<Call>, routes: seq<Route>, i: nat, m: Update, recent: seq<Update>, known: seq<CachedPeer>)
    requires i < |routes|
    ensures log + Calls(routes[..i], m, recent, known) + [Call(routes[i], m, recent, known)]
            == log + Calls(routes[..i + 1], m, recent, known)
  {
  }

  /** The registered handlers as the dispatcher calls them: a log of calls. */
  class Handlers {
    var calls: seq<Call>

    constructor ()
      ensures calls == []
    {
      calls := [];
    }

    /** One call; the handler can look at the caches. */
    method Handle(route: Route, m: Update, messages: MessageCache, peers: PeerCache) returns (done: bool)
      requires messages.Valid() && peers.Valid()
      modifies this
      ensures calls == old(calls) + [Call(route, m, messages.Contents(), peers.Contents())]
      ensures done == route.handler(m)
    {
      var recent := messages.All();
      var known := peers.All();
      calls := calls + [Call(route, m, recent, known)];
      done := route.handler(m);
    }
  }

  class Dispatcher {
    const config: Config
    const messages: MessageCache
    const peers: PeerCache
    var routes: seq<Route>
    ghost var events: seq<Event>

    ghost predicate Valid()
      reads this, messages, peers
    {
      && messages.Valid() && peers.Valid()
      && messages.added == AcceptedMessages(config, messages.limit, events)
      && peers.puts == AllPuts(config, messages.limit, events)
    }

    /** NewDispatcher, after the options have been applied. */
    constructor (config: Config, messageCacheSize: int, peerCacheSize: int)
      ensures Valid() && fresh(messages) && fresh(peers) && routes == [] && events == []
      ensures this.config == if config.mode == CacheDefault then config.(mode := CacheMatchedMessages) else config
      ensures messages.limit == (if messageCacheSize < 0 then 0 else messageCacheSize)
      ensures peers.limit == (if peerCacheSize < 0 then 0 else peerCacheSize)
    {
      this.config := if config.mode == CacheDefault then config.(mode := CacheMatchedMessages) else config;
      messages := new MessageCache(messageCacheSize);
      peers := new PeerCache(peerCacheSize);
      routes, events := [], [];
    }

    /** OnMessage: a missing handler is ignored, a missing filter accepts everything. */
    method OnMessage(filter: Option<Filter>, handler: Option<Update -> bool>)
      requires Valid()
      modifies this`routes
      ensures Valid()
      ensures routes == if handler == None then old(routes)
                        else old(routes) + [Route(if filter == None then (_ => true) else filter.value, handler.value)]
    {
      if handler.None? {
        return;
      }
      routes := routes + [Route(if filter.None? then (_ => true) else filter.value, handler.value)];
    }

    method PutPeer(p: CachedPeer)
      requires Valid()
      modifies this`events, peers
      ensures Valid() && events == old(events) + [Put(p)]
    {
      EventsGrow(config, messages.limit, events, Put(p));
      events := events + [Put(p)];
      peers.Put(p);
    }

    /** matchingRoutes. */
    method MatchingRoutes(m: Update) returns (matched: seq<Route>)
      ensures matched == Matching(routes, m)
    {
      matched := [];
      for i := 0 to |routes|
        invariant Matching(routes, m) == matched + Matching(routes[i..], m)
      {
        assert routes[i..][1..] == routes[i + 1..];
        if routes[i].filter(m) {
          matched := matched + [routes[i]];
        }
      }
    }

    method CachePeers(m: Update)
      requires peers.Valid()
      modifies peers
      ensures peers.Valid() && peers.puts == old(peers.puts) + PeersOf(m)
    {
      if m.fromId != 0 {
        peers.Put(CachedPeer(m.fromId, 0, "user", "", "", "", ""));
      }
      if m.chatId != 0 {
        var kind := m.chatType;
        if kind == "" {
          kind := "chat";
          if m.chatId == m.fromId {
            kind := "user";
          }
        }
        peers.Put(CachedPeer(m.chatId, 0, kind, "", "", "", ""));
      }
    }

    /** Runs handlers in order until one fails. */
    method RunHandlers(matched: seq<Route>, m: Update, handlers: Handlers) returns (ok: bool)
      requires messages.Valid() && peers.Valid()
      modifies handlers
      ensures handlers.calls
              == old(handlers.calls) + Calls(Handled(matched, m), m, messages.Contents(), peers.Contents())
      ensures ok <==> AllSucceed(matched, m)
    {
      hide Handled, Calls;
      NoCalls(handlers.calls, m, messages.Contents(), peers.Contents());
      assert matched[..0] == [];
      for i := 0 to |matched|
        invariant handlers.calls == old(handlers.calls) + Calls(matched[..i], m, messages.Contents(), peers.Contents())
        invariant forall k :: 0 <= k < i ==> matched[k].handler(m)
      {
        HandledUpTo(matched, m, i);
        OneMoreCall(old(handlers.calls), matched, i, m, messages.Contents(), peers.Contents());
        var done := handlers.Handle(matched[i], m, messages, peers);
        if !done {
          return false;
        }
      }
      HandledUpTo(matched, m, |matched|);
      assert matched[..|matched|] == matched;
      return true;
    }

    /**
     * DispatchMessage: the handlers of matching routes are called in registration order up to
     * the first failure, and each finds the caches already updated by the policy.
     */
    method DispatchMessage(m: Update, handlers: Handlers) returns (ok: bool)
      requires Valid()
      modifies this`events, messages, peers, handlers
      ensures Valid() && events == old(events) + [Message(routes, m)]
      ensures var ran := if config.updatesEnabled then Handled(Matching(routes, m), m) else [];
              handlers.calls == old(handlers.calls) + Calls(ran, m, messages.Contents(), peers.Contents())
      ensures ok <==> (config.updatesEnabled ==> AllSucceed(Matching(routes, m), m))
    {
      hide AllSucceed, Matching, ShouldCache, PeersOf, AcceptedMessages, AllPuts, Calls;
      ghost var e := Message(routes, m);
      EventsGrow(config, messages.limit, events, e);
      events := events + [e];
      var matched := MatchingRoutes(m);
      var cacheThis := ShouldCache(config, messages.limit, m, matched != []);
      if cacheThis {
        messages.Add(m);
      }
      if cacheThis || |matched| > 0 {
        CachePeers(m);
      }
      if !config.updatesEnabled {
        NoCalls(handlers.calls, m, messages.Contents(), peers.Contents());
        return true;
      }
      ok := RunHandlers(matched, m, handlers);
    }

    /**
     * After any run: the message cache holds the last `limit` messages of the accepted
     * subsequence, in order, and the peer cache what the reference makes of all puts.
     */
    method CachedContents() returns (recent: seq<Update>, known: seq<CachedPeer>)
      requires Valid()
      ensures recent == Tail(AcceptedMessages(config, messages.limit, events), messages.limit)
      ensures known == FifoRun(AllPuts(config, messages.limit, events), peers.limit)
    {
      recent := messages.All();
      known := peers.All();
    }
  }
}
