/** The broker's reactor over its own data: session blocks reached through pointers from a hash
    table, from timers and from the subscription index, which is a list of patterns that each
    hold a list of session pointers. Publishing re-enters the state machine while two list
    cursors are in mid-iteration.

    Session blocks live in an explicit memory, keyed by the id a session is created with, so
    that every dereference carries the obligation that the block has not been freed. */
module ServerEngine {
  import opened Basics
  import opened Messages
  import opened ZLists
  import opened Broker

  datatype Phase = StartState | ConnectedState

  datatype Event =
    | TerminateEvent
    | NullEvent
    | HelloEvent
    | SubscribeEvent
    | PublishEvent
    | DirectEvent
    | ForwardEvent
    | GoodbyeEvent
    | ExpiredEvent

  function ProtocolEvent(m: Msg): Event {
    match m
    case Hello(_, _) => HelloEvent
    case Subscribe(_, _) => SubscribeEvent
    case Publish(_, _, _) => PublishEvent
    case Direct(_, _, _) => DirectEvent
    case Goodbye => GoodbyeEvent
    case _ => TerminateEvent
  }

  /** The key a session is stored under: its routing id in hexadecimal. */
  datatype HashKey = HashKey(text: string)

  function Key(r: Rid): HashKey {
    HashKey(StrHex(r.bytes))
  }

  lemma KeyInjective(a: Rid)
    ensures forall b :: Key(b) == Key(a) ==> b == a
  {
    forall b | Key(b) == Key(a)
      ensures b == a
    {
      StrHexInjective(a.bytes, b.bytes);
    }
  }

  /** A pointer to a session block. */
  type Ptr = nat

  datatype Session = Session(routingId: Rid,
                             hashkey: HashKey,
                             mailbox: seq<Msg>,
                             state: Phase,
                             event: Event,
                             nextEvent: Event,
                             expiryTimer: nat,
                             request: Option<Msg>,
                             reply: Draft,
                             replyTo: Rid,
                             identifier: Option<CString>)
  {
    /** Between callbacks: no request waits, and the reply is fresh and addressed to the
        session's own routing id. */
    predicate Idle() {
      mailbox == [] && reply == NewDraft(0) && replyTo == routingId
    }
  }

  /** The allocated session blocks. */
  datatype Memory = Memory(blocks: map<Ptr, Session>)

  /** The hash table of sessions. */
  datatype Hash = Hash(items: map<HashKey, Ptr>)

  /** The reactor's armed timers, with the session each one will expire. */
  datatype Timers = Timers(armed: map<nat, Ptr>)

  /** s_client_new */
  function NewSession(r: Rid): Session {
    Session(r, Key(r), [], StartState, NullEvent, NullEvent, 0, None, NewDraft(0), r, None)
  }

  class Pattern {
    const expression: CString
    const clients: ZList<Ptr>

    constructor (expression: CString, client: Ptr)
      ensures this.expression == expression && fresh(clients)
      ensures clients.items == [client] && clients.owner == this
    {
      this.expression := expression;
      clients := new ZList();
      new;
      clients.Append(client);
      clients.owner := this;
    }
  }

  // ----- Invariants between callbacks -----

  /** Table and memory hold the same sessions, each under the key of its routing id. */
  predicate TableOk(blocks: map<Ptr, Session>, items: map<HashKey, Ptr>) {
    && (forall p :: p in blocks ==>
      && blocks[p].hashkey == Key(blocks[p].routingId)
      && blocks[p].hashkey in items && items[blocks[p].hashkey] == p)
    && (forall k :: k in items ==> items[k] in blocks && blocks[items[k]].hashkey == k)
  }

  /** Every session is idle and connected, except possibly a new one whose first request is
      being handled. */
  predicate StatesOk(blocks: map<Ptr, Session>, items: map<HashKey, Ptr>,
                     sessions: map<Rid, CString>, pending: Option<Ptr>)
  {
    && (forall p :: p in blocks ==>
      && blocks[p].Idle()
      && (if blocks[p].routingId in sessions
          then blocks[p].state == ConnectedState && blocks[p].identifier == Some(sessions[blocks[p].routingId])
          else pending == Some(p) && blocks[p].state == StartState))
    && (forall r {:trigger r in sessions} :: r in sessions ==> Key(r) in items)
  }

  /** Each session owns exactly one armed timer, and timers refer to live sessions only. */
  predicate TimersOk(blocks: map<Ptr, Session>, armed: map<nat, Ptr>) {
    && (forall p :: p in blocks ==>
      blocks[p].expiryTimer in armed && armed[blocks[p].expiryTimer] == p)
    && (forall t :: t in armed ==> armed[t] in blocks && blocks[armed[t]].expiryTimer == t)
  }

  /** The pointers stand for live sessions with these routing ids. */
  predicate Names(blocks: map<Ptr, Session>, ptrs: seq<Ptr>, rids: seq<Rid>) {
    && |ptrs| == |rids|
    && forall j :: 0 <= j < |ptrs| ==> ptrs[j] in blocks && blocks[ptrs[j]].routingId == rids[j]
  }

  lemma FirstNamed(blocks: map<Ptr, Session>, ptrs: seq<Ptr>, rids: seq<Rid>)
    requires Names(blocks, ptrs, rids)
    ensures ptrs != [] ==> ptrs[0] in blocks
  {
  }

  predicate ListedOk(blocks: map<Ptr, Session>, listed: seq<seq<Ptr>>, index: seq<Entry>) {
    && |listed| == |index|
    && forall i :: 0 <= i < |listed| ==> Names(blocks, listed[i], index[i].clients)
  }

  /** What the pattern lists hold, and the broker state that all the data stands for. */
  datatype Shape = Shape(listed: seq<seq<Ptr>>, view: State)

  predicate DataOk(memory: Memory, clients: Hash, timers: Timers, shape: Shape, pending: Option<Ptr>) {
    && TableOk(memory.blocks, clients.items)
    && StatesOk(memory.blocks, clients.items, shape.view.sessions, pending)
    && TimersOk(memory.blocks, timers.armed)
    && ListedOk(memory.blocks, shape.listed, shape.view.index)
    && Inv(shape.view)
  }

  /** The pattern objects hold these expressions and client lists. */
  ghost predicate ListsOk(patterns: seq<Pattern>, listed: seq<seq<Ptr>>, index: seq<Entry>)
    reads (set p | p in patterns :: p.clients)`items, (set p | p in patterns :: p.clients)`owner
  {
    && |patterns| == |listed| == |index|
    && forall i :: 0 <= i < |patterns| ==>
      && patterns[i].expression == index[i].expression
      && patterns[i].clients.owner == patterns[i]
      && patterns[i].clients.items == listed[i]
  }

  // ----- Leaving, on values -----

  function Without(listed: seq<seq<Ptr>>, p: Ptr): seq<seq<Ptr>> {
    seq(|listed|, i requires 0 <= i < |listed| => RemoveFirst(listed[i], p))
  }

  lemma {:induction false} NamesWithout(blocks: map<Ptr, Session>, ptrs: seq<Ptr>, rids: seq<Rid>, p: Ptr)
    requires Names(blocks, ptrs, rids) && p in blocks && NoDuplicates(rids)
    requires forall q :: q in blocks && blocks[q].routingId == blocks[p].routingId ==> q == p
    ensures Names(blocks - {p}, RemoveFirst(ptrs, p), RemoveFirst(rids, blocks[p].routingId))
  {
    if ptrs != [] {
      if ptrs[0] == p {
        forall j | 0 < j < |ptrs|
          ensures ptrs[j] != p
        {
          assert rids[0] != rids[j];
        }
      } else {
        NamesWithout(blocks, ptrs[1..], rids[1..], p);
        assert rids[0] != blocks[p].routingId;
      }
    }
  }

  lemma SameRid(blocks: map<Ptr, Session>, items: map<HashKey, Ptr>, p: Ptr)
    requires TableOk(blocks, items) && p in blocks
    ensures forall q :: q in blocks && blocks[q].routingId == blocks[p].routingId ==> q == p
  {
  }

  lemma FreedListedOk(blocks: map<Ptr, Session>, items: map<HashKey, Ptr>, listed: seq<seq<Ptr>>,
                      index: seq<Entry>, p: Ptr)
    requires TableOk(blocks, items) && ListedOk(blocks, listed, index) && ListedOnce(index) && p in blocks
    ensures ListedOk(blocks - {p}, Without(listed, p), UnlistAll(index, blocks[p].routingId))
  {
    SameRid(blocks, items, p);
    forall i | 0 <= i < |listed|
      ensures Names(blocks - {p}, Without(listed, p)[i], UnlistAll(index, blocks[p].routingId)[i].clients)
    {
      NamesWithout(blocks, listed[i], index[i].clients, p);
    }
  }

  lemma FreedStatesOk(blocks: map<Ptr, Session>, items: map<HashKey, Ptr>, sessions: map<Rid, CString>, p: Ptr)
    requires TableOk(blocks, items) && StatesOk(blocks, items, sessions, Some(p)) && p in blocks
    ensures TableOk(blocks - {p}, items - {blocks[p].hashkey})
    ensures StatesOk(blocks - {p}, items - {blocks[p].hashkey}, sessions - {blocks[p].routingId}, None)
  {
    KeyInjective(blocks[p].routingId);
  }

  lemma FreedTimersOk(blocks: map<Ptr, Session>, armed: map<nat, Ptr>, p: Ptr)
    requires TimersOk(blocks, armed) && p in blocks
    ensures TimersOk(blocks - {p}, armed - {blocks[p].expiryTimer})
  {
  }

  /** The data once the session is destroyed. */
  lemma FreedOk(memory: Memory, clients: Hash, timers: Timers, shape: Shape, p: Ptr)
    requires DataOk(memory, clients, timers, shape, Some(p)) && p in memory.blocks
    ensures DistinctExpressions(shape.view.index)
    ensures var s := memory.blocks[p];
      DataOk(Memory(memory.blocks - {p}), Hash(clients.items - {s.hashkey}), Timers(timers.armed - {s.expiryTimer}),
             Shape(Without(shape.listed, p), Drop(shape.view, s.routingId)), None)
  {
    FreedStatesOk(memory.blocks, clients.items, shape.view.sessions, p);
    FreedTimersOk(memory.blocks, timers.armed, p);
    FreedListedOk(memory.blocks, clients.items, shape.listed, shape.view.index, p);
    DropKeepsInv(shape.view, memory.blocks[p].routingId);
  }

  // ----- Events and subscriptions, on values -----

  /** Bookkeeping of events and requests touches nothing the invariants speak of. */
  predicate Touched(before: Session, after: Session) {
    after == before.(event := after.event, nextEvent := after.nextEvent, request := after.request)
  }

  lemma TouchedTableOk(blocks: map<Ptr, Session>, items: map<HashKey, Ptr>, armed: map<nat, Ptr>,
                       p: Ptr, s: Session)
    requires TableOk(blocks, items) && TimersOk(blocks, armed) && p in blocks && Touched(blocks[p], s)
    ensures TableOk(blocks[p := s], items) && TimersOk(blocks[p := s], armed)
  {
    var after := blocks[p := s];
    forall q | q in after
      ensures after[q].hashkey == blocks[q].hashkey && after[q].routingId == blocks[q].routingId
      ensures after[q].expiryTimer == blocks[q].expiryTimer
    {
    }
  }

  lemma TouchedStatesOk(blocks: map<Ptr, Session>, items: map<HashKey, Ptr>, sessions: map<Rid, CString>,
                        pending: Option<Ptr>, p: Ptr, s: Session)
    requires StatesOk(blocks, items, sessions, pending) && p in blocks && Touched(blocks[p], s)
    ensures StatesOk(blocks[p := s], items, sessions, pending)
  {
  }

  lemma TouchedListedOk(blocks: map<Ptr, Session>, listed: seq<seq<Ptr>>, index: seq<Entry>, p: Ptr, s: Session)
    requires ListedOk(blocks, listed, index) && p in blocks && Touched(blocks[p], s)
    ensures ListedOk(blocks[p := s], listed, index)
  {
  }

  lemma {:induction false} TouchedOk(memory: Memory, clients: Hash, timers: Timers, shape: Shape, pending: Option<Ptr>,
                  p: Ptr, s: Session)
    requires DataOk(memory, clients, timers, shape, pending) && p in memory.blocks && Touched(memory.blocks[p], s)
    ensures DataOk(Memory(memory.blocks[p := s]), clients, timers, shape, pending)
  {
    hide TableOk, StatesOk, TimersOk, ListedOk, Inv;
    TouchedTableOk(memory.blocks, clients.items, timers.armed, p, s);
    TouchedStatesOk(memory.blocks, clients.items, shape.view.sessions, pending, p, s);
    TouchedListedOk(memory.blocks, shape.listed, shape.view.index, p, s);
  }

  function EnlistPtr(ptrs: seq<Ptr>, p: Ptr): seq<Ptr> {
    if p in ptrs then ptrs else ptrs + [p]
  }

  lemma EnlistedNames(blocks: map<Ptr, Session>, items: map<HashKey, Ptr>, ptrs: seq<Ptr>, rids: seq<Rid>, p: Ptr)
    requires TableOk(blocks, items) && Names(blocks, ptrs, rids) && p in blocks
    ensures p in ptrs <==> blocks[p].routingId in rids
    ensures Names(blocks, EnlistPtr(ptrs, p), Enlist(rids, blocks[p].routingId))
  {
  }

  lemma StoredAtOk(memory: Memory, clients: Hash, timers: Timers, shape: Shape, p: Ptr, i: nat)
    requires DataOk(memory, clients, timers, shape, None) && p in memory.blocks
    requires i < |shape.listed| == |shape.view.index|
    ensures DistinctExpressions(shape.view.index)
    ensures var r, e := memory.blocks[p].routingId, shape.view.index[i].expression;
      && Store(shape.view.index, e, r)
         == shape.view.index[i := Entry(e, Enlist(shape.view.index[i].clients, r))]
      && DataOk(memory, clients, timers,
             Shape(shape.listed[i := EnlistPtr(shape.listed[i], p)],
                   shape.view.(index := Store(shape.view.index, e, r))), None)
  {
    var r, e := memory.blocks[p].routingId, shape.view.index[i].expression;
    StoreAt(shape.view.index, i, r);
    StoreKeepsInv(shape.view, e, r);
    EnlistedNames(memory.blocks, clients.items, shape.listed[i], shape.view.index[i].clients, p);
  }

  lemma StoredNewOk(memory: Memory, clients: Hash, timers: Timers, shape: Shape, p: Ptr, e: CString)
    requires DataOk(memory, clients, timers, shape, None) && p in memory.blocks
    requires forall i :: 0 <= i < |shape.view.index| ==> shape.view.index[i].expression != e
    ensures Store(shape.view.index, e, memory.blocks[p].routingId)
            == shape.view.index + [Entry(e, [memory.blocks[p].routingId])]
    ensures DataOk(memory, clients, timers,
             Shape(shape.listed + [[p]],
                   shape.view.(index := Store(shape.view.index, e, memory.blocks[p].routingId))), None)
  {
    StoreNew(shape.view.index, e, memory.blocks[p].routingId);
    StoreKeepsInv(shape.view, e, memory.blocks[p].routingId);
  }

  // ----- Arriving, on values -----

  function Armed(s: Session, t: nat): Session {
    s.(expiryTimer := t)
  }

  lemma ArrivedTableOk(blocks: map<Ptr, Session>, items: map<HashKey, Ptr>, armed: map<nat, Ptr>,
                       r: Rid, p: Ptr, t: nat)
    requires TableOk(blocks, items) && TimersOk(blocks, armed) && p !in blocks && Key(r) !in items && t !in armed
    ensures var after := blocks[p := Armed(NewSession(r), t)];
      TableOk(after, items[Key(r) := p]) && TimersOk(after, armed[t := p])
  {
  }

  lemma ArrivedListedOk(blocks: map<Ptr, Session>, listed: seq<seq<Ptr>>, index: seq<Entry>, p: Ptr, s: Session)
    requires ListedOk(blocks, listed, index) && p !in blocks
    ensures ListedOk(blocks[p := s], listed, index)
  {
  }

  /** The data once a session is created for the routing id, with its timer armed. */
  lemma ArrivedOk(memory: Memory, clients: Hash, timers: Timers, shape: Shape, r: Rid, p: Ptr, t: nat)
    requires DataOk(memory, clients, timers, shape, None) && Key(r) !in clients.items
    requires p !in memory.blocks && t !in timers.armed
    ensures DataOk(Memory(memory.blocks[p := Armed(NewSession(r), t)]), Hash(clients.items[Key(r) := p]),
                   Timers(timers.armed[t := p]), shape, Some(p))
  {
    ArrivedTableOk(memory.blocks, clients.items, timers.armed, r, p, t);
    ArrivedListedOk(memory.blocks, shape.listed, shape.view.index, p, Armed(NewSession(r), t));
  }

  /** The data once a session's timer is replaced. */
  lemma RearmedTimersOk(blocks: map<Ptr, Session>, armed: map<nat, Ptr>, p: Ptr, t: nat)
    requires TimersOk(blocks, armed) && p in blocks && t !in armed
    ensures TimersOk(blocks[p := Armed(blocks[p], t)], (armed - {blocks[p].expiryTimer})[t := p])
  {
  }

  lemma RearmedListedOk(blocks: map<Ptr, Session>, listed: seq<seq<Ptr>>, index: seq<Entry>, p: Ptr, t: nat)
    requires ListedOk(blocks, listed, index) && p in blocks
    ensures ListedOk(blocks[p := Armed(blocks[p], t)], listed, index)
  {
  }

  lemma RearmedTableOk(blocks: map<Ptr, Session>, items: map<HashKey, Ptr>, p: Ptr, t: nat)
    requires TableOk(blocks, items) && p in blocks
    ensures TableOk(blocks[p := Armed(blocks[p], t)], items)
  {
  }

  lemma RearmedStatesOk(blocks: map<Ptr, Session>, items: map<HashKey, Ptr>, sessions: map<Rid, CString>,
                        p: Ptr, t: nat)
    requires StatesOk(blocks, items, sessions, None) && p in blocks
    ensures StatesOk(blocks[p := Armed(blocks[p], t)], items, sessions, Some(p))
  {
  }

  lemma {:induction false} RearmedOk(memory: Memory, clients: Hash, timers: Timers, shape: Shape, p: Ptr, t: nat)
    requires DataOk(memory, clients, timers, shape, None) && p in memory.blocks && t !in timers.armed
    ensures DataOk(Memory(memory.blocks[p := Armed(memory.blocks[p], t)]), clients,
                   Timers((timers.armed - {memory.blocks[p].expiryTimer})[t := p]), shape, Some(p))
  {
    hide TableOk, StatesOk, TimersOk, ListedOk, Inv;
    RearmedTimersOk(memory.blocks, timers.armed, p, t);
    RearmedListedOk(memory.blocks, shape.listed, shape.view.index, p, t);
    RearmedTableOk(memory.blocks, clients.items, p, t);
    RearmedStatesOk(memory.blocks, clients.items, shape.view.sessions, p, t);
  }

  // ----- Registering, on values -----

  function Registered(s: Session, identifier: CString): Session {
    s.(identifier := Some(identifier), state := ConnectedState)
  }

  lemma RegisteredStatesOk(blocks: map<Ptr, Session>, items: map<HashKey, Ptr>, sessions: map<Rid, CString>,
                           p: Ptr, name: CString)
    requires TableOk(blocks, items) && StatesOk(blocks, items, sessions, Some(p))
    requires p in blocks && blocks[p].state == StartState
    ensures StatesOk(blocks[p := Registered(blocks[p], name)], items, sessions[blocks[p].routingId := name], None)
  {
  }

  lemma RegisteredTableOk(blocks: map<Ptr, Session>, items: map<HashKey, Ptr>, armed: map<nat, Ptr>,
                          p: Ptr, name: CString)
    requires TableOk(blocks, items) && TimersOk(blocks, armed) && p in blocks
    ensures var after := blocks[p := Registered(blocks[p], name)];
      TableOk(after, items) && TimersOk(after, armed)
  {
  }

  lemma RegisteredListedOk(blocks: map<Ptr, Session>, listed: seq<seq<Ptr>>, index: seq<Entry>, p: Ptr, name: CString)
    requires ListedOk(blocks, listed, index) && p in blocks
    ensures ListedOk(blocks[p := Registered(blocks[p], name)], listed, index)
  {
  }

  /** The data once the session is registered under the identifier. */
  lemma RegisteredOk(memory: Memory, clients: Hash, timers: Timers, shape: Shape, p: Ptr, name: CString)
    requires DataOk(memory, clients, timers, shape, Some(p)) && p in memory.blocks
    requires memory.blocks[p].state == StartState
    ensures var s := memory.blocks[p];
      DataOk(Memory(memory.blocks[p := Registered(s, name)]), clients, timers,
             Shape(shape.listed, shape.view.(sessions := shape.view.sessions[s.routingId := name])), None)
  {
    RegisteredStatesOk(memory.blocks, clients.items, shape.view.sessions, p, name);
    RegisteredTableOk(memory.blocks, clients.items, timers.armed, p, name);
    RegisteredListedOk(memory.blocks, shape.listed, shape.view.index, p, name);
    assert Inv(shape.view.(sessions := shape.view.sessions[memory.blocks[p].routingId := name]));
  }

  // ----- Forwarding, on values -----

  lemma ListedIs(memory: Memory, clients: Hash, timers: Timers, shape: Shape, p: Ptr, i: nat, j: nat)
    requires DataOk(memory, clients, timers, shape, None) && p in memory.blocks
    requires i < |shape.listed| && j < |shape.listed[i]|
    ensures |shape.view.index| == |shape.listed| && |shape.view.index[i].clients| == |shape.listed[i]|
    ensures var c := shape.listed[i][j];
      && c in memory.blocks && memory.blocks[c].Idle() && memory.blocks[c].state == ConnectedState
      && memory.blocks[c].routingId == shape.view.index[i].clients[j]
      && (c == p <==> shape.view.index[i].clients[j] == memory.blocks[p].routingId)
  {
  }

  lemma HashedIs(memory: Memory, clients: Hash, timers: Timers, shape: Shape, r: Rid)
    requires DataOk(memory, clients, timers, shape, None) && Key(r) in clients.items
    ensures var p := clients.items[Key(r)]; p in memory.blocks && memory.blocks[p].routingId == r
  {
    KeyInjective(r);
  }

  lemma UnhashedIs(memory: Memory, clients: Hash, timers: Timers, shape: Shape, r: Rid)
    requires DataOk(memory, clients, timers, shape, None) && Key(r) !in clients.items
    ensures r !in shape.view.sessions
  {
  }

  lemma TimedIs(memory: Memory, clients: Hash, timers: Timers, shape: Shape, p: Ptr)
    requires DataOk(memory, clients, timers, shape, None) && p in memory.blocks
    ensures memory.blocks[p].routingId in shape.view.sessions
    ensures memory.blocks[p].expiryTimer in timers.armed && timers.armed[memory.blocks[p].expiryTimer] == p
  {
  }

  lemma TableHolds(memory: Memory, clients: Hash, timers: Timers, shape: Shape, k: HashKey)
    requires DataOk(memory, clients, timers, shape, None) && k in clients.items
    ensures clients.items[k] in memory.blocks
  {
  }

  lemma ListedLength(memory: Memory, clients: Hash, timers: Timers, shape: Shape, i: nat)
    requires DataOk(memory, clients, timers, shape, None) && i < |shape.listed|
    ensures |shape.view.index| == |shape.listed| && |shape.view.index[i].clients| == |shape.listed[i]|
  {
  }

  lemma PublisherIs(memory: Memory, clients: Hash, timers: Timers, shape: Shape, p: Ptr)
    requires DataOk(memory, clients, timers, shape, Some(p)) && p in memory.blocks
    ensures memory.blocks[p].Idle()
    ensures var s := memory.blocks[p];
      && (s.state == StartState <==> s.routingId !in shape.view.sessions)
      && (s.state == ConnectedState ==>
           && DataOk(memory, clients, timers, shape, None)
           && s.identifier == Some(shape.view.sessions[s.routingId]))
  {
  }

  lemma DeliverAllNext(from: Rid, d: Msg, rids: seq<Rid>, j: nat)
    requires j < |rids|
    ensures DeliverAll(from, d, rids[..j + 1])
            == DeliverAll(from, d, rids[..j]) + (if rids[j] == from then [] else [Packet(rids[j], d)])
  {
    assert rids[..j + 1][..j] == rids[..j];
  }

  lemma ForwardNothing(env: Env, from: Rid, d: Msg, address: CString)
    ensures Forward(env, from, d, address, []) == []
  {
  }

  lemma ForwardNext(env: Env, from: Rid, d: Msg, address: CString, index: seq<Entry>, i: nat)
    requires i < |index|
    ensures Forward(env, from, d, address, index[..i + 1])
            == Forward(env, from, d, address, index[..i])
               + (if env.matches(index[i].expression, address) then DeliverAll(from, d, index[i].clients) else [])
  {
    assert index[..i + 1][..i] == index[..i];
  }

  class Server {
    const env: Env
    const patterns: ZList<Pattern>
    var memory: Memory
    var nextId: Ptr
    var clients: Hash
    var timers: Timers
    var timerSeq: nat
    // What a forward in progress delivers
    var sender: Option<CString>
    var address: Option<CString>
    var headers: Option<Dict>
    var content: Option<seq<Frame>>
    /** Everything sent on the router socket so far. */
    var sent: seq<Packet>
    ghost var shape: Shape

    ghost predicate ListsHold()
      reads this`shape, patterns`items
      reads (set p | p in patterns.items :: p.clients)`items, (set p | p in patterns.items :: p.clients)`owner
    {
      ListsOk(patterns.items, shape.listed, shape.view.index)
    }

    ghost predicate ValidFor(pending: Option<Ptr>)
      reads this`memory, this`clients, this`timers, this`shape, this`nextId, this`timerSeq, this`headers
      reads patterns`items
      reads (set p | p in patterns.items :: p.clients)`items, (set p | p in patterns.items :: p.clients)`owner
    {
      && DataOk(memory, clients, timers, shape, pending) && ListsHold()
      && (forall p :: p in memory.blocks ==> p < nextId)
      && (forall t :: t in timers.armed ==> t <= timerSeq)
      && headers == None
    }

    ghost predicate Valid()
      reads this`memory, this`clients, this`timers, this`shape, this`nextId, this`timerSeq, this`headers
      reads patterns`items
      reads (set p | p in patterns.items :: p.clients)`items, (set p | p in patterns.items :: p.clients)`owner
    {
      ValidFor(None)
    }

    constructor (env: Env, firstId: Ptr)
      ensures Valid() && shape.view == EMPTY && sent == [] && this.env == env
      ensures fresh(patterns) && patterns.items == []
    {
      this.env := env;
      patterns := new ZList();
      memory, nextId, clients, timers, timerSeq := Memory(map[]), firstId, Hash(map[]), Timers(map[]), 0;
      sender, address, headers, content := None, None, None, None;
      sent, shape := [], Shape([], EMPTY);
    }

    // ----- Leaving -----

    /** Takes the session off every pattern. */
    method ClientTerminate(p: Ptr, ghost r: Rid)
      requires ListsHold() && DistinctExpressions(shape.view.index)
      modifies patterns`cursor, set q | q in patterns.items :: q.clients
      ensures ListsOk(patterns.items, Without(shape.listed, p), UnlistAll(shape.view.index, r))
    {
      hide RemoveFirst;
      var pattern := patterns.First();
      ghost var i := 0;
      ghost var ps, before := patterns.items, shape.listed;
      while pattern.Some?
        invariant 0 <= i <= |ps|
        invariant patterns.cursor == if i < |ps| then i else -1
        invariant pattern == if i < |ps| then Some(ps[i]) else None
        invariant forall k :: 0 <= k < |ps| ==> ps[k].clients.owner == ps[k]
        invariant forall k :: 0 <= k < i ==> ps[k].clients.items == RemoveFirst(before[k], p)
        invariant forall k :: i <= k < |ps| ==> ps[k].clients.items == before[k]
        decreases |ps| - i
      {
        pattern.value.clients.Remove(p);
        pattern := patterns.Next();
        i := i + 1;
      }
    }

    /** Removes the session from the hash table, which destroys it: its timer is disarmed, it
        leaves every pattern, and its block is freed. */
    method Delete(p: Ptr)
      requires ValidFor(Some(p)) && p in memory.blocks
      modifies this`memory, this`clients, this`timers, this`shape
      modifies patterns`cursor, set q | q in patterns.items :: q.clients
      ensures Valid() && memory.blocks == old(memory.blocks) - {p}
      ensures shape.view == Drop(old(shape.view), old(memory.blocks[p].routingId))
    {
      hide DataOk, ListsOk, UnlistAll;
      FreedOk(memory, clients, timers, shape, p);
      var s := memory.blocks[p];
      clients := Hash(clients.items - {s.hashkey});
      timers := Timers(timers.armed - {s.expiryTimer});
      ClientTerminate(p, s.routingId);
      memory := Memory(memory.blocks - {p});
      shape := Shape(Without(shape.listed, p), Drop(shape.view, s.routingId));
    }

    // ----- Subscribing -----

    /** Adds the session to the pattern's list, unless it is on it. */
    method EnlistClient(pattern: Pattern, p: Ptr)
      modifies pattern.clients`items, pattern.clients`cursor
      ensures pattern.clients.items == EnlistPtr(old(pattern.clients.items), p)
    {
      var client := pattern.clients.First();
      ghost var j := 0;
      while client.Some?
        invariant 0 <= j <= |pattern.clients.items|
        invariant pattern.clients.items == old(pattern.clients.items) && p !in pattern.clients.items[..j]
        invariant client == if j < |pattern.clients.items| then Some(pattern.clients.items[j]) else None
        invariant pattern.clients.cursor == if j < |pattern.clients.items| then j else -1
        decreases |pattern.clients.items| - j
      {
        if client.value == p {
          break;
        }
        client := pattern.clients.Next();
        j := j + 1;
      }
      if client.None? {
        assert pattern.clients.items == pattern.clients.items[..j];
        pattern.clients.Append(p);
      }
    }

    /** What storing a subscription leaves. */
    twostate predicate Subscribed(p: Ptr)
      requires p in memory.blocks && memory.blocks[p].request.Some? && memory.blocks[p].request.value.Subscribe?
      reads *
    {
      && Valid()
      && shape.view == old(shape.view).(index :=
        Store(old(shape.view.index), memory.blocks[p].request.value.expression, memory.blocks[p].routingId))
      && forall q :: q in patterns.items ==> q in old(patterns.items) || fresh(q.clients)
    }

    method EnlistAt(pattern: Pattern, p: Ptr, ghost i: nat)
      requires Valid() && p in memory.blocks
      requires memory.blocks[p].request.Some? && memory.blocks[p].request.value.Subscribe?
      requires i < |patterns.items| && pattern == patterns.items[i]
      requires pattern.expression == memory.blocks[p].request.value.expression
      modifies this`shape, pattern.clients`items, pattern.clients`cursor
      ensures Subscribed(p)
    {
      hide DataOk, Store;
      StoredAtOk(memory, clients, timers, shape, p, i);
      ghost var r := memory.blocks[p].routingId;
      EnlistClient(pattern, p);
      shape := Shape(shape.listed[i := EnlistPtr(shape.listed[i], p)],
                     shape.view.(index := Store(shape.view.index, pattern.expression, r)));
    }

    method AddPattern(expression: CString, p: Ptr)
      requires Valid() && p in memory.blocks
      requires memory.blocks[p].request.Some? && memory.blocks[p].request.value.Subscribe?
      requires expression == memory.blocks[p].request.value.expression
      requires forall q :: q in patterns.items ==> q.expression != expression
      modifies this`shape, patterns`items, patterns`cursor
      ensures Subscribed(p)
    {
      hide DataOk, Store, Inv;
      StoredNewOk(memory, clients, timers, shape, p, expression);
      ghost var r := memory.blocks[p].routingId;
      var added := new Pattern(expression, p);
      patterns.Append(added);
      shape := Shape(shape.listed + [[p]], shape.view.(index := Store(shape.view.index, expression, r)));
    }

    /** Searches the pattern list for the expression; the cursor stays on the pattern found. */
    method FindPattern(expression: CString) returns (pattern: Option<Pattern>, ghost i: nat)
      modifies patterns`cursor
      ensures pattern.Some? ==>
        i < |patterns.items| && pattern.value == patterns.items[i] && pattern.value.expression == expression
      ensures pattern.None? ==> forall q :: q in patterns.items ==> q.expression != expression
    {
      pattern := patterns.First();
      i := 0;
      while pattern.Some?
        invariant 0 <= i <= |patterns.items|
        invariant patterns.cursor == if i < |patterns.items| then i else -1
        invariant pattern == if i < |patterns.items| then Some(patterns.items[i]) else None
        invariant forall k :: 0 <= k < i ==> patterns.items[k].expression != expression
        decreases |patterns.items| - i
      {
        if pattern.value.expression == expression {
          break;
        }
        pattern := patterns.Next();
        i := i + 1;
      }
    }

    method StoreNewSubscription(p: Ptr)
      requires Valid() && p in memory.blocks
      requires memory.blocks[p].request.Some? && memory.blocks[p].request.value.Subscribe?
      modifies this`shape, patterns`items, patterns`cursor
      modifies (set q | q in patterns.items :: q.clients)`items, (set q | q in patterns.items :: q.clients)`cursor
      ensures Subscribed(p)
    {
      hide DataOk, Store;
      var expression := memory.blocks[p].request.value.expression;
      var pattern, i := FindPattern(expression);
      if pattern.Some? {
        EnlistAt(pattern.value, p, i);
      } else {
        AddPattern(expression, p);
      }
    }

    // ----- Sending -----

    /** Encodes the reply to its routing id; the session gets a fresh reply to fill. */
    method Send(p: Ptr)
      requires p in memory.blocks && HELLO <= memory.blocks[p].reply.id <= INVALID
      modifies this`memory, this`sent
      ensures sent == old(sent) + [Packet(old(memory.blocks[p].replyTo), ToMsg(old(memory.blocks[p].reply)))]
      ensures memory.blocks == old(memory.blocks)[p :=
        old(memory.blocks[p]).(reply := NewDraft(0), replyTo := old(memory.blocks[p]).routingId)]
    {
      var s := memory.blocks[p];
      sent := sent + [Packet(s.replyTo, ToMsg(s.reply))];
      memory := Memory(memory.blocks[p := s.(reply := NewDraft(0), replyTo := s.routingId)]);
    }

    /** Sends a reply that carries nothing but its id. */
    method SendId(p: Ptr, id: int)
      requires p in memory.blocks && memory.blocks[p].Idle() && HELLO <= id <= INVALID
      modifies this`memory, this`sent
      ensures memory == old(memory)
      ensures sent == old(sent) + [Packet(memory.blocks[p].routingId, ToMsg(NewDraft(id)))]
    {
      var s := memory.blocks[p];
      memory := Memory(memory.blocks[p := s.(reply := s.reply.(id := id))]);
      Send(p);
      assert memory.blocks == old(memory.blocks);
    }

    ghost predicate Forwarding()
      reads this`sender, this`address, this`content
    {
      sender.Some? && address.Some? && content.Some?
    }

    ghost function Delivered(): Msg
      requires Forwarding()
      reads this`sender, this`address, this`content
    {
      Delivery(env, sender.value, address.value, content.value)
    }

    method GetContentToPublish(p: Ptr)
      requires p in memory.blocks && Forwarding()
      modifies this`memory
      ensures memory.blocks == old(memory.blocks)[p := old(memory.blocks[p]).(
        reply := old(memory.blocks[p]).reply.(
          sender := Some(Format(env.unspecified, sender.value)),
          address := Some(Format(env.unspecified, address.value)),
          headers := headers,
          content := content))]
    {
      var s := memory.blocks[p];
      var reply := s.reply;
      reply := reply.(sender := Some(Format(env.unspecified, sender.value)));
      reply := reply.(address := Some(Format(env.unspecified, address.value)));
      reply := reply.(headers := headers);
      reply := reply.(content := content);
      memory := Memory(memory.blocks[p := s.(reply := reply)]);
    }

    /** The actions of a forward event. */
    method DeliverContent(p: Ptr)
      requires p in memory.blocks && memory.blocks[p].Idle() && Forwarding() && headers == None
      modifies this`memory, this`sent
      ensures memory == old(memory)
      ensures sent == old(sent) + [Packet(memory.blocks[p].routingId, Delivered())]
    {
      GetContentToPublish(p);
      var s := memory.blocks[p];
      memory := Memory(memory.blocks[p := s.(reply := s.reply.(id := DELIVER))]);
      Send(p);
      assert memory.blocks == old(memory.blocks);
    }

    /** Takes the oldest request off the mailbox; both states accept every event. */
    method FilterMailbox(p: Ptr) returns (e: Event)
      requires p in memory.blocks
      modifies this`memory
      ensures old(memory.blocks[p]).mailbox == [] ==> e == NullEvent && memory == old(memory)
      ensures old(memory.blocks[p]).mailbox != [] ==>
        var s := old(memory.blocks[p]);
        && memory.blocks == old(memory.blocks)[p := s.(mailbox := s.mailbox[1..], request := Some(s.mailbox[0]))]
        && e == ProtocolEvent(s.mailbox[0])
    {
      var s := memory.blocks[p];
      if s.mailbox == [] {
        return NullEvent;
      }
      e := ProtocolEvent(s.mailbox[0]);
      memory := Memory(memory.blocks[p := s.(mailbox := s.mailbox[1..], request := Some(s.mailbox[0]))]);
    }

    // ----- The session state machine -----

    /** Can the session handle the event: a forward, an expiry, or the event of its request? */
    ghost predicate CanHandle(s: Session, e: Event)
      reads this`sender, this`address, this`content
    {
      && e != NullEvent
      && (e == ForwardEvent ==> s.state == ConnectedState && Forwarding())
      && (e != ForwardEvent && e != ExpiredEvent ==> s.request.Some? && e == ProtocolEvent(s.request.value))
    }

    /** What one pass over the event amounts to. */
    ghost function Handled(s: Session, e: Event): Outcome
      requires CanHandle(s, e)
      reads this`shape, this`sender, this`address, this`content
    {
      if e == ExpiredEvent then Outcome(shape.view, [], true)
      else if e == ForwardEvent then Outcome(shape.view, [Packet(s.routingId, Delivered())], false)
      else Act(env, shape.view, s.routingId, s.request.value)
    }

    method SetNextEvent(p: Ptr, e: Event, ghost pending: Option<Ptr>)
      requires ValidFor(pending) && p in memory.blocks
      modifies this`memory
      ensures ValidFor(pending)
      ensures memory.blocks == old(memory.blocks)[p := old(memory.blocks[p]).(nextEvent := e)]
    {
      hide DataOk;
      ghost var s := memory.blocks[p];
      TouchedOk(memory, clients, timers, shape, pending, p, s.(nextEvent := e));
      memory := Memory(memory.blocks[p := memory.blocks[p].(nextEvent := e)]);
    }

    // ----- Publishing, and the re-entry into the state machine -----

    /** What one or more forward events to other sessions leave as it was for session p. */
    twostate predicate ForwardedBeside(p: Ptr)
      requires p in old(memory.blocks)
      reads *
    {
      && Valid() && shape == old(shape)
      && p in memory.blocks && memory.blocks[p] == old(memory.blocks[p])
    }

    /** The j-th client of the i-th pattern: skipped when it is the publisher. */
    method ForwardToClient(p: Ptr, c: Ptr, ghost i: nat, ghost j: nat, ghost d: Msg)
      requires Valid() && Forwarding() && d == Delivered() && p in memory.blocks
      requires i < |shape.listed| == |shape.view.index| && j < |shape.listed[i]| == |shape.view.index[i].clients|
      requires c == shape.listed[i][j]
      modifies this`memory, this`sent
      ensures ForwardedBeside(p)
      ensures
        var r, q := old(memory.blocks[p].routingId), old(shape.view.index)[i].clients[j];
        sent == old(sent) + (if q == r then [] else [Packet(q, d)])
      decreases 0, 9
    {
      hide DataOk, Delivery;
      ListedIs(memory, clients, timers, shape, p, i, j);
      if c != p {
        EngineSendEvent(c, ForwardEvent);
      }
    }

    method ForwardToPattern(p: Ptr, pattern: Pattern, ghost i: nat, ghost d: Msg)
      requires Valid() && Forwarding() && d == Delivered() && p in memory.blocks
      requires i < |shape.view.index| && i < |patterns.items| && pattern == patterns.items[i]
      modifies this`memory, this`sent, pattern.clients`cursor
      ensures ForwardedBeside(p)
      ensures sent == old(sent) + DeliverAll(old(memory.blocks[p].routingId), d, old(shape.view.index)[i].clients)
      decreases 1, 1
    {
      hide DataOk, Delivery;
      ListedLength(memory, clients, timers, shape, i);
      ghost var j, ptrs := 0, pattern.clients.items;
      ghost var r, rids := memory.blocks[p].routingId, shape.view.index[i].clients;
      var client := pattern.clients.First();
      while client.Some?
        invariant ForwardedBeside(p)
        invariant 0 <= j <= |ptrs| && pattern.clients.cursor == if j < |ptrs| then j else -1
        invariant client == if j < |ptrs| then Some(ptrs[j]) else None
        invariant sent == old(sent) + DeliverAll(r, d, rids[..j])
        decreases |ptrs| - j
      {
        ForwardToClient(p, client.value, i, j, d);
        DeliverAllNext(r, d, rids, j);
        client := pattern.clients.Next();
        j := j + 1;
      }
      assert rids[..j] == rids;
    }

    lemma NonePending(pending: Option<Ptr>)
      requires Valid()
      ensures ValidFor(pending)
    {
    }

    lemma PatternsIndexed()
      requires Valid()
      ensures |patterns.items| == |shape.view.index|
    {
    }

    method ForwardToMatch(p: Ptr, pattern: Pattern, ghost i: nat, ghost m: Msg, ghost d: Msg)
      requires Valid() && Forwarding() && d == Delivered() && p in memory.blocks
      requires i < |shape.view.index| && i < |patterns.items| && pattern == patterns.items[i]
      requires memory.blocks[p].request == Some(m) && m.Publish?
      modifies this`memory, this`sent, pattern.clients`cursor
      ensures ForwardedBeside(p)
      ensures var e := old(shape.view.index)[i];
        sent == old(sent) + (if env.matches(e.expression, m.address)
                             then DeliverAll(old(memory.blocks[p].routingId), d, e.clients) else [])
      decreases 1, 2
    {
      hide DataOk, Delivery, DeliverAll;
      if env.matches(pattern.expression, memory.blocks[p].request.value.address) {
        ForwardToPattern(p, pattern, i, d);
      }
    }

    /** Delivers to the clients of every pattern that matches the request's address. */
    method ForwardToMatches(p: Ptr, ghost m: Msg, ghost d: Msg)
      requires Valid() && Forwarding() && d == Delivered() && p in memory.blocks
      requires memory.blocks[p].request == Some(m) && m.Publish?
      modifies this`memory, this`sent
      modifies patterns`cursor, (set q | q in patterns.items :: q.clients)`cursor
      ensures ForwardedBeside(p)
      ensures sent == old(sent) + Forward(env, old(memory.blocks[p].routingId), d, m.address, old(shape).view.index)
      decreases 1, 3
    {
      hide DataOk, Delivery, DeliverAll, ListsHold, Forward;
      ForwardNothing(env, memory.blocks[p].routingId, d, m.address);
      PatternsIndexed();
      ghost var i, ps, index, r := 0, patterns.items, shape.view.index, memory.blocks[p].routingId;
      var pattern := patterns.First();
      while pattern.Some?
        invariant ForwardedBeside(p)
        invariant 0 <= i <= |ps| == |index| && patterns.cursor == if i < |ps| then i else -1
        invariant pattern == if i < |ps| then Some(ps[i]) else None
        invariant sent == old(sent) + Forward(env, r, d, m.address, index[..i])
        decreases |ps| - i
      {
        ForwardNext(env, r, d, m.address, index, i);
        ForwardToMatch(p, pattern.value, i, m, d);
        pattern := patterns.Next();
        i := i + 1;
      }
      assert index[..i] == index;
    }

    method ForwardToSubscribers(p: Ptr, ghost s: Session, ghost m: Msg)
      requires Valid() && p in memory.blocks && s == memory.blocks[p] && s.request == Some(m) && m.Publish?
      requires s.identifier.Some?
      modifies this`memory, this`sent, this`sender, this`address, this`content
      modifies patterns`cursor, (set q | q in patterns.items :: q.clients)`cursor
      ensures ForwardedBeside(p)
      ensures sent == old(sent) + Forward(env, s.routingId, Delivery(env, s.identifier.value, m.address, m.content),
                                          m.address, old(shape).view.index)
      decreases 1, 4
    {
      hide DataOk, Delivery, DeliverAll, Forward;
      // Keep track of the message that goes out to subscribers
      sender := memory.blocks[p].identifier;
      address := Some(memory.blocks[p].request.value.address);
      content := Some(memory.blocks[p].request.value.content);
      ForwardToMatches(p, m, Delivered());
    }

    /** Executes a forward event on another session, while list cursors stand in mid-iteration. */
    method EngineSendEvent(c: Ptr, e: Event)
      requires Valid() && e == ForwardEvent && c in memory.blocks && CanHandle(memory.blocks[c], e)
      modifies this`memory, this`sent
      ensures Valid() && shape == old(shape)
      ensures memory.blocks == old(memory.blocks)[c :=
        old(memory.blocks[c]).(event := ForwardEvent, nextEvent := NullEvent)]
      ensures sent == old(sent) + [Packet(old(memory.blocks[c]).routingId, old(Delivered()))]
      decreases 0, 8
    {
      NonePending(Some(c));
      ClientExecute(c, e, memory.blocks[c], Handled(memory.blocks[c], e));
    }

    // ----- The events of each state -----

    method RegisterNewClient(p: Ptr)
      requires p in memory.blocks && memory.blocks[p].request.Some? && memory.blocks[p].request.value.Hello?
      modifies this`memory
      ensures memory.blocks == old(memory.blocks)[p :=
        old(memory.blocks[p]).(identifier := Some(old(memory.blocks[p].request.value.identifier)))]
    {
      var s := memory.blocks[p];
      memory := Memory(memory.blocks[p := s.(identifier := Some(s.request.value.identifier))]);
    }

    method Hello(p: Ptr, ghost s: Session, ghost name: CString)
      requires ValidFor(Some(p)) && p in memory.blocks && s == memory.blocks[p] && s.state == StartState
      requires s.request.Some? && s.request.value.Hello? && s.request.value.identifier == name
      modifies this`memory, this`sent, this`shape
      ensures Valid() && memory.blocks == old(memory.blocks)[p := Registered(s, name)]
      ensures shape.view == old(shape).view.(sessions := old(shape).view.sessions[s.routingId := name])
      ensures sent == old(sent) + [Packet(s.routingId, HelloOk(map[]))]
    {
      hide DataOk;
      PublisherIs(memory, clients, timers, shape, p);
      RegisteredOk(memory, clients, timers, shape, p, name);
      RegisterNewClient(p);
      SendId(p, HELLO_OK);
      memory := Memory(memory.blocks[p := memory.blocks[p].(state := ConnectedState)]);
      shape := Shape(shape.listed, shape.view.(sessions := shape.view.sessions[s.routingId := name]));
      assert memory.blocks == old(memory.blocks)[p := Registered(s, name)];
    }

    /** Sends the id, if any, and asks for the session to end. */
    method Terminate(p: Ptr, id: Option<int>, ghost s: Session)
      requires ValidFor(Some(p)) && p in memory.blocks && s == memory.blocks[p]
      requires id.Some? ==> HELLO <= id.value <= INVALID
      modifies this`memory, this`sent
      ensures ValidFor(Some(p)) && memory.blocks == old(memory.blocks)[p := s.(nextEvent := TerminateEvent)]
      ensures sent == old(sent) + if id.Some? then [Packet(s.routingId, ToMsg(NewDraft(id.value)))] else []
    {
      hide DataOk, ListsHold;
      PublisherIs(memory, clients, timers, shape, p);
      if id.Some? {
        SendId(p, id.value);
      }
      SetNextEvent(p, TerminateEvent, Some(p));
    }

    /** The session has handled its event: it sent and left what the outcome says. */
    ghost predicate HasHandled(p: Ptr, s: Session, o: Outcome)
      reads *
    {
      && ValidFor(Some(p)) && p in memory.blocks
      && memory.blocks[p].routingId == s.routingId
      && memory.blocks[p].nextEvent == (if o.terminate then TerminateEvent else NullEvent)
      && (!o.terminate ==> Valid())
      && shape.view == o.state
    }

    method StartEvents(p: Ptr, ghost s: Session, ghost o: Outcome)
      requires ValidFor(Some(p)) && p in memory.blocks && s == memory.blocks[p]
      requires s.state == StartState && s.nextEvent == NullEvent && CanHandle(s, s.event) && o == Handled(s, s.event)
      modifies this`memory, this`sent, this`shape
      ensures HasHandled(p, s, o) && sent == old(sent) + o.out
    {
      hide DataOk, ListsHold;
      PublisherIs(memory, clients, timers, shape, p);
      var event := memory.blocks[p].event;
      if event == HelloEvent {
        Hello(p, s, s.request.value.identifier);
        NonePending(Some(p));
      } else if event == GoodbyeEvent {
        Terminate(p, Some(GOODBYE_OK), s);
      } else if event == ExpiredEvent {
        Terminate(p, None, s);
      } else {
        Terminate(p, Some(INVALID), s);
      }
    }

    /** The actions of a subscribe event. */
    method Subscribe(p: Ptr, ghost s: Session)
      requires Valid() && p in memory.blocks && s == memory.blocks[p] && s.nextEvent == NullEvent
      requires s.request.Some? && s.request.value.Subscribe?
      modifies this`memory, this`sent, this`shape, patterns`items, patterns`cursor
      modifies (set q | q in patterns.items :: q.clients)`items, (set q | q in patterns.items :: q.clients)`cursor
      ensures HasHandled(p, s, Outcome(
        old(shape).view.(index := Store(old(shape).view.index, s.request.value.expression, s.routingId)), [], false))
      ensures sent == old(sent) + [Packet(s.routingId, SubscribeOk)]
      ensures forall q :: q in patterns.items ==> q in old(patterns.items) || fresh(q.clients)
    {
      hide DataOk, ListsHold, Store;
      NonePending(Some(p));
      PublisherIs(memory, clients, timers, shape, p);
      StoreNewSubscription(p);
      SendId(p, SUBSCRIBE_OK);
      NonePending(Some(p));
    }

    method ConnectedEvents(p: Ptr, ghost s: Session, ghost o: Outcome)
      requires Valid() && p in memory.blocks && s == memory.blocks[p]
      requires s.state == ConnectedState && s.nextEvent == NullEvent
      requires CanHandle(s, s.event) && o == Handled(s, s.event)
      modifies this`memory, this`sent, Scope(s.event)
      ensures HasHandled(p, s, o) && sent == old(sent) + o.out
      ensures s.event == ForwardEvent ==> shape == old(shape) && memory == old(memory)
      ensures timers == old(timers) && timerSeq == old(timerSeq)
      ensures forall q :: q in patterns.items ==> q in old(patterns.items) || fresh(q.clients)
      decreases if s.event == PublishEvent then 1 else 0, 5
    {
      hide DataOk, ListsHold, Forward, Store, Inv, Drop, Delivery;
      NonePending(Some(p));
      PublisherIs(memory, clients, timers, shape, p);
      var event := memory.blocks[p].event;
      if event == SubscribeEvent {
        Subscribe(p, s);
      } else if event == PublishEvent {
        ForwardToSubscribers(p, s, s.request.value);
        NonePending(Some(p));
      } else if event == DirectEvent {
      } else if event == ForwardEvent {
        DeliverContent(p);
      } else if event == GoodbyeEvent {
        Terminate(p, Some(GOODBYE_OK), s);
      } else if event == ExpiredEvent {
        Terminate(p, None, s);
      } else {
        Terminate(p, Some(INVALID), s);
      }
    }

    ghost function Scope(e: Event): set<object>
      reads this, patterns`items
    {
      if e == ForwardEvent then {}
      else {this as object, patterns as object} + (set q | q in patterns.items :: q.clients as object)
    }

    /** One pass of the state machine: takes the next event and acts on it in the current state. */
    method HandleNextEvent(p: Ptr, ghost s: Session, ghost e: Event, ghost o: Outcome)
      requires ValidFor(Some(p)) && p in memory.blocks && memory.blocks[p] == s.(nextEvent := e)
      requires CanHandle(s, e) && o == Handled(s, e)
      modifies this`memory, this`sent, Scope(e)
      ensures HasHandled(p, s, o) && sent == old(sent) + o.out
      ensures e == ForwardEvent ==>
        && shape == old(shape)
        && memory.blocks == old(memory.blocks)[p := s.(event := e, nextEvent := NullEvent)]
      ensures timers == old(timers) && timerSeq == old(timerSeq)
      ensures forall q :: q in patterns.items ==> q in old(patterns.items) || fresh(q.clients)
      decreases if e == PublishEvent then 1 else 0, 6
    {
      hide DataOk, ListsHold, Act, Delivery, Drop, Inv;
      ghost var s' := s.(event := e, nextEvent := NullEvent);
      TouchedOk(memory, clients, timers, shape, Some(p), p, s');
      PublisherIs(memory, clients, timers, shape, p);
      memory := Memory(memory.blocks[p := memory.blocks[p].(event := memory.blocks[p].nextEvent)]);
      memory := Memory(memory.blocks[p := memory.blocks[p].(nextEvent := NullEvent)]);
      assert memory.blocks == old(memory.blocks)[p := s'];
      if memory.blocks[p].state == StartState {
        StartEvents(p, s', o);
      } else {
        PublisherIs(memory, clients, timers, shape, p);
        ConnectedEvents(p, s', o);
      }
    }

    /** The rest of the pass: a session that asked for it is destroyed, any other one takes its
        next request; none waits here. */
    method EndPass(p: Ptr, ghost s: Session, ghost o: Outcome) returns (ended: bool)
      requires HasHandled(p, s, o)
      modifies this`memory
      modifies if o.terminate then {this, patterns} + (set q | q in patterns.items :: q.clients as object) else {}
      ensures ended == o.terminate && sent == old(sent) && patterns.items == old(patterns.items)
      ensures !ended ==> HasHandled(p, s, o) && memory == old(memory) && shape == old(shape) && timers == old(timers)
      ensures timerSeq == old(timerSeq)
      ensures ended ==> Valid() && shape.view == Drop(o.state, s.routingId)
    {
      hide DataOk, ListsHold, Act, Delivery;
      if memory.blocks[p].nextEvent == TerminateEvent {
        Delete(p);
        return true;
      }
      PublisherIs(memory, clients, timers, shape, p);
      if memory.blocks[p].nextEvent == NullEvent {
        var e := FilterMailbox(p);
        memory := Memory(memory.blocks[p := memory.blocks[p].(nextEvent := e)]);
        assert memory.blocks == old(memory.blocks);
      }
      return false;
    }

    /** Executes the event, and then the events of waiting requests; here none wait. */
    method ClientExecute(p: Ptr, event: Event, ghost s: Session, ghost o: Outcome)
      requires ValidFor(Some(p)) && p in memory.blocks && s == memory.blocks[p]
      requires CanHandle(s, event) && o == Handled(s, event)
      modifies this`memory, this`sent, Scope(event)
      ensures Valid() && sent == old(sent) + o.out
      ensures shape.view == if o.terminate then Drop(o.state, s.routingId) else o.state
      ensures event == ForwardEvent ==>
        && shape == old(shape)
        && memory.blocks == old(memory.blocks)[p := s.(event := ForwardEvent, nextEvent := NullEvent)]
      ensures !o.terminate ==>
        timers == old(timers) && p in memory.blocks && memory.blocks[p].routingId == s.routingId
      ensures timerSeq == old(timerSeq)
      ensures forall q :: q in patterns.items ==> q in old(patterns.items) || fresh(q.clients)
      decreases if event == PublishEvent then 1 else 0, 7
    {
      hide DataOk, ListsHold, Act, Delivery;
      SetNextEvent(p, event, Some(p));
      ghost var handled := false;
      while memory.blocks[p].nextEvent != NullEvent
        invariant p in memory.blocks
        invariant !handled ==>
          && ValidFor(Some(p)) && memory.blocks == old(memory.blocks)[p := s.(nextEvent := event)]
          && o == Handled(s, event) && CanHandle(s, event) && sent == old(sent)
        invariant handled ==> !o.terminate && HasHandled(p, s, o) && sent == old(sent) + o.out
        invariant handled && event == ForwardEvent ==>
          memory.blocks == old(memory.blocks)[p := s.(event := ForwardEvent, nextEvent := NullEvent)]
        invariant event == ForwardEvent ==> shape == old(shape)
        invariant timers == old(timers) && timerSeq == old(timerSeq)
        invariant forall q :: q in patterns.items ==> q in old(patterns.items) || fresh(q.clients)
        decreases if handled then 0 else 1
      {
        HandleNextEvent(p, s, event, o);
        handled := true;
        var ended := EndPass(p, s, o);
        if ended {
          break;
        }
      }
    }

    // ----- Reference integrity between callbacks -----

    /** A session is connected, is stored under its own key, answers to its own routing id, owns
        exactly one armed timer, and is listed at most once under each pattern. */
    lemma SessionIntegrity(p: Ptr)
      requires Valid() && p in memory.blocks
      ensures memory.blocks[p].state == ConnectedState && memory.blocks[p].mailbox == []
      ensures memory.blocks[p].replyTo == memory.blocks[p].routingId
      ensures forall k :: k in clients.items && clients.items[k] == p <==> k == Key(memory.blocks[p].routingId)
      ensures forall t :: t in timers.armed && timers.armed[t] == p <==> t == memory.blocks[p].expiryTimer
      ensures forall q :: q in patterns.items ==> NoDuplicates(q.clients.items)
    {
    }

    /** A block that was freed is referenced nowhere: not by the table, nor by a timer, nor by a
        pattern. */
    lemma FreedIsUnreferenced(p: Ptr)
      requires Valid() && p !in memory.blocks
      ensures p !in clients.items.Values && p !in timers.armed.Values
      ensures forall q :: q in patterns.items ==> p !in q.clients.items
    {
    }

    // ----- Callbacks of the reactor -----

    /** Finds the sender's session, or creates one, and restarts its inactivity timer. */
    method Accept(r: Rid) returns (p: Ptr)
      requires Valid()
      modifies this`memory, this`clients, this`timers, this`nextId, this`timerSeq
      ensures ValidFor(Some(p)) && p in memory.blocks && memory.blocks[p].routingId == r
      ensures clients.items == old(clients).items[Key(r) := p] && timerSeq == old(timerSeq) + 1
      ensures Key(r) in old(clients).items ==>
        && p in old(memory).blocks
        && memory.blocks == old(memory).blocks[p := Armed(old(memory).blocks[p], timerSeq)]
        && timers.armed == (old(timers).armed - {old(memory).blocks[p].expiryTimer})[timerSeq := p]
      ensures Key(r) !in old(clients).items ==>
        && p !in old(memory).blocks
        && memory.blocks == old(memory).blocks[p := Armed(NewSession(r), timerSeq)]
        && timers.armed == old(timers).armed[timerSeq := p]
    {
      hide DataOk, ListsHold;
      var t := timerSeq + 1;
      if Key(r) in clients.items {
        p := clients.items[Key(r)];
        HashedIs(memory, clients, timers, shape, r);
        RearmedOk(memory, clients, timers, shape, p, t);
        timers := Timers(timers.armed - {memory.blocks[p].expiryTimer});
      } else {
        p := nextId;
        ArrivedOk(memory, clients, timers, shape, r, p, t);
        nextId := nextId + 1;
        memory := Memory(memory.blocks[p := NewSession(r)]);
        clients := Hash(clients.items[Key(r) := p]);
      }
      timers := Timers(timers.armed[t := p]);
      memory := Memory(memory.blocks[p := Armed(memory.blocks[p], t)]);
      timerSeq := t;
      if Key(r) !in old(clients).items {
        assert memory.blocks == old(memory).blocks[p := Armed(NewSession(r), t)];
      }
    }

    /** Queues the message and takes it off again, as the state machine accepts any event. */
    method Enqueue(p: Ptr, msg: Msg) returns (e: Event)
      requires ValidFor(Some(p)) && p in memory.blocks
      modifies this`memory
      ensures ValidFor(Some(p)) && e == ProtocolEvent(msg)
      ensures memory.blocks == old(memory.blocks)[p := old(memory.blocks[p]).(request := Some(msg))]
    {
      hide DataOk, ListsHold;
      ghost var s := memory.blocks[p];
      PublisherIs(memory, clients, timers, shape, p);
      TouchedOk(memory, clients, timers, shape, Some(p), p, s.(request := Some(msg)));
      memory := Memory(memory.blocks[p := memory.blocks[p].(mailbox := memory.blocks[p].mailbox + [msg])]);
      assert s.mailbox + [msg] == [msg] && [msg][1..] == [];
      e := FilterMailbox(p);
      assert memory.blocks == old(memory.blocks)[p := s.(request := Some(msg))];
    }

    /** Callback for a message on the router socket. */
    method ClientMessage(r: Rid, msg: Msg)
      requires Valid()
      modifies this, patterns, set q | q in patterns.items :: q.clients
      ensures Valid()
      ensures shape.view == Step(env, old(shape).view, Receive(r, msg)).0
      ensures sent == old(sent) + Step(env, old(shape).view, Receive(r, msg)).1
      ensures r in shape.view.sessions ==>
        && timerSeq == old(timerSeq) + 1 && timerSeq in timers.armed && timers.armed[timerSeq] in memory.blocks
        && memory.blocks[timers.armed[timerSeq]].routingId == r
      ensures forall q :: q in patterns.items ==> q in old(patterns.items) || fresh(q.clients)
    {
      hide DataOk, ListsHold, Act, Store, Delivery, Forward;
      var p := Accept(r);
      var e := Enqueue(p, msg);
      if e != NullEvent {
        ghost var o := Act(env, shape.view, r, msg);
        ClientExecute(p, e, memory.blocks[p], o);
      }
    }

    /** Callback for an inactivity timer. */
    method HandleTimeout(t: nat)
      requires Valid() && t in timers.armed && timers.armed[t] in memory.blocks
      modifies this, patterns, set q | q in patterns.items :: q.clients
      ensures Valid() && sent == old(sent)
      ensures shape.view == Step(env, old(shape).view, Expire(old(memory.blocks[timers.armed[t]].routingId))).0
      ensures forall q :: q in patterns.items ==> q in old(patterns.items) || fresh(q.clients)
    {
      hide DataOk, ListsHold, Act;
      var p := timers.armed[t];
      TimedIs(memory, clients, timers, shape, p);
      NonePending(Some(p));
      ClientExecute(p, ExpiredEvent, memory.blocks[p], Outcome(shape.view, [], true));
    }

    /** The timer with which a connected session expires. */
    method TimerOf(r: Rid) returns (t: Option<nat>)
      requires Valid()
      ensures t.Some? <==> r in shape.view.sessions
      ensures t.Some? ==>
        && t.value in timers.armed && timers.armed[t.value] in memory.blocks
        && memory.blocks[timers.armed[t.value]].routingId == r
    {
      hide DataOk, ListsHold;
      if Key(r) in clients.items {
        HashedIs(memory, clients, timers, shape, r);
        TimedIs(memory, clients, timers, shape, clients.items[Key(r)]);
        t := Some(memory.blocks[clients.items[Key(r)]].expiryTimer);
      } else {
        UnhashedIs(memory, clients, timers, shape, r);
        t := None;
      }
    }

    // ----- The actor -----

    /** The reactor, over any sequence of received messages and expiries. An expiry of a routing
        id without a session cannot happen, as no timer is armed for it. */
    method Serve(inputs: seq<Input>)
      requires Valid()
      modifies this, patterns, set q | q in patterns.items :: q.clients
      ensures Valid()
      ensures shape.view == Run(env, old(shape).view, inputs).0
      ensures sent == old(sent) + Run(env, old(shape).view, inputs).1
      ensures forall q :: q in patterns.items ==> q in old(patterns.items) || fresh(q.clients)
    {
      hide DataOk, ListsHold, Step;
      for i := 0 to |inputs|
        invariant Valid()
        invariant shape.view == Run(env, old(shape).view, inputs[..i]).0
        invariant sent == old(sent) + Run(env, old(shape).view, inputs[..i]).1
        invariant forall q :: q in patterns.items ==> q in old(patterns.items) || fresh(q.clients)
      {
        RunNext(env, old(shape).view, inputs, i);
        match inputs[i]
        case Receive(r, m) => ClientMessage(r, m);
        case Expire(r) =>
          ExpireStep(env, shape.view, r);
          var t := TimerOf(r);
          if t.Some? {
            HandleTimeout(t.value);
          }
      }
      assert inputs[..|inputs|] == inputs;
    }

    /** Destroys every session, in whatever order the hash table yields them. */
    method Destroy()
      requires Valid()
      modifies this, patterns, set q | q in patterns.items :: q.clients
      ensures memory.blocks == map[] && timers.armed == map[] && clients.items == map[]
      ensures patterns.items == old(patterns.items) && forall q :: q in patterns.items ==> q.clients.items == []
      ensures sent == old(sent)
    {
      hide DataOk, ListsHold;
      while clients.items != map[]
        invariant Valid() && patterns.items == old(patterns.items) && sent == old(sent)
        decreases |memory.blocks|
      {
        var k :| k in clients.items;
        var p := clients.items[k];
        TableHolds(memory, clients, timers, shape, k);
        NonePending(Some(p));
        Delete(p);
      }
      NothingLeft();
    }

    lemma NothingLeft()
      requires Valid() && clients.items == map[]
      ensures memory.blocks == map[] && timers.armed == map[]
      ensures forall q :: q in patterns.items ==> q.clients.items == []
    {
      forall i | 0 <= i < |patterns.items|
        ensures patterns.items[i].clients.items == []
      {
        assert Names(memory.blocks, shape.listed[i], shape.view.index[i].clients);
        FirstNamed(memory.blocks, shape.listed[i], shape.view.index[i].clients);
      }
    }
  }
}
