/** The broker as a machine on values: the table of connected sessions and the ordered
    subscription index, stepped by one received message or one expiry at a time. The reactor
    in ServerEngine is proved to compute exactly these steps. */
module Broker {
  import opened Basics
  import opened Messages
  import opened ZLists

  datatype Rid = Rid(bytes: seq<byte>)

  /** The two library services whose result the program does not determine: regular-expression
      matching, and printf on a format that asks for missing arguments. */
  datatype Env = Env(matches: (CString, CString) -> bool, unspecified: CString -> CString)

  datatype Packet = Packet(to: Rid, msg: Msg)

  /** A pattern and the clients listed under it, oldest first. */
  datatype Entry = Entry(expression: CString, clients: seq<Rid>)

  /** Between callbacks every session in the table is connected; all it holds is the
      identifier its HELLO carried. */
  datatype State = State(sessions: map<Rid, CString>, index: seq<Entry>)

  const EMPTY: State := State(map[], [])

  datatype Input = Receive(from: Rid, msg: Msg) | Expire(rid: Rid)

  // ----- Publishing -----

  /** What one subscriber is sent for one matching pattern. */
  function Delivery(env: Env, identifier: CString, address: CString, content: seq<Frame>): Msg {
    Deliver(Format(env.unspecified, identifier), Format(env.unspecified, address), map[], content)
  }

  function DeliverAll(from: Rid, d: Msg, clients: seq<Rid>): seq<Packet> {
    if clients == [] then []
    else
      var last := clients[|clients| - 1];
      DeliverAll(from, d, clients[..|clients| - 1]) + (if last == from then [] else [Packet(last, d)])
  }

  function Forward(env: Env, from: Rid, d: Msg, address: CString, index: seq<Entry>): seq<Packet> {
    if index == [] then []
    else
      var last := index[|index| - 1];
      Forward(env, from, d, address, index[..|index| - 1])
      + (if env.matches(last.expression, address) then DeliverAll(from, d, last.clients) else [])
  }

  // ----- Subscribing and leaving -----

  function Enlist(clients: seq<Rid>, r: Rid): seq<Rid> {
    if r in clients then clients else clients + [r]
  }

  function Store(index: seq<Entry>, expression: CString, r: Rid): seq<Entry> {
    if index == [] then [Entry(expression, [r])]
    else if index[0].expression == expression then
      [Entry(expression, Enlist(index[0].clients, r))] + index[1..]
    else [index[0]] + Store(index[1..], expression, r)
  }

  function Unlist(e: Entry, r: Rid): Entry {
    Entry(e.expression, RemoveFirst(e.clients, r))
  }

  function UnlistAll(index: seq<Entry>, r: Rid): seq<Entry> {
    seq(|index|, i requires 0 <= i < |index| => Unlist(index[i], r))
  }

  function Drop(st: State, r: Rid): State {
    State(st.sessions - {r}, UnlistAll(st.index, r))
  }

  // ----- The session state machine -----

  /** What one pass of the state machine does: the state it leaves, the messages it sends,
      and whether the session then terminates. */
  datatype Outcome = Outcome(state: State, out: seq<Packet>, terminate: bool)

  function ActStart(st: State, r: Rid, m: Msg): Outcome {
    match m
    case Hello(identifier, _) =>
      Outcome(st.(sessions := st.sessions[r := identifier]), [Packet(r, HelloOk(map[]))], false)
    case Goodbye => Outcome(st, [Packet(r, GoodbyeOk(map[]))], true)
    case _ => Outcome(st, [Packet(r, Invalid)], true)
  }

  function ActConnected(env: Env, st: State, r: Rid, m: Msg): Outcome
    requires r in st.sessions
  {
    match m
    case Subscribe(expression, _) =>
      Outcome(st.(index := Store(st.index, expression, r)), [Packet(r, SubscribeOk)], false)
    case Publish(address, _, content) =>
      var d := Delivery(env, st.sessions[r], address, content);
      Outcome(st, Forward(env, r, d, address, st.index), false)
    case Direct(_, _, _) => Outcome(st, [], false)
    case Goodbye => Outcome(st, [Packet(r, GoodbyeOk(map[]))], true)
    case _ => Outcome(st, [Packet(r, Invalid)], true)
  }

  function Act(env: Env, st: State, r: Rid, m: Msg): Outcome {
    if r in st.sessions then ActConnected(env, st, r, m) else ActStart(st, r, m)
  }

  function Step(env: Env, st: State, input: Input): (State, seq<Packet>) {
    match input
    case Receive(r, m) =>
      var o := Act(env, st, r, m);
      (if o.terminate then Drop(o.state, r) else o.state, o.out)
    case Expire(r) =>
      (if r in st.sessions then Drop(st, r) else st, [])
  }

  function Run(env: Env, st: State, inputs: seq<Input>): (State, seq<Packet>) {
    if inputs == [] then (st, [])
    else
      var (before, out) := Run(env, st, inputs[..|inputs| - 1]);
      var (after, more) := Step(env, before, inputs[|inputs| - 1]);
      (after, out + more)
  }

  lemma RunNext(env: Env, st: State, inputs: seq<Input>, i: nat)
    requires i < |inputs|
    ensures var (before, out) := Run(env, st, inputs[..i]);
      var (after, more) := Step(env, before, inputs[i]);
      Run(env, st, inputs[..i + 1]) == (after, out + more)
  {
    assert inputs[..i + 1][..i] == inputs[..i];
  }

  lemma ExpireStep(env: Env, st: State, r: Rid)
    ensures Step(env, st, Expire(r)).1 == [] && (r !in st.sessions ==> Step(env, st, Expire(r)).0 == st)
  {
  }

  // ----- The invariant the code relies on and never states -----

  predicate DistinctExpressions(index: seq<Entry>) {
    forall i, j :: 0 <= i < j < |index| ==> index[i].expression != index[j].expression
  }

  predicate ListedOnce(index: seq<Entry>) {
    forall i :: 0 <= i < |index| ==> NoDuplicates(index[i].clients)
  }

  predicate ListedConnected(st: State) {
    forall i, r :: 0 <= i < |st.index| && r in st.index[i].clients ==> r in st.sessions
  }

  /** Patterns are pairwise distinct, a client is listed at most once under each, and every
      listed client is connected. */
  predicate Inv(st: State) {
    DistinctExpressions(st.index) && ListedOnce(st.index) && ListedConnected(st)
  }

  /** The scan that passes the first entry by is the scan of the rest. */
  lemma StorePast(index: seq<Entry>, e: CString, r: Rid)
    requires index != [] && index[0].expression != e
    ensures Store(index, e, r) == [index[0]] + Store(index[1..], e, r)
    ensures forall i :: 0 < i < |index| ==> index[1..][i - 1] == index[i]
    ensures (exists i :: 0 <= i < |index| && index[i].expression == e)
            <==> (exists i :: 0 <= i < |index| - 1 && index[1..][i].expression == e)
  {
    hide Enlist;
    if exists i :: 0 <= i < |index| && index[i].expression == e {
      var i :| 0 <= i < |index| && index[i].expression == e;
      assert index[1..][i - 1].expression == e;
    }
  }

  lemma {:induction false} StoreEntries(index: seq<Entry>, e: CString, r: Rid)
    requires DistinctExpressions(index) && ListedOnce(index)
    ensures |index| <= |Store(index, e, r)| <= |index| + 1
    ensures forall i :: 0 <= i < |index| ==>
      && Store(index, e, r)[i].expression == index[i].expression
      && Store(index, e, r)[i].clients
         == if index[i].expression == e then Enlist(index[i].clients, r) else index[i].clients
    ensures (exists i :: 0 <= i < |index| && index[i].expression == e) <==> |Store(index, e, r)| == |index|
    ensures |Store(index, e, r)| > |index| ==> Store(index, e, r)[|index|] == Entry(e, [r])
  {
    if index != [] && index[0].expression != e {
      assert DistinctExpressions(index[1..]) && ListedOnce(index[1..]);
      StoreEntries(index[1..], e, r);
      StorePast(index, e, r);
      hide Store, Enlist, DistinctExpressions, ListedOnce;
      var rest := Store(index[1..], e, r);
      forall i | 0 <= i < |index|
        ensures Store(index, e, r)[i].expression == index[i].expression
        ensures Store(index, e, r)[i].clients
                == if index[i].expression == e then Enlist(index[i].clients, r) else index[i].clients
      {
        assert i > 0 ==> Store(index, e, r)[i] == rest[i - 1];
      }
    } else if index != [] {
      assert index[0].expression == e;
    }
  }

  /** Storing under a pattern that exists changes that entry only. */
  lemma StoreAt(index: seq<Entry>, i: nat, r: Rid)
    requires DistinctExpressions(index) && ListedOnce(index) && i < |index|
    ensures Store(index, index[i].expression, r)
            == index[i := Entry(index[i].expression, Enlist(index[i].clients, r))]
  {
    StoreEntries(index, index[i].expression, r);
  }

  /** Storing under a new pattern appends it. */
  lemma StoreNew(index: seq<Entry>, e: CString, r: Rid)
    requires DistinctExpressions(index) && ListedOnce(index)
    requires forall i :: 0 <= i < |index| ==> index[i].expression != e
    ensures Store(index, e, r) == index + [Entry(e, [r])]
  {
  }

  lemma StoreKeepsInv(st: State, e: CString, r: Rid)
    requires Inv(st) && r in st.sessions
    ensures Inv(st.(index := Store(st.index, e, r)))
  {
    hide Store;
    StoreEntries(st.index, e, r);
  }

  lemma DropKeepsInv(st: State, r: Rid)
    requires Inv(st)
    ensures Inv(Drop(st, r))
    ensures forall i :: 0 <= i < |Drop(st, r).index| ==> r !in Drop(st, r).index[i].clients
  {
    forall i | 0 <= i < |st.index|
      ensures NoDuplicates(RemoveFirst(st.index[i].clients, r))
      ensures forall y :: y in RemoveFirst(st.index[i].clients, r) <==> y in st.index[i].clients && y != r
    {
      RemoveFirstMembers(st.index[i].clients, r);
    }
  }

  lemma StepKeepsInv(env: Env, st: State, input: Input)
    requires Inv(st)
    ensures Inv(Step(env, st, input).0)
  {
    match input
    case Expire(r) => DropKeepsInv(st, r);
    case Receive(r, m) =>
      DropKeepsInv(st, r);
      if r in st.sessions && m.Subscribe? {
        StoreKeepsInv(st, m.expression, r);
      }
  }

  /** Over every run the index keeps pairwise distinct patterns, each naming connected
      clients, each of them once. */
  lemma {:induction false} RunKeepsInv(env: Env, st: State, inputs: seq<Input>)
    requires Inv(st)
    ensures Inv(Run(env, st, inputs).0)
  {
    if inputs != [] {
      var before := inputs[..|inputs| - 1];
      RunKeepsInv(env, st, before);
      StepKeepsInv(env, Run(env, st, before).0, inputs[|inputs| - 1]);
    }
  }
}
