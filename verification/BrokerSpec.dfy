/** The broker as a reader expects it: per routing id an identifier and a set of expressions.
    Whole runs of the ordered machine, and so of the reactor, send each routing id exactly
    what this machine sends it. */
module BrokerSpec {
  import opened Basics
  import opened Messages
  import opened ZLists
  import opened Broker

  datatype Profile = Profile(identifier: CString, expressions: set<CString>)

  /** The connected routing ids. */
  type Spec = map<Rid, Profile>

  function SpecNext(sp: Spec, input: Input): Spec {
    match input
    case Expire(r) => sp - {r}
    case Receive(r, m) =>
      if r !in sp then (if m.Hello? then sp[r := Profile(m.identifier, {})] else sp)
      else match m
        case Subscribe(e, _) => sp[r := Profile(sp[r].identifier, sp[r].expressions + {e})]
        case Publish(_, _, _) => sp
        case Direct(_, _, _) => sp
        case _ => sp - {r}
  }

  function Matching(env: Env, expressions: set<CString>, address: CString): set<CString> {
    set e | e in expressions && env.matches(e, address)
  }

  function Repeat(m: Msg, n: nat): seq<Msg> {
    seq(n, _ => m)
  }

  /** What the routing id r is sent in this step. */
  function SpecSent(env: Env, sp: Spec, input: Input, r: Rid): seq<Msg> {
    match input
    case Expire(_) => []
    case Receive(from, m) =>
      if from in sp && m.Publish? then
        if r == from || r !in sp then []
        else Repeat(Delivery(env, sp[from].identifier, m.address, m.content),
                    |Matching(env, sp[r].expressions, m.address)|)
      else if r != from then []
      else if m.Goodbye? then [GoodbyeOk(map[])]
      else if from !in sp then (if m.Hello? then [HelloOk(map[])] else [Invalid])
      else if m.Subscribe? then [SubscribeOk]
      else if m.Direct? then []
      else [Invalid]
  }

  function SpecRun(inputs: seq<Input>): Spec {
    if inputs == [] then map[] else SpecNext(SpecRun(inputs[..|inputs| - 1]), inputs[|inputs| - 1])
  }

  /** What the routing id r is sent over a whole run. */
  function SpecTrace(env: Env, inputs: seq<Input>, r: Rid): seq<Msg> {
    if inputs == [] then []
    else
      var before := inputs[..|inputs| - 1];
      SpecTrace(env, before, r) + SpecSent(env, SpecRun(before), inputs[|inputs| - 1], r)
  }

  // ----- The relation between the machines -----

  /** The messages among the packets that go to r, in order. */
  function TraceTo(out: seq<Packet>, r: Rid): seq<Msg> {
    if out == [] then []
    else TraceTo(out[..|out| - 1], r) + (if out[|out| - 1].to == r then [out[|out| - 1].msg] else [])
  }

  lemma {:induction false} TraceToConcat(a: seq<Packet>, b: seq<Packet>, r: Rid)
    ensures TraceTo(a + b, r) == TraceTo(a, r) + TraceTo(b, r)
  {
    if b == [] {
      assert a + b == a;
    } else {
      var n := |b| - 1;
      TraceToConcat(a, b[..n], r);
      assert (a + b)[..|a + b| - 1] == a + b[..n];
    }
  }

  function Expressions(index: seq<Entry>, r: Rid): set<CString> {
    set i | 0 <= i < |index| && r in index[i].clients :: index[i].expression
  }

  function Abs(st: State): Spec {
    map r | r in st.sessions :: Profile(st.sessions[r], Expressions(st.index, r))
  }

  // ----- Deliveries -----

  lemma {:induction false} DeliverAllTo(from: Rid, d: Msg, clients: seq<Rid>, r: Rid)
    requires NoDuplicates(clients)
    ensures TraceTo(DeliverAll(from, d, clients), r) == if r in clients && r != from then [d] else []
  {
    if clients != [] {
      var n := |clients| - 1;
      var last := clients[n];
      var rest := clients[..n];
      assert NoDuplicates(rest);
      assert forall x :: x in clients <==> x in rest || x == last;
      assert last !in rest;
      DeliverAllTo(from, d, rest, r);
      TraceToConcat(DeliverAll(from, d, rest), if last == from then [] else [Packet(last, d)], r);
    }
  }

  lemma ExpressionsNext(index: seq<Entry>, r: Rid)
    requires index != [] && DistinctExpressions(index)
    ensures var last, before := index[|index| - 1], index[..|index| - 1];
      && last.expression !in Expressions(before, r)
      && Expressions(index, r) == Expressions(before, r) + if r in last.clients then {last.expression} else {}
  {
  }

  lemma MatchingNext(env: Env, was: set<CString>, e: CString, address: CString)
    requires e !in was
    ensures |Matching(env, was + {e}, address)|
            == |Matching(env, was, address)| + if env.matches(e, address) then 1 else 0
  {
    if env.matches(e, address) {
      assert Matching(env, was + {e}, address) == Matching(env, was, address) + {e};
    } else {
      assert Matching(env, was + {e}, address) == Matching(env, was, address);
    }
  }

  /** One PUBLISH sends every other session exactly as many deliveries as it has expressions
      that match the address, and the publisher none. */
  lemma {:induction false} DeliveryCount(env: Env, from: Rid, d: Msg, address: CString, index: seq<Entry>, r: Rid)
    requires DistinctExpressions(index) && ListedOnce(index)
    ensures TraceTo(Forward(env, from, d, address, index), r)
            == if r == from then [] else Repeat(d, |Matching(env, Expressions(index, r), address)|)
  {
    if index == [] {
      assert Expressions(index, r) == {};
      assert Matching(env, Expressions(index, r), address) == {};
    } else {
      var last, before := index[|index| - 1], index[..|index| - 1];
      assert NoDuplicates(last.clients) && DistinctExpressions(before) && ListedOnce(before);
      hide Expressions, Matching, DeliverAll, TraceTo, DistinctExpressions, ListedOnce, NoDuplicates;
      DeliveryCount(env, from, d, address, before, r);
      ExpressionsNext(index, r);
      MatchingNext(env, Expressions(before, r), last.expression, address);
      assert Expressions(before, r) + {} == Expressions(before, r);
      var more := if env.matches(last.expression, address) then DeliverAll(from, d, last.clients) else [];
      TraceToConcat(Forward(env, from, d, address, before), more, r);
      DeliverAllTo(from, d, last.clients, r);
      TraceToNothing(r);
    }
  }

  lemma TraceToNothing(r: Rid)
    ensures TraceTo([], r) == []
  {
  }

  // ----- Steps -----

  lemma StoredExpressions(index: seq<Entry>, e: CString, p: Rid, r: Rid)
    requires DistinctExpressions(index) && ListedOnce(index)
    ensures Expressions(Store(index, e, p), r) == Expressions(index, r) + if r == p then {e} else {}
  {
    if i :| 0 <= i < |index| && index[i].expression == e {
      StoreAt(index, i, p);
      var after := index[i := Entry(e, Enlist(index[i].clients, p))];
      assert forall j :: 0 <= j < |index| ==> after[j].expression == index[j].expression;
      assert after[i].clients == Enlist(index[i].clients, p);
      assert r == p ==> r in after[i].clients;
      forall x | x in Expressions(index, r)
        ensures x in Expressions(after, r)
      {
        var j :| 0 <= j < |index| && r in index[j].clients && index[j].expression == x;
        assert r in after[j].clients;
      }
    } else {
      StoreNew(index, e, p);
      var after := index + [Entry(e, [p])];
      assert after[|index|] == Entry(e, [p]);
      forall x | x in Expressions(index, r)
        ensures x in Expressions(after, r)
      {
        var j :| 0 <= j < |index| && r in index[j].clients && index[j].expression == x;
        assert after[j] == index[j];
      }
    }
  }

  lemma DroppedExpressions(st: State, p: Rid, r: Rid)
    requires Inv(st) && r != p
    ensures Expressions(Drop(st, p).index, r) == Expressions(st.index, r)
  {
    var after := Drop(st, p).index;
    forall i | 0 <= i < |st.index|
      ensures r in after[i].clients <==> r in st.index[i].clients
    {
      RemoveFirstMembers(st.index[i].clients, p);
    }
    forall x | x in Expressions(st.index, r)
      ensures x in Expressions(after, r)
    {
      var j :| 0 <= j < |st.index| && r in st.index[j].clients && st.index[j].expression == x;
      assert r in after[j].clients && after[j].expression == x;
    }
  }

  lemma DropRefines(st: State, p: Rid)
    requires Inv(st)
    ensures Abs(Drop(st, p)) == Abs(st) - {p}
  {
    forall r | r in st.sessions && r != p
      ensures Expressions(Drop(st, p).index, r) == Expressions(st.index, r)
    {
      DroppedExpressions(st, p, r);
    }
  }

  lemma UnlistedExpressions(st: State, r: Rid)
    requires Inv(st) && r !in st.sessions
    ensures Expressions(st.index, r) == {}
  {
  }

  lemma {:induction false} StoreRefines(st: State, p: Rid, e: CString)
    requires Inv(st) && p in st.sessions
    ensures Abs(st.(index := Store(st.index, e, p)))
            == Abs(st)[p := Profile(st.sessions[p], Expressions(st.index, p) + {e})]
  {
    hide Expressions, Store, DistinctExpressions, ListedOnce, ListedConnected;
    var after, expected := Abs(st.(index := Store(st.index, e, p))),
      Abs(st)[p := Profile(st.sessions[p], Expressions(st.index, p) + {e})];
    assert after.Keys == expected.Keys;
    forall r | r in after
      ensures after[r] == expected[r]
    {
      StoredExpressions(st.index, e, p, r);
      assert Expressions(st.index, r) + {} == Expressions(st.index, r);
    }
  }

  lemma StateRefines(env: Env, st: State, input: Input)
    requires Inv(st)
    ensures Abs(Step(env, st, input).0) == SpecNext(Abs(st), input)
  {
    hide Expressions, Store, Drop, DistinctExpressions, ListedOnce, ListedConnected, Forward, Delivery;
    match input
    case Expire(p) => DropRefines(st, p);
    case Receive(p, m) =>
      DropRefines(st, p);
      if p !in st.sessions {
        UnlistedExpressions(st, p);
      } else if m.Subscribe? {
        StoreRefines(st, p, m.expression);
      }
  }

  lemma OutputRefines(env: Env, st: State, input: Input, r: Rid)
    requires Inv(st)
    ensures TraceTo(Step(env, st, input).1, r) == SpecSent(env, Abs(st), input, r)
  {
    if input.Receive? && input.from in st.sessions && input.msg.Publish? {
      var m := input.msg;
      var d := Delivery(env, st.sessions[input.from], m.address, m.content);
      DeliveryCount(env, input.from, d, m.address, st.index, r);
      if r !in st.sessions {
        UnlistedExpressions(st, r);
        assert Matching(env, Expressions(st.index, r), m.address) == {};
      }
    }
  }

  /** Trace refinement: over every run from the empty broker, each routing id is sent exactly
      what the specification sends it, and the states stay related. */
  lemma {:induction false} RunRefines(env: Env, inputs: seq<Input>, r: Rid)
    ensures Abs(Run(env, EMPTY, inputs).0) == SpecRun(inputs)
    ensures TraceTo(Run(env, EMPTY, inputs).1, r) == SpecTrace(env, inputs, r)
  {
    if inputs != [] {
      var before, last := inputs[..|inputs| - 1], inputs[|inputs| - 1];
      RunRefines(env, before, r);
      RunKeepsInv(env, EMPTY, before);
      var (st, out) := Run(env, EMPTY, before);
      StateRefines(env, st, last);
      OutputRefines(env, st, last, r);
      TraceToConcat(out, Step(env, st, last).1, r);
    }
  }
}
