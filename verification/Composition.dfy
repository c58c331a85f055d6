/** One client and the broker, joined by two queues of messages. The application calls the
    client, other clients send to the broker, and the broker may silently expire any session.
    Wire lifts the results to queues of frames. */
module Composition {
  import opened Basics
  import opened Messages
  import C = Client
  import B = Broker
  import S = BrokerSpec

  /** The client, the messages on their way in each direction, the broker, and the argument of
      the subscribe call that made the client send a SUBSCRIBE last. */
  datatype System = System(client: C.State, toServer: seq<Msg>, toClient: seq<Msg>, broker: B.State,
                           asked: Option<CString>)

  datatype Action =
    | Calls(call: C.Call)
    | ClientReads
    | ServerReads
    | OtherSends(from: B.Rid, msg: Msg)
    | Expires(rid: B.Rid)

  const ASLEEP: System := System(C.INITIAL, [], [], B.EMPTY, None)

  predicate Enabled(me: B.Rid, s: System, a: Action) {
    match a
    case ClientReads => s.toClient != [] && !s.client.Stopped()
    case ServerReads => s.toServer != []
    case OtherSends(from, _) => from != me
    case _ => true
  }

  function ClientTakes(env: B.Env, s: System, input: C.Input): System {
    var e := C.Step(env.unspecified, s.client, input);
    s.(client := e.state, toServer := s.toServer + e.out)
  }

  function BrokerTakes(env: B.Env, me: B.Rid, s: System, input: B.Input): System {
    var (broker, out) := B.Step(env, s.broker, input);
    s.(broker := broker, toClient := s.toClient + S.TraceTo(out, me))
  }

  function Asks(client: C.State, call: C.Call, asked: Option<CString>): Option<CString> {
    if C.AsTalk(client) == C.Talking(C.Connected) && call.SubscribeTo? then Some(call.expression) else asked
  }

  /** One step; an action that is not enabled changes nothing. */
  function Next(env: B.Env, me: B.Rid, s: System, a: Action): System {
    if !Enabled(me, s, a) then s
    else match a
      case Calls(call) => ClientTakes(env, s, C.Api(call)).(asked := Asks(s.client, call, s.asked))
      case ClientReads => ClientTakes(env, s.(toClient := s.toClient[1..]), C.Server(s.toClient[0]))
      case ServerReads => BrokerTakes(env, me, s.(toServer := s.toServer[1..]), B.Receive(me, s.toServer[0]))
      case OtherSends(from, m) => BrokerTakes(env, me, s, B.Receive(from, m))
      case Expires(r) => BrokerTakes(env, me, s, B.Expire(r))
  }

  function Play(env: B.Env, me: B.Rid, s: System, actions: seq<Action>): System
    decreases |actions|
  {
    if actions == [] then s else Play(env, me, Next(env, me, s, actions[0]), actions[1..])
  }

  // ----- What the broker says to one client -----

  /** The answer to the client's own message, and what becomes of its session. */
  lemma BrokerAnswers(env: B.Env, st: B.State, me: B.Rid, m: Msg)
    requires B.Inv(st) && (m.Hello? || m.Subscribe? || m.Publish?)
    ensures var (now, out) := B.Step(env, st, B.Receive(me, m));
      && B.Inv(now)
      && (me in now.sessions <==> (me in st.sessions) != m.Hello?)
      && S.TraceTo(out, me) == (if m.Hello? && me !in st.sessions then [HelloOk(map[])]
                                else if m.Hello? || me !in st.sessions then [Invalid]
                                else if m.Subscribe? then [SubscribeOk] else [])
      && (me in now.sessions && !m.Hello? ==>
            S.Expressions(now.index, me)
            == S.Expressions(st.index, me) + if m.Subscribe? then {m.expression} else {})
  {
    hide S.Expressions, B.Step, B.Inv, S.TraceTo;
    var input := B.Receive(me, m);
    B.StepKeepsInv(env, st, input);
    S.StateRefines(env, st, input);
    S.OutputRefines(env, st, input, me);
    InAbs(st, me);
    InAbs(B.Step(env, st, input).0, me);
  }

  lemma InAbs(st: B.State, r: B.Rid)
    ensures r in S.Abs(st) <==> r in st.sessions
    ensures r in st.sessions ==>
      S.Abs(st)[r] == S.Profile(st.sessions[r], S.Expressions(st.index, r))
  {
  }

  predicate Delivers(ms: seq<Msg>) {
    forall m :: m in ms ==> m.Deliver?
  }

  /** Whatever others do, the client hears nothing but deliveries, and its session and its
      subscriptions stay as they are. */
  lemma BrokerForwards(env: B.Env, st: B.State, me: B.Rid, input: B.Input)
    requires B.Inv(st) && match input case Receive(from, _) => from != me case Expire(r) => r != me
    ensures var (now, out) := B.Step(env, st, input);
      && B.Inv(now) && Delivers(S.TraceTo(out, me))
      && (me in now.sessions <==> me in st.sessions)
      && (me in st.sessions ==> S.Expressions(now.index, me) == S.Expressions(st.index, me))
      && (me !in st.sessions ==> S.TraceTo(out, me) == [])
  {
    hide S.Expressions, B.Step, B.Inv, S.TraceTo;
    B.StepKeepsInv(env, st, input);
    S.StateRefines(env, st, input);
    S.OutputRefines(env, st, input, me);
    InAbs(st, me);
    InAbs(B.Step(env, st, input).0, me);
  }

  /** The session of the client is dropped without a word. */
  lemma BrokerExpires(env: B.Env, st: B.State, me: B.Rid)
    requires B.Inv(st)
    ensures var (now, out) := B.Step(env, st, B.Expire(me));
      B.Inv(now) && S.TraceTo(out, me) == [] && me !in now.sessions
  {
    B.StepKeepsInv(env, st, B.Expire(me));
  }

  // ----- Invariants of the composition -----

  predicate Request(m: Msg) {
    m == C.GREETING || m.Subscribe? || m.Publish?
  }

  predicate Response(m: Msg) {
    m == HelloOk(map[]) || m == SubscribeOk || m.Deliver? || m == Invalid
  }

  predicate Traffic(s: System) {
    (forall m :: m in s.toServer ==> Request(m)) && (forall m :: m in s.toClient ==> Response(m))
  }

  predicate Asking(s: System) {
    exists m :: m in s.toServer && m.Subscribe?
  }

  /** A client that waits for an answer has a request or an answer on its way; one that has not
      started is unknown to the broker. */
  predicate Waiting(me: B.Rid, s: System, phase: C.Phase) {
    match phase
    case Start => s.toServer == [] && s.toClient == [] && me !in s.broker.sessions
    case Connected => true
    case Subscribing => Asking(s) || SubscribeOk in s.toClient || Invalid in s.toClient
    case _ => C.GREETING in s.toServer || HelloOk(map[]) in s.toClient || Invalid in s.toClient
  }

  predicate Sound(me: B.Rid, s: System) {
    && B.Inv(s.broker) && C.Unsigned(s.client) && Traffic(s)
    && var talk := C.AsTalk(s.client); talk.Talking? ==> Waiting(me, s, talk.phase)
  }

  lemma TailMembers(q: seq<Msg>)
    requires q != []
    ensures forall m :: m in q <==> m == q[0] || m in q[1..]
  {
  }

  /** A call leaves the client in its state, or makes it send the request whose answer its new
      state waits for, or stops it. */
  lemma CallMoves(u: CString -> CString, phase: C.Phase, call: C.Call)
    ensures var t := C.CallTurn(u, phase, call);
      && (t.out == [] || (|t.out| == 1 && Request(t.out[0])))
      && (t.talk.Talking? && t.out == [] ==> t.talk.phase == phase)
      && (t.out != [] ==> t.talk.Talking? && match t.talk.phase
            case Connecting => t.out[0] == C.GREETING && phase == C.Start
            case Connected =>
              && call.PublishTo? && phase == C.Connected
              && t.out[0] == Publish(Format(u, call.address), map[], [call.content])
            case Subscribing =>
              && call.SubscribeTo? && phase == C.Connected
              && t.out[0] == Subscribe(Format(u, call.expression), map[])
            case _ => false)
  {
  }

  lemma CallKeepsSound(env: B.Env, me: B.Rid, s: System, call: C.Call)
    requires Sound(me, s)
    ensures Sound(me, Next(env, me, s, Calls(call)))
  {
    hide C.Step, C.CallTurn, C.Unsigned, B.Inv, Format;
    C.StepSaysTurn(env.unspecified, s.client, C.Api(call));
    var out := C.Step(env.unspecified, s.client, C.Api(call)).out;
    if C.AsTalk(s.client).Talking? {
      CallMoves(env.unspecified, C.AsTalk(s.client).phase, call);
    }
    assert out != [] ==> out[0] in s.toServer + out;
  }

  lemma ReadKeepsSound(env: B.Env, me: B.Rid, s: System)
    requires Sound(me, s) && Enabled(me, s, ClientReads)
    ensures Sound(me, Next(env, me, s, ClientReads))
  {
    hide C.Step, C.Unsigned, B.Inv;
    TailMembers(s.toClient);
    C.StepSaysTurn(env.unspecified, s.client, C.Server(s.toClient[0]));
    assert Response(s.toClient[0]);
  }

  lemma ServeKeepsSound(env: B.Env, me: B.Rid, s: System)
    requires Sound(me, s) && Enabled(me, s, ServerReads)
    ensures Sound(me, Next(env, me, s, ServerReads))
  {
    hide B.Step, S.TraceTo, S.Expressions, C.Unsigned, B.Inv;
    TailMembers(s.toServer);
    assert Request(s.toServer[0]);
    BrokerAnswers(env, s.broker, me, s.toServer[0]);
  }

  lemma OthersKeepSound(env: B.Env, me: B.Rid, s: System, a: Action)
    requires Sound(me, s) && Enabled(me, s, a) && (a.OtherSends? || a.Expires?)
    ensures Sound(me, Next(env, me, s, a))
  {
    hide B.Step, S.TraceTo, S.Expressions, C.Unsigned, B.Inv;
    if a == Expires(me) {
      BrokerExpires(env, s.broker, me);
    } else {
      BrokerForwards(env, s.broker, me, if a.OtherSends? then B.Receive(a.from, a.msg) else B.Expire(a.rid));
    }
  }

  lemma NextKeepsSound(env: B.Env, me: B.Rid, s: System, a: Action)
    requires Sound(me, s)
    ensures Sound(me, Next(env, me, s, a))
  {
    hide Sound, ClientTakes, BrokerTakes;
    if Enabled(me, s, a) {
      match a
      case Calls(call) => CallKeepsSound(env, me, s, call);
      case ClientReads => ReadKeepsSound(env, me, s);
      case ServerReads => ServeKeepsSound(env, me, s);
      case _ => OthersKeepSound(env, me, s, a);
    }
  }

  // ----- Settling -----

  function Weight(m: Msg): nat {
    match m
    case Hello(_, _) => 4
    case Invalid => 5
    case Subscribe(_, _) => 6
    case Publish(_, _, _) => 6
    case HelloOk(_) => 1
    case SubscribeOk => 1
    case Deliver(_, _, _, _) => 1
    case _ => 0
  }

  function Load(q: seq<Msg>): nat {
    if q == [] then 0 else Weight(q[0]) + Load(q[1..])
  }

  function Potential(me: B.Rid, s: System): nat {
    Load(s.toServer) + Load(s.toClient) + if me in s.broker.sessions then 2 else 0
  }

  lemma {:induction false} LoadConcat(a: seq<Msg>, b: seq<Msg>)
    ensures Load(a + b) == Load(a) + Load(b)
  {
    if a == [] {
      assert a + b == b;
    } else {
      LoadConcat(a[1..], b);
      assert (a + b)[1..] == a[1..] + b;
    }
  }

  lemma LoadOne(m: Msg)
    ensures Load([m]) == Weight(m) && Load([]) == 0
  {
  }

  predicate Internal(a: Action) {
    a.ClientReads? || a.ServerReads?
  }

  /** Reading a queue lowers the potential, whatever was read and in whatever state. */
  lemma ReadingDescends(env: B.Env, me: B.Rid, s: System, a: Action)
    requires Sound(me, s) && Internal(a) && Enabled(me, s, a)
    ensures Potential(me, Next(env, me, s, a)) < Potential(me, s)
  {
    hide C.Step, C.Unsigned, B.Step, B.Inv, S.TraceTo, S.Expressions, Load;
    LoadOne(C.GREETING);
    if a.ClientReads? {
      var m, rest := s.toClient[0], s.toClient[1..];
      LoadConcat([m], rest);
      LoadOne(m);
      assert [m] + rest == s.toClient && Response(m);
      C.StepSaysTurn(env.unspecified, s.client, C.Server(m));
      LoadConcat(s.toServer, C.Step(env.unspecified, s.client, C.Server(m)).out);
    } else {
      var m, rest := s.toServer[0], s.toServer[1..];
      LoadConcat([m], rest);
      LoadOne(m);
      assert [m] + rest == s.toServer && Request(m);
      BrokerAnswers(env, s.broker, me, m);
      var answer := S.TraceTo(B.Step(env, s.broker, B.Receive(me, m)).1, me);
      LoadConcat(s.toClient, answer);
      if answer != [] {
        LoadOne(answer[0]);
      }
    }
  }

  /** A run in which nothing happens but reading the two queues, in any order. */
  predicate Settling(env: B.Env, me: B.Rid, s: System, actions: seq<Action>)
    decreases |actions|
  {
    actions == [] ||
    (Internal(actions[0]) && Enabled(me, s, actions[0])
     && Settling(env, me, Next(env, me, s, actions[0]), actions[1..]))
  }

  predicate Quiet(s: System) {
    s.toServer == [] && s.toClient == []
  }

  /** The reconnect exchange settles: without further calls or expiry, a run takes no more steps
      than the potential of the state it starts in. */
  lemma {:induction false} SettlingIsBounded(env: B.Env, me: B.Rid, s: System, actions: seq<Action>)
    requires Sound(me, s) && Settling(env, me, s, actions)
    ensures |actions| + Potential(me, Play(env, me, s, actions)) <= Potential(me, s)
    decreases |actions|
  {
    if actions != [] {
      hide Sound, Next, Potential;
      NextKeepsSound(env, me, s, actions[0]);
      ReadingDescends(env, me, s, actions[0]);
      SettlingIsBounded(env, me, Next(env, me, s, actions[0]), actions[1..]);
    }
  }

  /** A started client never stops by reading what the broker sends. */
  predicate Running(s: System) {
    C.AsTalk(s.client).Talking? && C.AsTalk(s.client) != C.Talking(C.Start)
  }

  lemma ReadingGoesOn(env: B.Env, me: B.Rid, s: System, a: Action)
    requires Sound(me, s) && Running(s) && Internal(a) && Enabled(me, s, a)
    ensures Running(Next(env, me, s, a))
  {
    hide C.Step, C.Unsigned, B.Step, B.Inv;
    if a.ClientReads? {
      assert Response(s.toClient[0]);
      C.StepSaysTurn(env.unspecified, s.client, C.Server(s.toClient[0]));
    }
  }

  /** As long as a queue holds a message there is a step to take, so that some run settles. */
  lemma {:induction false} SettlingSucceeds(env: B.Env, me: B.Rid, s: System) returns (actions: seq<Action>)
    requires Sound(me, s) && Running(s)
    ensures Settling(env, me, s, actions) && Quiet(Play(env, me, s, actions))
    decreases Potential(me, s)
  {
    if Quiet(s) {
      actions := [];
    } else {
      hide Sound, Next, Potential;
      var a := if s.toServer != [] then ServerReads else ClientReads;
      NextKeepsSound(env, me, s, a);
      ReadingDescends(env, me, s, a);
      ReadingGoesOn(env, me, s, a);
      var rest := SettlingSucceeds(env, me, Next(env, me, s, a));
      actions := [a] + rest;
      assert actions[1..] == rest;
    }
  }

  // ----- Agreement -----

  /** The broker knows the client, or will hear from it, or has told it to say hello again. */
  predicate InTouch(me: B.Rid, s: System) {
    me in s.broker.sessions || s.toServer != [] || Invalid in s.toClient
  }

  lemma ReadingKeepsTouch(env: B.Env, me: B.Rid, s: System, a: Action)
    requires Sound(me, s) && Running(s) && Internal(a) && Enabled(me, s, a)
    ensures InTouch(me, Next(env, me, s, a)) <==> InTouch(me, s)
  {
    hide C.Step, C.Unsigned, B.Step, B.Inv, S.TraceTo, S.Expressions;
    if a.ClientReads? {
      TailMembers(s.toClient);
      assert Response(s.toClient[0]);
      C.StepSaysTurn(env.unspecified, s.client, C.Server(s.toClient[0]));
    } else {
      assert Request(s.toServer[0]);
      BrokerAnswers(env, s.broker, me, s.toServer[0]);
    }
  }

  /** Where a run settles, the client is connected; and the broker agrees exactly when they were
      in touch at its start. */
  lemma {:induction false} SettledAgreement(env: B.Env, me: B.Rid, s: System, actions: seq<Action>)
    requires Sound(me, s) && Running(s)
    requires Settling(env, me, s, actions) && Quiet(Play(env, me, s, actions))
    ensures var end := Play(env, me, s, actions);
      && C.AsTalk(end.client) == C.Talking(C.Connected)
      && (me in end.broker.sessions <==> InTouch(me, s))
    decreases |actions|
  {
    if actions != [] {
      hide Sound, Next, InTouch, Running;
      NextKeepsSound(env, me, s, actions[0]);
      ReadingGoesOn(env, me, s, actions[0]);
      ReadingKeepsTouch(env, me, s, actions[0]);
      SettledAgreement(env, me, Next(env, me, s, actions[0]), actions[1..]);
    }
  }

  lemma SoundAsleep(me: B.Rid)
    ensures Sound(me, ASLEEP)
  {
  }

  /** A connected client's next SUBSCRIBE or PUBLISH puts it in touch again, so that after it
      every settled state agrees. */
  lemma RequestRestoresTouch(env: B.Env, me: B.Rid, s: System, call: C.Call)
    requires Sound(me, s) && C.AsTalk(s.client) == C.Talking(C.Connected)
    requires call.SubscribeTo? || call.PublishTo?
    ensures InTouch(me, Next(env, me, s, Calls(call))) && Running(Next(env, me, s, Calls(call)))
  {
  }
}
