/** The composition without expiry of the client's own session: the broker never rejects
    anything, the client never reconnects, and SUCCESS after a SUBSCRIBE means subscribed. */
module Conformance {
  import opened Basics
  import opened Messages
  import opened Composition
  import C = Client
  import B = Broker
  import S = BrokerSpec

  // ----- How many messages of a kind are in a queue -----

  function Tally(q: seq<Msg>, id: int): nat {
    if q == [] then 0 else (if Id(q[0]) == id then 1 else 0) + Tally(q[1..], id)
  }

  lemma {:induction false} TallyConcat(a: seq<Msg>, b: seq<Msg>, id: int)
    ensures Tally(a + b, id) == Tally(a, id) + Tally(b, id)
  {
    if a == [] {
      assert a + b == b;
    } else {
      TallyConcat(a[1..], b, id);
      assert (a + b)[1..] == a[1..] + b;
    }
  }

  lemma {:induction false} TallyNone(q: seq<Msg>, id: int)
    ensures Tally(q, id) == 0 <==> forall m :: m in q ==> Id(m) != id
  {
    if q != [] {
      TallyNone(q[1..], id);
      TailMembers(q);
    }
  }

  lemma TallyHead(q: seq<Msg>, id: int)
    requires q != []
    ensures Tally(q, id) == (if Id(q[0]) == id then 1 else 0) + Tally(q[1..], id)
    ensures Tally([], id) == 0
  {
  }

  // ----- The invariant -----

  /** SUBSCRIBEs and their answers in flight. */
  function InFlight(s: System): nat {
    Tally(s.toServer, SUBSCRIBE) + Tally(s.toClient, SUBSCRIBE_OK)
  }

  /** A session exists from the broker's first reading on; before that nothing but the greeting
      is in flight, and after it no greeting and no rejection. */
  predicate Known(me: B.Rid, s: System) {
    if me in s.broker.sessions then C.GREETING !in s.toServer && Invalid !in s.toClient
    else s.toClient == [] && (s.toServer == [] || s.toServer == [C.GREETING])
  }

  predicate Phased(me: B.Rid, s: System, phase: C.Phase) {
    match phase
    case Start => s.toServer == [] && me !in s.broker.sessions
    case Connecting => me !in s.broker.sessions ==> s.toServer == [C.GREETING]
    case Connected => me in s.broker.sessions
    case Subscribing => me in s.broker.sessions
    case Reconnecting => false
  }

  /** The expression that was asked for is in the one SUBSCRIBE in flight, or in the index. */
  predicate Asked(env: B.Env, me: B.Rid, s: System) {
    && s.asked.Some?
    && (forall m :: m in s.toServer && m.Subscribe? ==> m.expression == Format(env.unspecified, s.asked.value))
    && (Tally(s.toServer, SUBSCRIBE) == 0 ==>
          Format(env.unspecified, s.asked.value) in S.Expressions(s.broker.index, me))
  }

  predicate Conforms(env: B.Env, me: B.Rid, s: System) {
    && Sound(me, s) && Known(me, s)
    && var talk := C.AsTalk(s.client);
      talk.Talking? ==>
        && Phased(me, s, talk.phase)
        && InFlight(s) == (if talk.phase == C.Subscribing then 1 else 0)
        && (talk.phase == C.Subscribing ==> Asked(env, me, s))
  }

  /** What a call adds to the queue counts as at most one SUBSCRIBE. */
  lemma CallTally(q: seq<Msg>, out: seq<Msg>)
    requires out == [] || |out| == 1
    ensures Tally(q + out, SUBSCRIBE) == Tally(q, SUBSCRIBE) + if out != [] && out[0].Subscribe? then 1 else 0
    ensures Tally(q, SUBSCRIBE) == 0 ==> forall m :: m in q ==> !m.Subscribe?
    ensures forall m :: m in q + out <==> m in q || (out != [] && m == out[0])
    ensures q + [] == q && (q == [] && out != [] ==> q + out == [out[0]])
  {
    TallyConcat(q, out, SUBSCRIBE);
    TallyNone(q, SUBSCRIBE);
    if out != [] {
      TallyHead(out, SUBSCRIBE);
      assert out == [out[0]] && out[1..] == [];
    }
  }

  lemma CallKeepsKnown(env: B.Env, me: B.Rid, s: System, call: C.Call)
    requires Conforms(env, me, s)
    ensures Known(me, Next(env, me, s, Calls(call)))
  {
    hide C.Step, C.CallTurn, Sound, Tally, Asked, Format;
    UnsignedIfSound(me, s);
    C.StepSaysTurn(env.unspecified, s.client, C.Api(call));
    if C.AsTalk(s.client).Talking? {
      CallMoves(env.unspecified, C.AsTalk(s.client).phase, call);
    }
    CallTally(s.toServer, C.Step(env.unspecified, s.client, C.Api(call)).out);
  }

  lemma CallConforms(env: B.Env, me: B.Rid, s: System, call: C.Call)
    requires Conforms(env, me, s)
    ensures Conforms(env, me, Next(env, me, s, Calls(call)))
  {
    hide C.Step, C.CallTurn, Sound, Known, Tally, S.Expressions, Format;
    NextKeepsSound(env, me, s, Calls(call));
    CallKeepsKnown(env, me, s, call);
    UnsignedIfSound(me, s);
    C.StepSaysTurn(env.unspecified, s.client, C.Api(call));
    if C.AsTalk(s.client).Talking? {
      CallMoves(env.unspecified, C.AsTalk(s.client).phase, call);
    }
    CallTally(s.toServer, C.Step(env.unspecified, s.client, C.Api(call)).out);
  }

  lemma UnsignedIfSound(me: B.Rid, s: System)
    requires Sound(me, s)
    ensures C.Unsigned(s.client) && B.Inv(s.broker)
    ensures s.toClient != [] ==> Response(s.toClient[0])
    ensures s.toServer != [] ==> Request(s.toServer[0])
  {
  }

  lemma ReadConforms(env: B.Env, me: B.Rid, s: System)
    requires Conforms(env, me, s) && Enabled(me, s, ClientReads)
    ensures Conforms(env, me, Next(env, me, s, ClientReads))
  {
    hide C.Step, Sound, Tally, S.Expressions;
    NextKeepsSound(env, me, s, ClientReads);
    UnsignedIfSound(me, s);
    TailMembers(s.toClient);
    TallyHead(s.toClient, SUBSCRIBE_OK);
    C.StepSaysTurn(env.unspecified, s.client, C.Server(s.toClient[0]));
    assert s.toServer + [] == s.toServer;
  }

  lemma ServeConforms(env: B.Env, me: B.Rid, s: System)
    requires Conforms(env, me, s) && Enabled(me, s, ServerReads)
    ensures Conforms(env, me, Next(env, me, s, ServerReads))
  {
    hide B.Step, Sound, Tally, S.Expressions, S.TraceTo;
    NextKeepsSound(env, me, s, ServerReads);
    UnsignedIfSound(me, s);
    var m := s.toServer[0];
    TailMembers(s.toServer);
    TallyHead(s.toServer, SUBSCRIBE);
    BrokerAnswers(env, s.broker, me, m);
    var answer := S.TraceTo(B.Step(env, s.broker, B.Receive(me, m)).1, me);
    TallyConcat(s.toClient, answer, SUBSCRIBE_OK);
    TallyHead([m], SUBSCRIBE_OK);
    if answer != [] {
      TallyHead(answer, SUBSCRIBE_OK);
      assert answer[1..] == [];
    }
  }

  lemma OthersConform(env: B.Env, me: B.Rid, s: System, a: Action)
    requires Conforms(env, me, s) && Enabled(me, s, a) && (a.OtherSends? || a.Expires?) && a != Expires(me)
    ensures Conforms(env, me, Next(env, me, s, a))
  {
    hide B.Step, Sound, Tally, S.Expressions, S.TraceTo;
    NextKeepsSound(env, me, s, a);
    UnsignedIfSound(me, s);
    var input := if a.OtherSends? then B.Receive(a.from, a.msg) else B.Expire(a.rid);
    BrokerForwards(env, s.broker, me, input);
    var heard := S.TraceTo(B.Step(env, s.broker, input).1, me);
    TallyConcat(s.toClient, heard, SUBSCRIBE_OK);
    TallyNone(heard, SUBSCRIBE_OK);
  }

  lemma NextConforms(env: B.Env, me: B.Rid, s: System, a: Action)
    requires Conforms(env, me, s) && a != Expires(me)
    ensures Conforms(env, me, Next(env, me, s, a))
  {
    hide Conforms, ClientTakes, BrokerTakes;
    if Enabled(me, s, a) {
      match a
      case Calls(call) => CallConforms(env, me, s, call);
      case ClientReads => ReadConforms(env, me, s);
      case ServerReads => ServeConforms(env, me, s);
      case _ => OthersConform(env, me, s, a);
    }
  }

  lemma {:induction false} PlayConforms(env: B.Env, me: B.Rid, s: System, actions: seq<Action>)
    requires Conforms(env, me, s) && Expires(me) !in actions
    ensures Conforms(env, me, Play(env, me, s, actions))
    decreases |actions|
  {
    if actions != [] {
      hide Conforms, Next;
      NextConforms(env, me, s, actions[0]);
      PlayConforms(env, me, Next(env, me, s, actions[0]), actions[1..]);
    }
  }

  lemma AsleepConforms(env: B.Env, me: B.Rid)
    ensures Conforms(env, me, ASLEEP)
  {
  }

  // ----- Conformance -----

  /** Over every run in which the client's own session does not expire, however the queues
      interleave: the broker never sends INVALID, the client never reconnects, and no message it
      reads stops it. */
  lemma NeverRejected(env: B.Env, me: B.Rid, history: seq<Action>)
    requires Expires(me) !in history
    ensures var s := Play(env, me, ASLEEP, history);
      && Invalid !in s.toClient && C.AsTalk(s.client) != C.Talking(C.Reconnecting)
      && (Running(s) && s.toClient != [] ==> Running(Next(env, me, s, ClientReads)))
  {
    hide Sound, Next, Play;
    var s := Play(env, me, ASLEEP, history);
    AsleepConforms(env, me);
    PlayConforms(env, me, ASLEEP, history);
    if Running(s) && s.toClient != [] {
      ReadingGoesOn(env, me, s, ClientReads);
    }
  }

  /** And when the client signals success for a SUBSCRIBE, the broker's index holds the
      text that printf makes of the expression asked for, under the client, at that moment. */
  lemma SuccessMeansSubscribed(env: B.Env, me: B.Rid, history: seq<Action>)
    requires Expires(me) !in history
    requires var s := Play(env, me, ASLEEP, history);
      C.AsTalk(s.client) == C.Talking(C.Subscribing) && s.toClient != [] && s.toClient[0] == SubscribeOk
    ensures var s := Play(env, me, ASLEEP, history);
      && C.Step(env.unspecified, s.client, C.Server(s.toClient[0])).replies == [C.Success]
      && s.asked.Some? && Format(env.unspecified, s.asked.value) in S.Expressions(s.broker.index, me)
  {
    hide Next, Play, Sound, Tally, S.Expressions, C.Step;
    var s := Play(env, me, ASLEEP, history);
    AsleepConforms(env, me);
    PlayConforms(env, me, ASLEEP, history);
    UnsignedIfSound(me, s);
    TallyHead(s.toClient, SUBSCRIBE_OK);
    C.StepSaysTurn(env.unspecified, s.client, C.Server(SubscribeOk));
  }
}
