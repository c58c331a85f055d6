/** The composition as it runs: both queues carry frames, which are encoded when a message is
    sent and decoded when it is read. A message that does not decode ends the reactor that
    reads it. While every text fits its length octet, frames are read as they were sent, and
    all that Composition and Conformance prove of messages holds of the wire. */
module Wire {
  import opened Basics
  import opened Messages
  import opened Codec
  import C = Client
  import B = Broker
  import S = BrokerSpec
  import M = Composition
  import Conformance
  import Fidelity

  type Packet = seq<Frame>

  /** down: the broker's reactor has ended, and its sessions with it. */
  datatype System = System(client: C.State, toServer: seq<Packet>, toClient: seq<Packet>, broker: B.State,
                           down: bool, asked: Option<CString>)

  datatype Action =
    | Calls(call: C.Call)
    | ClientReads
    | ServerReads
    | OtherSends(from: B.Rid, packet: Packet)
    | Expires(rid: B.Rid)

  const ASLEEP: System := System(C.INITIAL, [], [], B.EMPTY, false, None)

  /** Messages as they are encoded; neither end ever fills in headers. */
  function Put(ms: seq<Msg>): seq<Packet> {
    seq(|ms|, i requires 0 <= i < |ms| => Encode(ms[i], []))
  }

  predicate Enabled(me: B.Rid, w: System, a: Action) {
    match a
    case Calls(_) => true
    case ClientReads => w.toClient != [] && !w.client.Stopped()
    case ServerReads => w.toServer != [] && !w.down
    case OtherSends(from, _) => from != me && !w.down
    case Expires(_) => !w.down
  }

  function ClientTakes(env: B.Env, w: System, input: C.Input): System {
    var e := C.Step(env.unspecified, w.client, input);
    w.(client := e.state, toServer := w.toServer + Put(e.out))
  }

  function ClientHears(env: B.Env, w: System, packet: Packet): System {
    var m := Decode(packet);
    if m.None? then w.(client := w.client.(terminated := true)) else ClientTakes(env, w, C.Server(m.value))
  }

  function BrokerTakes(env: B.Env, me: B.Rid, w: System, input: B.Input): System {
    var (broker, out) := B.Step(env, w.broker, input);
    w.(broker := broker, toClient := w.toClient + Put(S.TraceTo(out, me)))
  }

  function BrokerHears(env: B.Env, me: B.Rid, w: System, from: B.Rid, packet: Packet): System {
    var m := Decode(packet);
    if m.None? then w.(broker := B.EMPTY, down := true) else BrokerTakes(env, me, w, B.Receive(from, m.value))
  }

  function Next(env: B.Env, me: B.Rid, w: System, a: Action): System {
    if !Enabled(me, w, a) then w
    else match a
      case Calls(call) => ClientTakes(env, w, C.Api(call)).(asked := M.Asks(w.client, call, w.asked))
      case ClientReads => ClientHears(env, w.(toClient := w.toClient[1..]), w.toClient[0])
      case ServerReads => BrokerHears(env, me, w.(toServer := w.toServer[1..]), me, w.toServer[0])
      case OtherSends(from, packet) => BrokerHears(env, me, w, from, packet)
      case Expires(r) => BrokerTakes(env, me, w, B.Expire(r))
  }

  function Play(env: B.Env, me: B.Rid, w: System, actions: seq<Action>): System
    decreases |actions|
  {
    if actions == [] then w else Play(env, me, Next(env, me, w, actions[0]), actions[1..])
  }

  // ----- What fits the wire -----

  /** The text that printf makes of a value fits a length octet. */
  predicate TextFits(u: CString -> CString, s: CString) {
    |Format(u, s)| <= 255
  }

  /** A text fits, whatever printf does with stray conversions, exactly when it is the escaped form
      of a short text. */
  lemma TextFitsExactly(s: CString)
    ensures (forall u: CString -> CString :: TextFits(u, s)) <==> exists t: CString :: s == Escape(t) && |t| <= 255
  {
    ConversionExactly(s);
    if !HasConversion(s) {
      Unescaped(s);
    }
    forall t: CString | s == Escape(t)
      ensures Collapse(s) == t
    {
      EscapedText(x => x, t);
    }
    var long: CString := seq(256, _ => 65);
    var u: CString -> CString := _ => long;
    if HasConversion(s) {
      assert !TextFits(u, s);
    } else {
      assert TextFits(u, s) <==> |Collapse(s)| <= 255;
    }
  }

  /** The texts of a call, or of what another client sends, that the program passes through
      printf into a length octet. */
  predicate ActionFits(env: B.Env, a: Action) {
    match a
    case Calls(call) =>
      && (call.SubscribeTo? ==> TextFits(env.unspecified, call.expression))
      && (call.PublishTo? ==> TextFits(env.unspecified, call.address))
    case OtherSends(_, packet) =>
      && Decode(packet).Some?
      && (Decode(packet).value.Hello? ==> TextFits(env.unspecified, Decode(packet).value.identifier))
      && (Decode(packet).value.Publish? ==> TextFits(env.unspecified, Decode(packet).value.address))
    case _ => true
  }

  predicate Fitting(env: B.Env, actions: seq<Action>) {
    forall i :: 0 <= i < |actions| ==> ActionFits(env, actions[i])
  }

  /** The message arrives as it was sent. */
  predicate Travels(m: Msg) {
    Fits(m) && Headers(m) == map[]
  }

  lemma TravelsExactly(m: Msg)
    ensures Travels(m) <==> Decode(Encode(m, [])) == Some(m)
  {
    if Headers(m) == map[] {
      RoundTrip(m, []);
    } else {
      PlainEncoding(m);
    }
  }

  lemma PlainEncoding(m: Msg)
    requires Headers(m) != map[]
    ensures Decode(Encode(m, [])) != Some(m)
  {
    var plain := Make(Id(m), Strings(m), map[], Content(m));
    assert Encode(m, []) == Encode(plain, []);
    if ShortStrings(Strings(m)) {
      assert Fits(plain);
      FitsSurvives(plain, []);
    } else {
      DecodedFits(Encode(m, []));
    }
  }

  /** In particular a request arrives exactly when the text that printf makes of its argument
      fits. */
  lemma RequestArrivesExactly(u: CString -> CString, text: CString, content: CString)
    ensures var m := Subscribe(Format(u, text), map[]);
      Decode(Encode(m, [])) == Some(m) <==> TextFits(u, text)
    ensures var m := Publish(Format(u, text), map[], [content]);
      Decode(Encode(m, [])) == Some(m) <==> TextFits(u, text)
  {
    hide Decode, Encode, Format;
    OneText(Subscribe(Format(u, text), map[]), Format(u, text));
    OneText(Publish(Format(u, text), map[], [content]), Format(u, text));
    TravelsExactly(Subscribe(Format(u, text), map[]));
    TravelsExactly(Publish(Format(u, text), map[], [content]));
  }

  lemma OneText(m: Msg, text: CString)
    requires Strings(m) == [text] && Headers(m) == map[]
    ensures Travels(m) <==> |text| <= 255
  {
    assert [text][1..] == [] && Strings(m)[1..] == [];
    assert ShortStrings(Strings(m)) <==> |text| <= 255;
  }

  /** And a delivery arrives exactly when both its texts fit. */
  lemma DeliveryArrivesExactly(env: B.Env, identifier: CString, address: CString, content: seq<Frame>)
    ensures var d := B.Delivery(env, identifier, address, content);
      Decode(Encode(d, [])) == Some(d)
      <==> TextFits(env.unspecified, identifier) && TextFits(env.unspecified, address)
  {
    hide Decode, Encode, Format;
    var d := B.Delivery(env, identifier, address, content);
    assert Strings(d)[1..] == [d.address] && [d.address][1..] == [];
    assert ShortStrings([d.address]) <==> |d.address| <= 255;
    TravelsExactly(d);
  }

  // ----- The wire and the messages on it -----

  /** The messages whose frames are on the wire. */
  predicate Represents(w: System, s: M.System) {
    && !w.down && w.client == s.client && w.broker == s.broker && w.asked == s.asked
    && w.toServer == Put(s.toServer) && w.toClient == Put(s.toClient)
  }

  predicate AllTravel(ms: seq<Msg>) {
    forall m :: m in ms ==> Travels(m)
  }

  /** Everything in flight arrives as it was sent, and every name the broker may pass on fits. */
  predicate InOrder(env: B.Env, s: M.System) {
    && AllTravel(s.toServer) && AllTravel(s.toClient)
    && forall r :: r in s.broker.sessions ==> TextFits(env.unspecified, s.broker.sessions[r])
  }

  lemma PutConcat(a: seq<Msg>, b: seq<Msg>)
    ensures Put(a + b) == Put(a) + Put(b)
  {
    hide Encode;
    forall i | 0 <= i < |a + b|
      ensures Put(a + b)[i] == (Put(a) + Put(b))[i]
    {
      assert (a + b)[i] == if i < |a| then a[i] else b[i - |a|];
    }
  }

  lemma PutHead(q: seq<Msg>)
    requires q != []
    ensures Put(q) != [] && Put(q)[0] == Encode(q[0], []) && Put(q)[1..] == Put(q[1..])
    ensures AllTravel(q) ==> Decode(Put(q)[0]) == Some(q[0]) && AllTravel(q[1..])
  {
    hide Encode, Decode, Fits, Headers;
    TravelsExactly(q[0]);
    assert q[0] in q;
  }

  /** The action on messages that an action on frames amounts to. */
  function Meaning(a: Action): M.Action
    requires a.OtherSends? ==> Decode(a.packet).Some?
  {
    match a
    case Calls(call) => M.Calls(call)
    case ClientReads => M.ClientReads
    case ServerReads => M.ServerReads
    case OtherSends(from, packet) => M.OtherSends(from, Decode(packet).value)
    case Expires(r) => M.Expires(r)
  }

  lemma CallCoincides(env: B.Env, me: B.Rid, w: System, s: M.System, call: C.Call)
    requires Represents(w, s) && M.Sound(me, s) && InOrder(env, s) && ActionFits(env, Calls(call))
    ensures Represents(Next(env, me, w, Calls(call)), M.Next(env, me, s, M.Calls(call)))
    ensures InOrder(env, M.Next(env, me, s, M.Calls(call)))
  {
    hide C.Step, C.CallTurn, C.Unsigned, B.Inv, Put, Format, Fits, M.Waiting, M.Traffic;
    var u := env.unspecified;
    C.StepSaysTurn(u, s.client, C.Api(call));
    var out := C.Step(u, s.client, C.Api(call)).out;
    if C.AsTalk(s.client).Talking? {
      M.CallMoves(u, C.AsTalk(s.client).phase, call);
    }
    if out != [] {
      RequestTravels(u, call, out[0]);
    }
    PutConcat(s.toServer, out);
  }

  lemma RequestTravels(u: CString -> CString, call: C.Call, m: Msg)
    requires call.SubscribeTo? ==> TextFits(u, call.expression)
    requires call.PublishTo? ==> TextFits(u, call.address)
    requires || m == C.GREETING
             || (call.SubscribeTo? && m == Subscribe(Format(u, call.expression), map[]))
             || (call.PublishTo? && m == Publish(Format(u, call.address), map[], [call.content]))
    ensures Travels(m)
  {
    hide Format;
    OneText(m, Strings(m)[0]);
  }

  lemma PlainTravels(m: Msg)
    requires m == HelloOk(map[]) || m == SubscribeOk || m == Invalid || m == C.GREETING
    ensures Travels(m)
  {
    if m == C.GREETING {
      OneText(m, []);
    }
  }

  lemma ReadCoincides(env: B.Env, me: B.Rid, w: System, s: M.System)
    requires Represents(w, s) && M.Sound(me, s) && InOrder(env, s) && M.Enabled(me, s, M.ClientReads)
    ensures Enabled(me, w, ClientReads)
    ensures Represents(Next(env, me, w, ClientReads), M.Next(env, me, s, M.ClientReads))
    ensures InOrder(env, M.Next(env, me, s, M.ClientReads))
  {
    hide C.Step, C.Unsigned, B.Inv, Put, Decode, Travels, TextFits, M.Waiting;
    var m := s.toClient[0];
    PutHead(s.toClient);
    assert M.Response(m);
    C.StepSaysTurn(env.unspecified, s.client, C.Server(m));
    var out := C.Step(env.unspecified, s.client, C.Server(m)).out;
    PutConcat(s.toServer, out);
    PlainTravels(C.GREETING);
  }

  lemma ServeCoincides(env: B.Env, me: B.Rid, w: System, s: M.System)
    requires Represents(w, s) && M.Sound(me, s) && InOrder(env, s) && M.Enabled(me, s, M.ServerReads)
    ensures Enabled(me, w, ServerReads)
    ensures Represents(Next(env, me, w, ServerReads), M.Next(env, me, s, M.ServerReads))
    ensures InOrder(env, M.Next(env, me, s, M.ServerReads))
  {
    hide B.Step, B.Inv, C.Unsigned, Put, Decode, Travels, TextFits, S.TraceTo, S.Expressions, M.Waiting;
    var m := s.toServer[0];
    PutHead(s.toServer);
    assert M.Request(m);
    M.BrokerAnswers(env, s.broker, me, m);
    var answer := S.TraceTo(B.Step(env, s.broker, B.Receive(me, m)).1, me);
    PutConcat(s.toClient, answer);
    if answer != [] {
      PlainTravels(answer[0]);
    }
    NamesFit(env, s.broker, B.Receive(me, m));
  }

  /** Names stay short as long as each HELLO brings one that does. */
  lemma NamesFit(env: B.Env, st: B.State, input: B.Input)
    requires forall r :: r in st.sessions ==> TextFits(env.unspecified, st.sessions[r])
    requires input.Receive? && input.msg.Hello? ==>
      TextFits(env.unspecified, input.msg.identifier) || input.msg == C.GREETING
    ensures var now := B.Step(env, st, input).0;
      forall r :: r in now.sessions ==> TextFits(env.unspecified, now.sessions[r])
  {
  }

  lemma DeliveryTravels(env: B.Env, identifier: CString, address: CString, content: seq<Frame>)
    requires TextFits(env.unspecified, identifier) && TextFits(env.unspecified, address)
    ensures Travels(B.Delivery(env, identifier, address, content))
  {
    hide Encode, Decode, Format, Fits, Headers, TextFits;
    DeliveryArrivesExactly(env, identifier, address, content);
    TravelsExactly(B.Delivery(env, identifier, address, content));
  }

  /** What others make the broker send to the client arrives. */
  lemma ForwardsTravel(env: B.Env, st: B.State, me: B.Rid, input: B.Input)
    requires B.Inv(st) && forall r :: r in st.sessions ==> TextFits(env.unspecified, st.sessions[r])
    requires input.Receive? ==>
      input.from != me && (input.msg.Publish? ==> TextFits(env.unspecified, input.msg.address))
    ensures AllTravel(S.TraceTo(B.Step(env, st, input).1, me))
  {
    hide B.Step, B.Inv, B.Delivery, S.TraceTo, S.Expressions, S.Matching, Travels, TextFits;
    S.OutputRefines(env, st, input, me);
    if input.Receive? && input.msg.Publish? && input.from in st.sessions {
      DeliveryTravels(env, st.sessions[input.from], input.msg.address, input.msg.content);
    }
  }

  lemma OthersCoincide(env: B.Env, me: B.Rid, w: System, s: M.System, a: Action)
    requires Represents(w, s) && M.Sound(me, s) && InOrder(env, s) && ActionFits(env, a)
    requires (a.OtherSends? || a.Expires?) && Enabled(me, w, a)
    ensures Represents(Next(env, me, w, a), M.Next(env, me, s, Meaning(a)))
    ensures InOrder(env, M.Next(env, me, s, Meaning(a)))
  {
    hide B.Step, B.Inv, C.Unsigned, Put, Decode, Travels, TextFits, S.TraceTo, M.Waiting, M.Traffic;
    var input := if a.OtherSends? then B.Receive(a.from, Decode(a.packet).value) else B.Expire(a.rid);
    PutConcat(s.toClient, S.TraceTo(B.Step(env, s.broker, input).1, me));
    ForwardsTravel(env, s.broker, me, input);
    NamesFit(env, s.broker, input);
  }

  /** One step on frames is one step on messages, as long as what calls and other clients bring
      fits. */
  lemma NextCoincides(env: B.Env, me: B.Rid, w: System, s: M.System, a: Action)
    requires Represents(w, s) && M.Sound(me, s) && InOrder(env, s) && ActionFits(env, a)
    ensures Enabled(me, w, a) <==> M.Enabled(me, s, Meaning(a))
    ensures Represents(Next(env, me, w, a), M.Next(env, me, s, Meaning(a)))
    ensures M.Sound(me, M.Next(env, me, s, Meaning(a))) && InOrder(env, M.Next(env, me, s, Meaning(a)))
  {
    hide M.Sound, InOrder, Decode, ClientTakes, ClientHears, BrokerTakes, BrokerHears, M.ClientTakes, M.BrokerTakes;
    M.NextKeepsSound(env, me, s, Meaning(a));
    if M.Enabled(me, s, Meaning(a)) {
      match a
      case Calls(call) => CallCoincides(env, me, w, s, call);
      case ClientReads => ReadCoincides(env, me, w, s);
      case ServerReads => ServeCoincides(env, me, w, s);
      case _ => OthersCoincide(env, me, w, s, a);
    }
  }

  function Meanings(env: B.Env, actions: seq<Action>): (ms: seq<M.Action>)
    requires Fitting(env, actions)
    ensures |ms| == |actions|
  {
    seq(|actions|, i requires 0 <= i < |actions| => assert ActionFits(env, actions[i]); Meaning(actions[i]))
  }

  lemma {:induction false} PlayCoincides(env: B.Env, me: B.Rid, w: System, s: M.System, actions: seq<Action>)
    requires Represents(w, s) && M.Sound(me, s) && InOrder(env, s) && Fitting(env, actions)
    ensures Represents(Play(env, me, w, actions), M.Play(env, me, s, Meanings(env, actions)))
    ensures M.Sound(me, M.Play(env, me, s, Meanings(env, actions)))
    ensures InOrder(env, M.Play(env, me, s, Meanings(env, actions)))
    decreases |actions|
  {
    if actions != [] {
      hide M.Sound, InOrder, Represents, Next, M.Next, ActionFits, Meaning;
      assert ActionFits(env, actions[0]);
      MeaningNeeds(env, actions[0]);
      NextCoincides(env, me, w, s, actions[0]);
      assert Fitting(env, actions[1..]);
      assert Meanings(env, actions)[0] == Meaning(actions[0]);
      assert Meanings(env, actions)[1..] == Meanings(env, actions[1..]);
      PlayCoincides(env, me, Next(env, me, w, actions[0]), M.Next(env, me, s, Meaning(actions[0])), actions[1..]);
    }
  }

  lemma MeaningNeeds(env: B.Env, a: Action)
    requires ActionFits(env, a)
    ensures a.OtherSends? ==> Decode(a.packet).Some?
  {
  }

  lemma AsleepCoincides(env: B.Env, me: B.Rid)
    ensures Represents(ASLEEP, M.ASLEEP) && M.Sound(me, M.ASLEEP) && InOrder(env, M.ASLEEP)
  {
    M.SoundAsleep(me);
  }

  /** Over every run whose texts fit, silent expiries included, the wire carries exactly the
      frames of the messages in flight, each of which decodes to itself, and nothing ends the
      broker's reactor. */
  lemma FramesAreMessages(env: B.Env, me: B.Rid, history: seq<Action>)
    requires Fitting(env, history)
    ensures Represents(Play(env, me, ASLEEP, history), M.Play(env, me, M.ASLEEP, Meanings(env, history)))
    ensures M.Sound(me, M.Play(env, me, M.ASLEEP, Meanings(env, history)))
    ensures InOrder(env, M.Play(env, me, M.ASLEEP, Meanings(env, history)))
  {
    AsleepCoincides(env, me);
    PlayCoincides(env, me, ASLEEP, M.ASLEEP, history);
  }

  // ----- Settling on the wire -----

  function Weight(packet: Packet): nat {
    if Decode(packet).None? then 0 else M.Weight(Decode(packet).value)
  }

  function Load(q: seq<Packet>): nat {
    if q == [] then 0 else Weight(q[0]) + Load(q[1..])
  }

  /** 4 HELLO + 5 INVALID + 6 (SUBSCRIBE + PUBLISH) + HELLO_OK + SUBSCRIBE_OK + DELIVER on the
      wire, and 2 for a session. */
  function Potential(me: B.Rid, w: System): nat {
    Load(w.toServer) + Load(w.toClient) + if me in w.broker.sessions then 2 else 0
  }

  lemma {:induction false} LoadOfPut(q: seq<Msg>)
    requires AllTravel(q)
    ensures Load(Put(q)) == M.Load(q)
  {
    if q != [] {
      hide Put, Decode, Travels, M.Weight;
      PutHead(q);
      LoadOfPut(q[1..]);
    } else {
      assert Put(q) == [];
    }
  }

  predicate Running(w: System) {
    C.AsTalk(w.client).Talking? && C.AsTalk(w.client) != C.Talking(C.Start)
  }

  predicate Quiet(w: System) {
    w.toServer == [] && w.toClient == []
  }

  /** A run in which nothing happens but reading the two queues, in any order. */
  predicate Settling(env: B.Env, me: B.Rid, w: System, actions: seq<Action>)
    decreases |actions|
  {
    actions == [] ||
    ((actions[0].ClientReads? || actions[0].ServerReads?) && Enabled(me, w, actions[0])
     && Settling(env, me, Next(env, me, w, actions[0]), actions[1..]))
  }

  /** The broker knows the client, or will hear from it, or has told it to say hello again. */
  predicate InTouch(me: B.Rid, w: System) {
    me in w.broker.sessions || w.toServer != [] || Encode(Invalid, []) in w.toClient
  }

  lemma SameView(env: B.Env, me: B.Rid, w: System, s: M.System)
    requires Represents(w, s) && InOrder(env, s)
    ensures Potential(me, w) == M.Potential(me, s) && (InTouch(me, w) <==> M.InTouch(me, s))
    ensures (Running(w) <==> M.Running(s)) && (Quiet(w) <==> M.Quiet(s))
    ensures Encode(Invalid, []) in w.toClient <==> Invalid in s.toClient
  {
    hide Encode, Decode, Fits, Headers;
    LoadOfPut(s.toServer);
    LoadOfPut(s.toClient);
    if Invalid in s.toClient {
      var i :| 0 <= i < |s.toClient| && s.toClient[i] == Invalid;
      assert Put(s.toClient)[i] == Encode(Invalid, []);
    }
    if Encode(Invalid, []) in w.toClient {
      var i :| 0 <= i < |w.toClient| && w.toClient[i] == Encode(Invalid, []);
      assert Put(s.toClient)[i] == Encode(s.toClient[i], []) && s.toClient[i] in s.toClient;
      TravelsExactly(s.toClient[i]);
      PlainTravels(Invalid);
      TravelsExactly(Invalid);
    }
  }

  lemma MeaningsNext(env: B.Env, a: Action, rest: seq<Action>)
    requires ActionFits(env, a) && Fitting(env, rest)
    ensures (a.OtherSends? ==> Decode(a.packet).Some?) && Fitting(env, [a] + rest)
    ensures Meanings(env, [a] + rest) == [Meaning(a)] + Meanings(env, rest)
  {
    hide Meaning, Decode, TextFits;
  }

  lemma {:induction false} SettlingCoincides(env: B.Env, me: B.Rid, w: System, s: M.System, actions: seq<Action>)
    requires Represents(w, s) && M.Sound(me, s) && InOrder(env, s) && Settling(env, me, w, actions)
    ensures Fitting(env, actions) && M.Settling(env, me, s, Meanings(env, actions))
    decreases |actions|
  {
    if actions != [] {
      hide M.Sound, InOrder, Represents, Next, M.Next, Fitting, Meanings, Enabled, M.Enabled, M.Settling;
      var a := actions[0];
      NextCoincides(env, me, w, s, a);
      SettlingCoincides(env, me, Next(env, me, w, a), M.Next(env, me, s, Meaning(a)), actions[1..]);
      MeaningsNext(env, a, actions[1..]);
      assert [a] + actions[1..] == actions;
      MeantSettling(env, me, s, Meaning(a), Meanings(env, actions[1..]));
    }
  }

  lemma MeantSettling(env: B.Env, me: B.Rid, s: M.System, a: M.Action, rest: seq<M.Action>)
    requires M.Internal(a) && M.Enabled(me, s, a) && M.Settling(env, me, M.Next(env, me, s, a), rest)
    ensures M.Settling(env, me, s, [a] + rest)
  {
    hide M.Enabled, M.Next;
    assert ([a] + rest)[1..] == rest;
  }

  /** The actions on frames for a settling run of messages. */
  lemma {:induction false} SettlingRaised(env: B.Env, me: B.Rid, w: System, s: M.System, ms: seq<M.Action>)
    returns (actions: seq<Action>)
    requires Represents(w, s) && M.Sound(me, s) && InOrder(env, s) && M.Settling(env, me, s, ms)
    ensures Settling(env, me, w, actions) && Fitting(env, actions) && Meanings(env, actions) == ms
    decreases |ms|
  {
    if ms == [] {
      actions := [];
    } else {
      hide M.Sound, InOrder, Represents, Next, M.Next, Fitting, Meanings, Enabled, M.Enabled;
      var a := if ms[0].ClientReads? then ClientReads else ServerReads;
      NextCoincides(env, me, w, s, a);
      var rest := SettlingRaised(env, me, Next(env, me, w, a), M.Next(env, me, s, Meaning(a)), ms[1..]);
      MeaningsNext(env, a, rest);
      actions := [a] + rest;
      assert actions[1..] == rest && [ms[0]] + ms[1..] == ms;
    }
  }

  /** Where a run settles, the client is connected; and the broker agrees exactly when they were
      in touch at its start. */
  lemma SettledAgreement(env: B.Env, me: B.Rid, history: seq<Action>, actions: seq<Action>)
    requires Fitting(env, history) && Running(Play(env, me, ASLEEP, history))
    requires var w := Play(env, me, ASLEEP, history);
      Settling(env, me, w, actions) && Quiet(Play(env, me, w, actions))
    ensures var w := Play(env, me, ASLEEP, history);
      var end := Play(env, me, w, actions);
      && C.AsTalk(end.client) == C.Talking(C.Connected) && !end.down
      && (me in end.broker.sessions <==> InTouch(me, w))
  {
    hide M.Sound, InOrder, Settling, M.Settling, Play, M.Play, Running, M.Running, InTouch, M.InTouch, Meanings,
         Meaning;
    FramesAreMessages(env, me, history);
    var w, s := Play(env, me, ASLEEP, history), M.Play(env, me, M.ASLEEP, Meanings(env, history));
    SettlingCoincides(env, me, w, s, actions);
    PlayCoincides(env, me, w, s, actions);
    SameView(env, me, w, s);
    SameView(env, me, Play(env, me, w, actions), M.Play(env, me, s, Meanings(env, actions)));
    M.SettledAgreement(env, me, s, Meanings(env, actions));
  }

  /** The reconnect exchange on the wire, over every run whose texts fit, silent expiries
      included: from any state where the client has started, reading the queues in whatever order
      stops within the potential, some order empties both, and wherever both are empty the client
      is connected and the broker agrees exactly when client and broker were in touch. */
  lemma ReconnectStabilises(env: B.Env, me: B.Rid, history: seq<Action>)
    requires Fitting(env, history) && Running(Play(env, me, ASLEEP, history))
    ensures var w := Play(env, me, ASLEEP, history);
      && (forall actions :: Settling(env, me, w, actions) ==> |actions| <= Potential(me, w))
      && (exists actions :: Settling(env, me, w, actions) && Quiet(Play(env, me, w, actions)))
      && (forall actions :: Settling(env, me, w, actions) && Quiet(Play(env, me, w, actions)) ==>
            && C.AsTalk(Play(env, me, w, actions).client) == C.Talking(C.Connected)
            && (me in Play(env, me, w, actions).broker.sessions <==> InTouch(me, w)))
  {
    hide M.Sound, InOrder, Settling, M.Settling, Play, M.Play, Running, M.Running, InTouch, M.InTouch, Meanings,
         Meaning, Potential, M.Potential;
    FramesAreMessages(env, me, history);
    var w, s := Play(env, me, ASLEEP, history), M.Play(env, me, M.ASLEEP, Meanings(env, history));
    SameView(env, me, w, s);
    var ms := M.SettlingSucceeds(env, me, s);
    var run := SettlingRaised(env, me, w, s, ms);
    PlayCoincides(env, me, w, s, run);
    SameView(env, me, Play(env, me, w, run), M.Play(env, me, s, ms));
    forall actions | Settling(env, me, w, actions)
      ensures |actions| <= Potential(me, w)
    {
      SettlingCoincides(env, me, w, s, actions);
      M.SettlingIsBounded(env, me, s, Meanings(env, actions));
    }
    forall actions | Settling(env, me, w, actions) && Quiet(Play(env, me, w, actions))
      ensures C.AsTalk(Play(env, me, w, actions).client) == C.Talking(C.Connected)
      ensures me in Play(env, me, w, actions).broker.sessions <==> InTouch(me, w)
    {
      SettledAgreement(env, me, history, actions);
    }
  }

  /** A connected client's next SUBSCRIBE or PUBLISH that fits puts it in touch again, so that
      after it every settled state agrees. */
  lemma RequestRestoresTouch(env: B.Env, me: B.Rid, history: seq<Action>, call: C.Call)
    requires Fitting(env, history) && ActionFits(env, Calls(call)) && (call.SubscribeTo? || call.PublishTo?)
    requires C.AsTalk(Play(env, me, ASLEEP, history).client) == C.Talking(C.Connected)
    ensures var w := Next(env, me, Play(env, me, ASLEEP, history), Calls(call));
      InTouch(me, w) && Running(w)
  {
    hide M.Sound, InOrder, Play, M.Play, Meanings, Next, M.Next, InTouch, M.InTouch, TextFits;
    var w, s := Play(env, me, ASLEEP, history), M.Play(env, me, M.ASLEEP, Meanings(env, history));
    FramesAreMessages(env, me, history);
    M.RequestRestoresTouch(env, me, s, call);
    NextCoincides(env, me, w, s, Calls(call));
    SameView(env, me, Next(env, me, w, Calls(call)), M.Next(env, me, s, M.Calls(call)));
  }

  // ----- Content -----

  /** Every DELIVER on its way to the client brings a content frame. */
  predicate Filled(q: seq<Packet>) {
    forall p :: p in q && Decode(p).Some? && Decode(p).value.Deliver? ==> Decode(p).value.content != []
  }

  /** Other clients publish nothing without a content frame. */
  predicate SendsContent(a: Action) {
    a.OtherSends? && Decode(a.packet).Some? && Decode(a.packet).value.Publish? ==> |a.packet| > 1
  }

  lemma DecodedContent(packet: Packet)
    requires Decode(packet).Some? && HasContent(Id(Decode(packet).value))
    ensures packet != [] && Content(Decode(packet).value) == packet[1..]
  {
    hide ReadStrings, ReadDict, DictOf;
  }

  /** A frame keeps its message's id, whatever its lengths. */
  lemma DecodedId(m: Msg)
    ensures Decode(Encode(m, [])).Some? ==> Id(Decode(Encode(m, [])).value) == Id(m)
  {
    hide Body, ReadStrings, ReadDict, DictOf;
  }

  lemma PutFills(ms: seq<Msg>)
    requires forall m :: m in ms && m.Deliver? ==> m.content != []
    ensures Filled(Put(ms))
  {
    hide Decode, FrameOf;
    forall i | 0 <= i < |ms| && Decode(Put(ms)[i]).Some? && Decode(Put(ms)[i]).value.Deliver?
      ensures Decode(Put(ms)[i]).value.content != []
    {
      var m := ms[i];
      DecodedId(m);
      DecodedContent(Encode(m, []));
      assert m in ms && Encode(m, [])[1..] == Content(m);
    }
  }

  /** The content that the broker sends on is the content that was published. */
  lemma DeliveredContentIsPublished(env: B.Env, st: B.State, me: B.Rid, input: B.Input)
    requires B.Inv(st)
    ensures forall m :: m in S.TraceTo(B.Step(env, st, input).1, me) && m.Deliver? ==>
      input.Receive? && input.from != me && input.msg.Publish? && m.content == input.msg.content
  {
    hide B.Step, B.Inv, S.TraceTo, S.Expressions, S.Matching;
    S.OutputRefines(env, st, input, me);
  }

  lemma BrokerFills(env: B.Env, me: B.Rid, w: System, input: B.Input)
    requires B.Inv(w.broker) && Filled(w.toClient)
    requires input.Receive? && input.from != me && input.msg.Publish? ==> input.msg.content != []
    ensures var t := BrokerTakes(env, me, w, input); B.Inv(t.broker) && Filled(t.toClient)
  {
    hide B.Step, B.Inv, S.TraceTo, Decode, Put;
    B.StepKeepsInv(env, w.broker, input);
    DeliveredContentIsPublished(env, w.broker, me, input);
    PutFills(S.TraceTo(B.Step(env, w.broker, input).1, me));
  }

  lemma NextFills(env: B.Env, me: B.Rid, w: System, a: Action)
    requires B.Inv(w.broker) && Filled(w.toClient) && SendsContent(a)
    ensures var t := Next(env, me, w, a); B.Inv(t.broker) && Filled(t.toClient)
  {
    hide B.Step, B.Inv, C.Step, BrokerTakes, Decode;
    EmptyInv();
    if Enabled(me, w, a) {
      match a
      case Calls(_) =>
      case ClientReads => assert forall p :: p in w.toClient[1..] ==> p in w.toClient;
      case ServerReads =>
        if Decode(w.toServer[0]).Some? {
          BrokerFills(env, me, w.(toServer := w.toServer[1..]), B.Receive(me, Decode(w.toServer[0]).value));
        }
      case OtherSends(from, packet) =>
        if Decode(packet).Some? {
          if Decode(packet).value.Publish? {
            DecodedContent(packet);
          }
          BrokerFills(env, me, w, B.Receive(from, Decode(packet).value));
        }
      case Expires(r) => BrokerFills(env, me, w, B.Expire(r));
    }
  }

  lemma {:induction false} PlayFills(env: B.Env, me: B.Rid, w: System, actions: seq<Action>)
    requires B.Inv(w.broker) && Filled(w.toClient) && forall i :: 0 <= i < |actions| ==> SendsContent(actions[i])
    ensures Filled(Play(env, me, w, actions).toClient)
    decreases |actions|
  {
    if actions != [] {
      hide B.Inv, Filled, Next, SendsContent;
      NextFills(env, me, w, actions[0]);
      assert forall i :: 0 <= i < |actions[1..]| ==> actions[1..][i] == actions[i + 1];
      PlayFills(env, me, Next(env, me, w, actions[0]), actions[1..]);
    }
  }

  lemma EmptyInv()
    ensures B.Inv(B.EMPTY)
  {
  }

  /** What the application hears when the client reads next. */
  function Heard(env: B.Env, w: System): seq<C.Reply> {
    if w.toClient == [] || Decode(w.toClient[0]).None? then []
    else C.Step(env.unspecified, w.client, C.Server(Decode(w.toClient[0]).value)).replies
  }

  predicate HandsNull(replies: seq<C.Reply>) {
    exists r :: r in replies && r.Message? && r.content.None?
  }

  /** Over every run in which other clients publish no message without a content frame, the
      application is never handed NULL for a content. */
  lemma NoNullContent(env: B.Env, me: B.Rid, history: seq<Action>)
    requires forall i :: 0 <= i < |history| ==> SendsContent(history[i])
    ensures !HandsNull(Heard(env, Play(env, me, ASLEEP, history)))
  {
    hide Decode, C.Step, Play;
    EmptyInv();
    PlayFills(env, me, ASLEEP, history);
    var w := Play(env, me, ASLEEP, history);
    if w.toClient != [] && Decode(w.toClient[0]).Some? && !w.client.Stopped() {
      assert w.toClient[0] in w.toClient;
      C.NullContentExactly(env.unspecified, w.client, Decode(w.toClient[0]).value);
    } else {
      StoppedHearsNothing(env, w);
    }
  }

  lemma StoppedHearsNothing(env: B.Env, w: System)
    requires w.client.Stopped() || w.toClient == [] || Decode(w.toClient[0]).None?
    ensures Heard(env, w) == []
  {
    hide Decode;
  }

  // ----- From a publisher to the application -----

  /** The client reads n times. */
  function ClientReadings(n: nat): seq<Action> {
    seq(n, _ => ClientReads)
  }

  /** As long as the client runs, each reading takes one packet. */
  lemma {:induction false} ReadingsDrain(env: B.Env, me: B.Rid, w: System, n: nat)
    requires n <= |w.toClient|
    ensures var v := Play(env, me, w, ClientReadings(n)); !v.client.Stopped() ==> v.toClient == w.toClient[n..]
    decreases n
  {
    if n > 0 {
      hide Decode, C.Step;
      var t := Next(env, me, w, ClientReads);
      assert ClientReadings(n)[1..] == ClientReadings(n - 1);
      if w.client.Stopped() {
        StoppedReads(env, me, w, n);
      } else {
        ReadingsDrain(env, me, t, n - 1);
      }
    }
  }

  lemma {:induction false} StoppedReads(env: B.Env, me: B.Rid, w: System, n: nat)
    requires w.client.Stopped()
    ensures Play(env, me, w, ClientReadings(n)) == w
  {
    if n > 0 {
      assert ClientReadings(n)[1..] == ClientReadings(n - 1);
      StoppedReads(env, me, w, n - 1);
    }
  }

  /** All that waits for the client shows one message. */
  predicate AllShow(q: seq<Packet>, sender: CString, address: CString, c: CString) {
    forall p :: p in q ==>
      && Decode(p).Some? && Decode(p).value.Deliver?
      && Decode(p).value.sender == sender && Decode(p).value.address == address
      && Decode(p).value.content != [] && Shows(Decode(p).value.content[0], c)
  }

  lemma {:induction false} AllHeard(env: B.Env, me: B.Rid, w: System, sender: CString, address: CString, c: CString,
                                    k: nat)
    requires C.AsTalk(w.client) == C.Talking(C.Connected) && AllShow(w.toClient, sender, address, c)
    requires k < |w.toClient|
    ensures Heard(env, Play(env, me, w, ClientReadings(k))) == [C.Message(sender, address, Some(c))]
    decreases k
  {
    hide Decode, C.Step;
    var p := w.toClient[0];
    assert p in w.toClient;
    C.ContentIsHeard(env.unspecified, w.client, Decode(p).value, c);
    if k > 0 {
      var t := Next(env, me, w, ClientReads);
      assert ClientReadings(k)[1..] == ClientReadings(k - 1);
      assert forall p :: p in t.toClient ==> p in w.toClient;
      AllHeard(env, me, t, sender, address, c, k - 1);
    }
  }

  /** How many of the client's expressions match. */
  function Matches(env: B.Env, me: B.Rid, w: System, address: CString): nat {
    if me in w.broker.sessions then |S.Matching(env, S.Expressions(w.broker.index, me), address)| else 0
  }

  lemma PublishArrives(env: B.Env, me: B.Rid, w: System, from: B.Rid, packet: Packet, c: CString)
    requires B.Inv(w.broker) && !w.down && from != me && from in w.broker.sessions && |w.broker.sessions[from]| <= 255
    requires Decode(packet).Some? && Decode(packet).value.Publish?
    requires PERCENT !in w.broker.sessions[from] && PERCENT !in Decode(packet).value.address
    requires Decode(packet).value.content != [] && Shows(Decode(packet).value.content[0], c)
    ensures var address, t := Decode(packet).value.address, Next(env, me, w, OtherSends(from, packet));
      && |t.toClient| == |w.toClient| + Matches(env, me, w, address)
      && t.toClient[..|w.toClient|] == w.toClient
      && AllShow(t.toClient[|w.toClient|..], w.broker.sessions[from], address, c)
  {
    hide B.Step, B.Inv, B.Delivery, S.TraceTo, S.Expressions, S.Matching, Decode, Encode, Put;
    var m, name := Decode(packet).value, w.broker.sessions[from];
    var input := B.Receive(from, m);
    S.OutputRefines(env, w.broker, input, me);
    var d := B.Delivery(env, name, m.address, m.content);
    var out := S.TraceTo(B.Step(env, w.broker, input).1, me);
    assert out == S.Repeat(d, Matches(env, me, w, m.address));
    DecodedFits(packet);
    PlainDelivery(env, name, m.address, m.content);
    PutRepeats(d, Matches(env, me, w, m.address));
    assert Next(env, me, w, OtherSends(from, packet)).toClient == w.toClient + Put(out);
  }

  lemma PlainDelivery(env: B.Env, name: CString, address: CString, content: seq<Frame>)
    requires PERCENT !in name && PERCENT !in address && |name| <= 255 && |address| <= 255
    ensures B.Delivery(env, name, address, content) == Deliver(name, address, map[], content)
    ensures Decode(Encode(B.Delivery(env, name, address, content), [])) == Some(Deliver(name, address, map[], content))
  {
    hide Decode, Encode;
    PlainText(name);
    PlainText(address);
    DeliveryArrivesExactly(env, name, address, content);
  }

  lemma PutRepeats(d: Msg, n: nat)
    ensures |Put(S.Repeat(d, n))| == n && forall p :: p in Put(S.Repeat(d, n)) ==> p == Encode(d, [])
  {
    hide Encode;
  }

  /** Over every run whose texts fit: when another client publishes with plain texts and a first
      frame that shows c, the application hears publisher, address and c once for each of the
      client's expressions that match, as soon as the connected client has read what was queued. */
  lemma PublishIsHeard(env: B.Env, me: B.Rid, history: seq<Action>, from: B.Rid, packet: Packet, c: CString)
    requires Fitting(env, history) && from != me && from in Play(env, me, ASLEEP, history).broker.sessions
    requires Decode(packet).Some? && Decode(packet).value.Publish?
    requires PERCENT !in Play(env, me, ASLEEP, history).broker.sessions[from]
    requires PERCENT !in Decode(packet).value.address
    requires Decode(packet).value.content != [] && Shows(Decode(packet).value.content[0], c)
    ensures var w := Play(env, me, ASLEEP, history);
      var v := Play(env, me, Next(env, me, w, OtherSends(from, packet)), ClientReadings(|w.toClient|));
      var name, address := w.broker.sessions[from], Decode(packet).value.address;
      C.AsTalk(v.client) == C.Talking(C.Connected) ==>
        && |v.toClient| == Matches(env, me, w, address)
        && forall k :: 0 <= k < |v.toClient| ==>
          Heard(env, Play(env, me, v, ClientReadings(k))) == [C.Message(name, address, Some(c))]
  {
    hide Decode, Play, Next, M.Sound, M.Play, Meanings, Heard, AllShow, Matches;
    var w := Play(env, me, ASLEEP, history);
    FramesAreMessages(env, me, history);
    SoundNames(env, me, w, M.Play(env, me, M.ASLEEP, Meanings(env, history)));
    PlainText(w.broker.sessions[from]);
    PublishArrives(env, me, w, from, packet, c);
    var t := Next(env, me, w, OtherSends(from, packet));
    ReadingsDrain(env, me, t, |w.toClient|);
    var v := Play(env, me, t, ClientReadings(|w.toClient|));
    if C.AsTalk(v.client) == C.Talking(C.Connected) {
      forall k | 0 <= k < |v.toClient|
        ensures Heard(env, Play(env, me, v, ClientReadings(k)))
                == [C.Message(w.broker.sessions[from], Decode(packet).value.address, Some(c))]
      {
        AllHeard(env, me, v, w.broker.sessions[from], Decode(packet).value.address, c, k);
      }
    }
  }

  lemma SoundNames(env: B.Env, me: B.Rid, w: System, s: M.System)
    requires Represents(w, s) && M.Sound(me, s) && InOrder(env, s)
    ensures B.Inv(w.broker) && !w.down
    ensures forall r :: r in w.broker.sessions ==> TextFits(env.unspecified, w.broker.sessions[r])
  {
    hide B.Inv, TextFits, Put;
  }

  // ----- Conformance on the wire -----

  lemma MeaningsKeepSession(env: B.Env, me: B.Rid, history: seq<Action>)
    requires Fitting(env, history) && Expires(me) !in history
    ensures M.Expires(me) !in Meanings(env, history)
  {
    forall i | 0 <= i < |history|
      ensures Meanings(env, history)[i] != M.Expires(me)
    {
      assert ActionFits(env, history[i]);
      assert history[i] != Expires(me);
    }
  }

  /** Over every run whose texts fit and in which the client's own session does not expire: the
      broker never sends INVALID, the client never reconnects, and no message it reads ends its
      state machine; nor does a message hand the application NULL, unless another client published
      without a content frame. */
  lemma NeverRejected(env: B.Env, me: B.Rid, history: seq<Action>)
    requires Fitting(env, history) && Expires(me) !in history
    ensures var w := Play(env, me, ASLEEP, history);
      && !w.down && Encode(Invalid, []) !in w.toClient && C.AsTalk(w.client) != C.Talking(C.Reconnecting)
      && (Running(w) && w.toClient != [] ==> Running(Next(env, me, w, ClientReads)))
      && ((forall i :: 0 <= i < |history| ==> SendsContent(history[i])) ==> !HandsNull(Heard(env, w)))
  {
    hide M.Sound, InOrder, Play, M.Play, Meanings, Next, M.Next, Encode, Put, Heard, SendsContent;
    if forall i :: 0 <= i < |history| ==> SendsContent(history[i]) {
      NoNullContent(env, me, history);
    }
    var w, s := Play(env, me, ASLEEP, history), M.Play(env, me, M.ASLEEP, Meanings(env, history));
    FramesAreMessages(env, me, history);
    SameView(env, me, w, s);
    MeaningsKeepSession(env, me, history);
    Conformance.NeverRejected(env, me, Meanings(env, history));
    NextCoincides(env, me, w, s, ClientReads);
    SameView(env, me, Next(env, me, w, ClientReads), M.Next(env, me, s, M.ClientReads));
    EmptyPut(s.toClient);
  }

  lemma EmptyPut(q: seq<Msg>)
    ensures Put(q) == [] <==> q == []
  {
    assert |Put(q)| == |q|;
  }

  /** And when the client signals success for a SUBSCRIBE, the broker's index holds, under the
      client, the text that printf made of the application's argument; so it holds the argument
      itself if that has no '%'. */
  lemma SuccessMeansSubscribed(env: B.Env, me: B.Rid, history: seq<Action>)
    requires Fitting(env, history) && Expires(me) !in history
    requires var w := Play(env, me, ASLEEP, history);
      && C.AsTalk(w.client) == C.Talking(C.Subscribing) && w.toClient != []
      && Decode(w.toClient[0]) == Some(SubscribeOk)
    ensures var w := Play(env, me, ASLEEP, history);
      && C.Step(env.unspecified, w.client, C.Server(SubscribeOk)).replies == [C.Success]
      && w.asked.Some? && Format(env.unspecified, w.asked.value) in S.Expressions(w.broker.index, me)
      && (PERCENT !in w.asked.value ==> w.asked.value in S.Expressions(w.broker.index, me))
  {
    hide M.Sound, Play, M.Play, Meanings, Put, Decode, Travels, C.Step, S.Expressions, Format;
    var w, s := Play(env, me, ASLEEP, history), M.Play(env, me, M.ASLEEP, Meanings(env, history));
    FramesAreMessages(env, me, history);
    MeaningsKeepSession(env, me, history);
    EmptyPut(s.toClient);
    PutHead(s.toClient);
    Conformance.SuccessMeansSubscribed(env, me, Meanings(env, history));
    if PERCENT !in w.asked.value {
      FormatKeepsExactlyPlainText(w.asked.value);
    }
  }

  // ----- What happens to texts that do not fit -----

  const CONNECT: seq<Action> := [Calls(C.Connect(true)), ServerReads, ClientReads]

  /** A client that is alone with the broker connects and subscribes. */
  function Subscribing(e: CString): seq<Action> {
    CONNECT + [Calls(C.SubscribeTo(e)), ServerReads, ClientReads]
  }

  lemma {:induction false} PlayConcat(env: B.Env, me: B.Rid, w: System, first: seq<Action>, rest: seq<Action>)
    ensures Play(env, me, w, first + rest) == Play(env, me, Play(env, me, w, first), rest)
    decreases |first|
  {
    if first == [] {
      assert first + rest == rest;
    } else {
      hide Next;
      assert (first + rest)[1..] == first[1..] + rest;
      PlayConcat(env, me, Next(env, me, w, first[0]), first[1..], rest);
    }
  }

  lemma PlayThree(env: B.Env, me: B.Rid, w: System, a: Action, b: Action, c: Action)
    ensures Play(env, me, w, [a, b, c]) == Next(env, me, Next(env, me, Next(env, me, w, a), b), c)
  {
    hide Next;
    assert [a, b, c][1..] == [b, c] && [b, c][1..] == [c] && [c][1..] == [];
    assert Play(env, me, w, [a, b, c]) == Play(env, me, Next(env, me, w, a), [b, c]);
    assert forall t :: Play(env, me, t, [c]) == Next(env, me, t, c);
  }

  /** Alone with the broker and connected: nothing in flight, no subscriptions. */
  predicate Joined(me: B.Rid, w: System, index: seq<B.Entry>) {
    && Quiet(w) && !w.down && C.AsTalk(w.client) == C.Talking(C.Connected) && C.Unsigned(w.client)
    && w.broker == B.State(map[me := []], index)
  }

  lemma Connects(env: B.Env, me: B.Rid)
    ensures Joined(me, Play(env, me, ASLEEP, CONNECT), [])
  {
    hide C.Step, Next, Play;
    var s1 := Next(env, me, ASLEEP, Calls(C.Connect(true)));
    var s2 := Next(env, me, s1, ServerReads);
    PlayThree(env, me, ASLEEP, Calls(C.Connect(true)), ServerReads, ClientReads);
    Greets(env, me);
    Welcomes(env, me, s1);
    Joins(env, me, s2);
  }

  lemma Greets(env: B.Env, me: B.Rid)
    ensures var t := Next(env, me, ASLEEP, Calls(C.Connect(true)));
      && t.toServer == [Encode(C.GREETING, [])] && t.toClient == [] && t.broker == B.EMPTY && !t.down
      && C.AsTalk(t.client) == C.Talking(C.Connecting) && C.Unsigned(t.client)
  {
    hide C.Step, Encode;
    C.StepSaysTurn(env.unspecified, ASLEEP.client, C.Api(C.Connect(true)));
  }

  lemma Welcomes(env: B.Env, me: B.Rid, w: System)
    requires w.toServer == [Encode(C.GREETING, [])] && w.toClient == [] && w.broker == B.EMPTY && !w.down
    ensures var t := Next(env, me, w, ServerReads);
      && t.toServer == [] && t.toClient == [Encode(HelloOk(map[]), [])] && t.client == w.client && !t.down
      && t.broker == B.State(map[me := []], [])
  {
    hide Encode, Decode;
    PlainTravels(C.GREETING);
    TravelsExactly(C.GREETING);
    OnePacket(me, HelloOk(map[]));
    assert B.EMPTY.sessions[me := []] == map[me := []];
  }

  lemma Joins(env: B.Env, me: B.Rid, w: System)
    requires w.toServer == [] && w.toClient == [Encode(HelloOk(map[]), [])] && !w.down
    requires w.broker == B.State(map[me := []], [])
    requires C.AsTalk(w.client) == C.Talking(C.Connecting) && C.Unsigned(w.client)
    ensures Joined(me, Next(env, me, w, ClientReads), [])
  {
    hide C.Step, Encode, Decode;
    PlainTravels(HelloOk(map[]));
    TravelsExactly(HelloOk(map[]));
    C.StepSaysTurn(env.unspecified, w.client, C.Server(HelloOk(map[])));
    assert w.toServer + Put([]) == [];
  }

  /** Out of touch: a session that expires while nothing is in flight is gone, and a client that
      makes no further call never learns of it. */
  lemma SilentExpiryDisagrees(env: B.Env, me: B.Rid)
    ensures var w := Play(env, me, ASLEEP, CONNECT + [Expires(me)]);
      Quiet(w) && C.AsTalk(w.client) == C.Talking(C.Connected) && me !in w.broker.sessions && !InTouch(me, w)
  {
    hide Play, Encode;
    Connects(env, me);
    PlayConcat(env, me, ASLEEP, CONNECT, [Expires(me)]);
    var w := Play(env, me, ASLEEP, CONNECT);
    PlayOne(env, me, w, Expires(me));
    assert w.toClient + Put([]) == [];
  }

  lemma PlayOne(env: B.Env, me: B.Rid, w: System, a: Action)
    ensures Play(env, me, w, [a]) == Next(env, me, w, a)
  {
    hide Next;
    assert [a][1..] == [];
  }

  lemma Asks(env: B.Env, me: B.Rid, w: System, e: CString)
    requires Joined(me, w, [])
    ensures var t := Next(env, me, w, Calls(C.SubscribeTo(e)));
      && t.toServer == [Encode(Subscribe(Format(env.unspecified, e), map[]), [])] && t.toClient == []
      && t.broker == w.broker && !t.down && t.asked == Some(e)
      && C.AsTalk(t.client) == C.Talking(C.Subscribing) && C.Unsigned(t.client)
  {
    hide C.Step, Encode, Format;
    C.StepSaysTurn(env.unspecified, w.client, C.Api(C.SubscribeTo(e)));
  }

  lemma Subscribes(env: B.Env, me: B.Rid, w: System, m: Msg)
    requires w.broker == B.State(map[me := []], []) && !w.down && w.toClient == [] && w.toServer != []
    requires Decode(w.toServer[0]) == Some(m) && m.Subscribe?
    ensures var t := Next(env, me, w, ServerReads);
      && t.broker == B.State(map[me := []], [B.Entry(m.expression, [me])]) && !t.down
      && t.toClient == [Encode(SubscribeOk, [])] && t.client == w.client && t.toServer == w.toServer[1..]
  {
    hide Decode, Encode;
    OnePacket(me, SubscribeOk);
    assert B.Store([], m.expression, me) == [B.Entry(m.expression, [me])];
  }

  lemma OnePacket(r: B.Rid, m: Msg)
    ensures S.TraceTo([B.Packet(r, m)], r) == [m] && Put([m]) == [Encode(m, [])]
  {
    hide Encode;
    assert [B.Packet(r, m)][..0] == [];
  }

  lemma OneExpression(e: CString, r: B.Rid)
    ensures S.Expressions([B.Entry(e, [r])], r) == {e} && S.Expressions([], r) == {}
  {
    assert [B.Entry(e, [r])][0].clients == [r];
  }

  lemma Succeeds(env: B.Env, me: B.Rid, w: System)
    requires C.AsTalk(w.client) == C.Talking(C.Subscribing) && C.Unsigned(w.client)
    requires w.toClient == [Encode(SubscribeOk, [])]
    ensures var t := Next(env, me, w, ClientReads);
      && t.toClient == [] && t.toServer == w.toServer && t.broker == w.broker && t.down == w.down
      && C.AsTalk(t.client) == C.Talking(C.Connected) && C.Unsigned(t.client)
  {
    hide Decode, Encode, C.Step;
    PlainTravels(SubscribeOk);
    TravelsExactly(SubscribeOk);
    C.StepSaysTurn(env.unspecified, w.client, C.Server(SubscribeOk));
    assert Put([]) == [] && w.toServer + [] == w.toServer;
  }

  /** How the run ends: with the text that printf makes of the argument, if that fits; otherwise
      with a shorter text, or none. */
  lemma SubscribingEnds(env: B.Env, me: B.Rid, e: CString)
    ensures var w := Play(env, me, ASLEEP, Subscribing(e));
      && (TextFits(env.unspecified, e) ==> Joined(me, w, [B.Entry(Format(env.unspecified, e), [me])]))
      && (!TextFits(env.unspecified, e) ==> forall x :: x in S.Expressions(w.broker.index, me) ==> |x| <= 255)
  {
    hide Decode, Encode, Format, Next, Play, S.Expressions, C.Unsigned;
    var rest := [Calls(C.SubscribeTo(e)), ServerReads, ClientReads];
    var w := Play(env, me, ASLEEP, CONNECT);
    var asks := Next(env, me, w, Calls(C.SubscribeTo(e)));
    var served := Next(env, me, asks, ServerReads);
    var m := Subscribe(Format(env.unspecified, e), map[]);
    PlayConcat(env, me, ASLEEP, CONNECT, rest);
    PlayThree(env, me, w, Calls(C.SubscribeTo(e)), ServerReads, ClientReads);
    Connects(env, me);
    Asks(env, me, w, e);
    RequestArrivesExactly(env.unspecified, e, []);
    DecodedId(m);
    DecodedFits(Encode(m, []));
    if Decode(Encode(m, [])).Some? {
      var heard := Decode(Encode(m, [])).value;
      ShortExpression(heard);
      Subscribes(env, me, asks, heard);
      Succeeds(env, me, served);
      OneExpression(heard.expression, me);
    } else {
      BrokerEnds(env, me, asks);
      OneExpression([], me);
    }
  }

  lemma ShortExpression(m: Msg)
    requires m.Subscribe? && Fits(m)
    ensures |m.expression| <= 255
  {
  }

  lemma BrokerEnds(env: B.Env, me: B.Rid, w: System)
    requires w.toServer != [] && !w.down && w.toClient == [] && Decode(w.toServer[0]).None?
    ensures var t := Next(env, me, w, ServerReads);
      && t.down && t.broker == B.EMPTY && t.client == w.client && t.toClient == []
      && Next(env, me, t, ClientReads) == t
  {
    hide Decode;
  }

  /** A subscription on the wire holds the text that printf makes of the argument exactly when
      that text fits its length octet. */
  lemma SubscribedExactly(env: B.Env, me: B.Rid, e: CString)
    ensures var w := Play(env, me, ASLEEP, Subscribing(e));
      Format(env.unspecified, e) in S.Expressions(w.broker.index, me) <==> TextFits(env.unspecified, e)
  {
    hide Play, Format;
    SubscribingEnds(env, me, e);
    OneExpression(Format(env.unspecified, e), me);
  }

  /** It holds the argument itself, whatever printf does with stray conversions, exactly when the
      argument is short and has no '%'. */
  lemma ArgumentSubscribedExactly(matches: (CString, CString) -> bool, me: B.Rid, e: CString)
    ensures (forall u: CString -> CString ::
              e in S.Expressions(Play(B.Env(matches, u), me, ASLEEP, Subscribing(e)).broker.index, me))
            <==> PERCENT !in e && |e| <= 255
  {
    hide Play, Format, Subscribing, S.Expressions;
    var u: CString -> CString := _ => [];
    SubscribingEnds(B.Env(matches, u), me, e);
    OneExpression(Format(u, e), me);
    Fidelity.FormatOrNothing(e);
    FormatKeepsExactlyPlainText(e);
    if PERCENT !in e && |e| <= 255 {
      forall u: CString -> CString
        ensures e in S.Expressions(Play(B.Env(matches, u), me, ASLEEP, Subscribing(e)).broker.index, me)
      {
        SubscribingEnds(B.Env(matches, u), me, e);
        OneExpression(e, me);
      }
    }
  }

  /** And the escaped form of a text brings a subscription to that text, whatever printf does,
      exactly when the text is short. */
  lemma EscapedSubscribedExactly(env: B.Env, me: B.Rid, t: CString)
    ensures t in S.Expressions(Play(env, me, ASLEEP, Subscribing(Escape(t))).broker.index, me) <==> |t| <= 255
  {
    hide Play, Format, Subscribing, S.Expressions;
    EscapedText(env.unspecified, t);
    SubscribedExactly(env, me, Escape(t));
  }

  // ----- Exactly when a reactor ends -----

  /** The bytes that a dictionary needs at least when the first octet of its count is not 0. */
  const CLAIM: nat := 5 * 0x100_0000

  /** A dictionary whose count starts with a byte of text claims more than any frame of this size
      holds. */
  lemma TextClaimsTooMuch(b: seq<byte>)
    requires 4 <= |b| < 4 + CLAIM && b[0] != 0
    ensures ReadDict(b).None?
  {
    hide ReadEntries, ReadEntry, EntriesSize, ShortKeys, Val;
    FourOctets(b[0], b[1], b[2], b[3]);
    EntriesRead(Val4(b), b[4..]);
  }

  lemma NoEntriesPut()
    ensures |PutDict([])| == 4
  {
  }

  lemma RestOf(b: seq<byte>, n: nat)
    requires b != [] && b[0] == n && 1 + n <= |b|
    ensures ReadString(b).Some? && ReadString(b).value.rest == b[1 + n..]
  {
    hide CStr;
  }

  /** A text that is longer than its length octet says leaves bytes behind. */
  lemma TextLeft(t: CString, after: seq<byte>)
    requires |t| > 255
    ensures var n := |t| % 256;
      && t[n..] != [] && t[n] != 0
      && ReadString(PutString(t) + after).Some?
      && ReadString(PutString(t) + after).value.rest == t[n..] + after
  {
    hide ReadString;
    var n := |t| % 256;
    var b := PutString(t) + after;
    assert b[0] == n && b[1..] == t + after;
    assert b[1 + n..] == t[n..] + after;
    assert t[n] in t;
    RestOf(b, n);
  }

  /** What is left is read as a dictionary. */
  lemma LongTextIsMalformed(m: Msg, t: CString)
    requires (m.Subscribe? || m.Publish?) && Strings(m) == [t] && 255 < |t| < CLAIM
    ensures Decode(Encode(m, [])).None?
  {
    hide ReadDict, ReadString, PutDict, PutString, DecodeBody, Content;
    var n := |t| % 256;
    var b := PutString(t) + PutDict([]);
    assert [t][1..] == [] && PutStrings([t]) == PutString(t) + PutStrings([]);
    assert FrameOf(m, []) == [SIGNATURE, SIGNATURE, Id(m)] + b;
    assert FrameOf(m, [])[3..] == b;
    TextLeft(t, PutDict([]));
    NoEntriesPut();
    var rest := t[n..] + PutDict([]);
    assert rest[0] == t[n];
    TextClaimsTooMuch(rest);
    BodyRead(Id(m), b, Content(m));
  }

  /** No call brings a text that reaches CLAIM bytes. */
  predicate Bounded(env: B.Env, a: Action) {
    a.Calls? ==>
      && (a.call.SubscribeTo? ==> |Format(env.unspecified, a.call.expression)| < CLAIM)
      && (a.call.PublishTo? ==> |Format(env.unspecified, a.call.address)| < CLAIM)
  }

  /** The action sends the broker what it cannot read: a text of a connected client that does not
      fit, or frames of another client that do not decode. */
  predicate Breaks(env: B.Env, me: B.Rid, w: System, a: Action) {
    match a
    case Calls(call) =>
      && C.AsTalk(w.client) == C.Talking(C.Connected)
      && ((call.SubscribeTo? && !TextFits(env.unspecified, call.expression))
          || (call.PublishTo? && !TextFits(env.unspecified, call.address)))
    case OtherSends(_, packet) => Enabled(me, w, a) && Decode(packet).None?
    case _ => false
  }

  predicate Unreadable(q: seq<Packet>) {
    exists p :: p in q && Decode(p).None?
  }

  /** The broker's reactor has ended, or will end when it has read its queue. */
  predicate Doomed(w: System) {
    w.down || Unreadable(w.toServer)
  }

  predicate BrokerKind(m: Msg) {
    m.HelloOk? || m.SubscribeOk? || m.Deliver? || m.GoodbyeOk? || m.Invalid?
  }

  /** What holds whether texts fit or not: all that is on its way to the client reads as a kind of
      message that a broker sends, if it reads at all. */
  predicate Steady(w: System) {
    && B.Inv(w.broker) && C.Unsigned(w.client)
    && forall p :: p in w.toClient && Decode(p).Some? ==> BrokerKind(Decode(p).value)
  }

  lemma UnreadableConcat(a: seq<Packet>, b: seq<Packet>)
    ensures Unreadable(a + b) <==> Unreadable(a) || Unreadable(b)
  {
    hide Decode;
    assert forall p :: p in a + b <==> p in a || p in b;
  }

  lemma UnreadableOne(m: Msg)
    ensures Unreadable(Put([m])) <==> Decode(Encode(m, [])).None?
    ensures !Unreadable(Put([]))
  {
    hide Decode, Encode;
    assert Put([m]) == [Encode(m, [])] && Encode(m, []) in Put([m]);
  }

  lemma BrokerSpeaks(env: B.Env, st: B.State, me: B.Rid, input: B.Input)
    requires B.Inv(st)
    ensures forall m :: m in S.TraceTo(B.Step(env, st, input).1, me) ==> BrokerKind(m)
  {
    hide B.Step, B.Inv, S.TraceTo, S.Expressions, S.Matching;
    S.OutputRefines(env, st, input, me);
  }

  lemma PutKinds(ms: seq<Msg>)
    requires forall m :: m in ms ==> BrokerKind(m)
    ensures forall p :: p in Put(ms) && Decode(p).Some? ==> BrokerKind(Decode(p).value)
  {
    hide Decode, Encode;
    forall i | 0 <= i < |ms|
      ensures Decode(Put(ms)[i]).Some? ==> BrokerKind(Decode(Put(ms)[i]).value)
    {
      assert ms[i] in ms;
      DecodedId(ms[i]);
    }
  }

  lemma BrokerTakesSteady(env: B.Env, me: B.Rid, w: System, input: B.Input)
    requires Steady(w)
    ensures Steady(BrokerTakes(env, me, w, input))
  {
    hide B.Step, B.Inv, S.TraceTo, Decode, C.Unsigned, Put;
    B.StepKeepsInv(env, w.broker, input);
    BrokerSpeaks(env, w.broker, me, input);
    PutKinds(S.TraceTo(B.Step(env, w.broker, input).1, me));
  }

  lemma ClientReadsOn(env: B.Env, me: B.Rid, w: System)
    requires Steady(w) && Enabled(me, w, ClientReads)
    ensures var t := Next(env, me, w, ClientReads);
      Steady(t) && t.down == w.down && (Unreadable(t.toServer) <==> Unreadable(w.toServer))
  {
    hide C.Step, Decode, Encode, Put, Unreadable, B.Inv;
    var p := w.toClient[0];
    assert p in w.toClient;
    if Decode(p).Some? {
      var m := Decode(p).value;
      C.StepSaysTurn(env.unspecified, w.client, C.Server(m));
      var out := C.Step(env.unspecified, w.client, C.Server(m)).out;
      PlainTravels(C.GREETING);
      TravelsExactly(C.GREETING);
      UnreadableOne(C.GREETING);
      UnreadableConcat(w.toServer, Put(out));
    }
  }

  lemma BrokerReads(env: B.Env, me: B.Rid, w: System)
    requires Steady(w) && Enabled(me, w, ServerReads)
    ensures var t := Next(env, me, w, ServerReads);
      && Steady(t) && t.toServer == w.toServer[1..]
      && (t.down <==> Decode(w.toServer[0]).None?)
      && (Doomed(t) <==> Doomed(w))
  {
    hide B.Step, Decode, Put, S.TraceTo, B.Inv, C.Unsigned;
    var p := w.toServer[0];
    assert w.toServer == [p] + w.toServer[1..] && p in w.toServer;
    if Decode(p).Some? {
      BrokerTakesSteady(env, me, w.(toServer := w.toServer[1..]), B.Receive(me, Decode(p).value));
    } else {
      EmptyInv();
    }
  }

  /** The request that a call sends, and whether it can be read. */
  lemma CallSends(env: B.Env, me: B.Rid, w: System, call: C.Call)
    requires C.Unsigned(w.client) && Bounded(env, Calls(call))
    ensures var out := C.Step(env.unspecified, w.client, C.Api(call)).out;
      Unreadable(Put(out)) <==> Breaks(env, me, w, Calls(call))
  {
    hide C.Step, Decode, Encode, Put, Format, Unreadable;
    var u := env.unspecified;
    C.StepSaysTurn(u, w.client, C.Api(call));
    PlainTravels(C.GREETING);
    TravelsExactly(C.GREETING);
    UnreadableOne(C.GREETING);
    if C.AsTalk(w.client) == C.Talking(C.Connected) && (call.SubscribeTo? || call.PublishTo?) {
      var text := if call.SubscribeTo? then call.expression else call.address;
      var m := if call.SubscribeTo? then Subscribe(Format(u, text), map[])
               else Publish(Format(u, text), map[], [call.content]);
      RequestArrivesExactly(u, text, if call.PublishTo? then call.content else []);
      UnreadableOne(m);
      if !TextFits(u, text) {
        LongTextIsMalformed(m, Format(u, text));
      }
    }
  }

  lemma CallDooms(env: B.Env, me: B.Rid, w: System, call: C.Call)
    requires Steady(w) && Bounded(env, Calls(call))
    ensures var t := Next(env, me, w, Calls(call));
      Steady(t) && (Doomed(t) <==> Doomed(w) || Breaks(env, me, w, Calls(call)))
  {
    hide C.Step, Decode, Put, B.Inv, Unreadable, Breaks, Bounded;
    CallSends(env, me, w, call);
    C.StepSaysTurn(env.unspecified, w.client, C.Api(call));
    UnreadableConcat(w.toServer, Put(C.Step(env.unspecified, w.client, C.Api(call)).out));
  }

  lemma OthersDoom(env: B.Env, me: B.Rid, w: System, a: Action)
    requires Steady(w) && (a.OtherSends? || a.Expires?) && Enabled(me, w, a)
    ensures var t := Next(env, me, w, a); Steady(t) && (Doomed(t) <==> Doomed(w) || Breaks(env, me, w, a))
  {
    hide B.Step, Decode, Put, B.Inv, C.Unsigned, Unreadable, S.TraceTo;
    EmptyInv();
    if a.Expires? {
      BrokerTakesSteady(env, me, w, B.Expire(a.rid));
    } else if Decode(a.packet).Some? {
      BrokerTakesSteady(env, me, w, B.Receive(a.from, Decode(a.packet).value));
    }
  }

  lemma NextDooms(env: B.Env, me: B.Rid, w: System, a: Action)
    requires Steady(w) && Bounded(env, a)
    ensures var t := Next(env, me, w, a); Steady(t) && (Doomed(t) <==> Doomed(w) || Breaks(env, me, w, a))
  {
    hide Steady, Doomed, ClientTakes, ClientHears, BrokerTakes, BrokerHears, Bounded, Decode, TextFits;
    if Enabled(me, w, a) {
      match a
      case Calls(call) => CallDooms(env, me, w, call);
      case ClientReads => ReadDooms(env, me, w);
      case ServerReads => BrokerReads(env, me, w);
      case _ => OthersDoom(env, me, w, a);
    }
  }

  lemma ReadDooms(env: B.Env, me: B.Rid, w: System)
    requires Steady(w) && Enabled(me, w, ClientReads)
    ensures var t := Next(env, me, w, ClientReads); Steady(t) && (Doomed(t) <==> Doomed(w))
  {
    hide Steady, Unreadable, Next;
    ClientReadsOn(env, me, w);
  }

  predicate AllBounded(env: B.Env, actions: seq<Action>) {
    forall i :: 0 <= i < |actions| ==> Bounded(env, actions[i])
  }

  /** Over every history, whatever is called and whatever others send: the broker's reactor has
      ended, or its queue holds what will end it, if and only if some action of the history sent
      what the broker cannot read. */
  lemma {:induction false} BrokerEndsExactly(env: B.Env, me: B.Rid, history: seq<Action>)
    requires AllBounded(env, history)
    ensures Steady(Play(env, me, ASLEEP, history))
    ensures Doomed(Play(env, me, ASLEEP, history))
            <==> exists i :: 0 <= i < |history| && Breaks(env, me, Play(env, me, ASLEEP, history[..i]), history[i])
  {
    hide Steady, Doomed, Breaks, Bounded, Play, Next;
    if history == [] {
      SteadyAsleep(env, me);
    } else {
      var n := |history| - 1;
      var before := history[..n];
      BrokerEndsExactly(env, me, before);
      assert history == before + [history[n]];
      PlayConcat(env, me, ASLEEP, before, [history[n]]);
      PlayOne(env, me, Play(env, me, ASLEEP, before), history[n]);
      NextDooms(env, me, Play(env, me, ASLEEP, before), history[n]);
      forall i | 0 <= i < n
        ensures history[..i] == before[..i]
      {
      }
      assert forall i :: 0 <= i < n ==> before[i] == history[i];
    }
  }

  lemma SteadyAsleep(env: B.Env, me: B.Rid)
    ensures Play(env, me, ASLEEP, []) == ASLEEP && Steady(ASLEEP) && !Doomed(ASLEEP)
  {
    EmptyInv();
  }

  /** The broker reads n times. */
  function Readings(n: nat): seq<Action> {
    seq(n, _ => ServerReads)
  }

  /** And it does end when it has read its queue. */
  lemma {:induction false} DoomComes(env: B.Env, me: B.Rid, w: System)
    requires Steady(w)
    ensures Play(env, me, w, Readings(|w.toServer|)).down <==> Doomed(w)
    decreases |w.toServer|
  {
    hide Steady, Next;
    if w.down {
      DownStays(env, me, w, |w.toServer|);
    } else if w.toServer != [] {
      var n := |w.toServer|;
      BrokerReads(env, me, w);
      assert Readings(n)[1..] == Readings(n - 1);
      DoomComes(env, me, Next(env, me, w, ServerReads));
    }
  }

  lemma {:induction false} DownStays(env: B.Env, me: B.Rid, w: System, n: nat)
    requires w.down
    ensures Play(env, me, w, Readings(n)) == w
  {
    if n > 0 {
      assert Readings(n)[1..] == Readings(n - 1);
      DownStays(env, me, w, n - 1);
    }
  }

  lemma FittingIsBounded(env: B.Env, a: Action)
    requires ActionFits(env, a)
    ensures Bounded(env, a) && forall me, w :: !Breaks(env, me, w, a)
  {
    hide Decode, Format;
  }

  /** After every run whose texts fit, a connected client's next request ends the broker's reactor,
      once it has read its queue, if and only if the text of that request does not fit. */
  lemma RequestEndsBrokerExactly(env: B.Env, me: B.Rid, history: seq<Action>, call: C.Call)
    requires Fitting(env, history) && Bounded(env, Calls(call)) && (call.SubscribeTo? || call.PublishTo?)
    requires C.AsTalk(Play(env, me, ASLEEP, history).client) == C.Talking(C.Connected)
    ensures var w := Next(env, me, Play(env, me, ASLEEP, history), Calls(call));
      var text := if call.SubscribeTo? then call.expression else call.address;
      Play(env, me, w, Readings(|w.toServer|)).down <==> !TextFits(env.unspecified, text)
  {
    hide Steady, Doomed, Play, Next, Bounded, ActionFits, TextFits;
    forall i | 0 <= i < |history|
      ensures Bounded(env, history[i]) && forall me, w :: !Breaks(env, me, w, history[i])
    {
      FittingIsBounded(env, history[i]);
    }
    BrokerEndsExactly(env, me, history);
    NextDooms(env, me, Play(env, me, ASLEEP, history), Calls(call));
    DoomComes(env, me, Next(env, me, Play(env, me, ASLEEP, history), Calls(call)));
  }

  /** For example, a client that connects and subscribes ends the broker's reactor exactly when its
      text does not fit, and is then left waiting. */
  lemma SubscribingEndsBrokerExactly(env: B.Env, me: B.Rid, e: CString)
    requires |Format(env.unspecified, e)| < CLAIM
    ensures var w := Play(env, me, ASLEEP, Subscribing(e));
      && (w.down <==> !TextFits(env.unspecified, e))
      && (w.down ==> me !in w.broker.sessions && w.toClient == [] && C.AsTalk(w.client) == C.Talking(C.Subscribing))
  {
    hide Decode, Encode, Format, Next, Play, C.Unsigned;
    SubscribingEnds(env, me, e);
    if !TextFits(env.unspecified, e) {
      var w := Play(env, me, ASLEEP, CONNECT);
      var asks := Next(env, me, w, Calls(C.SubscribeTo(e)));
      PlayConcat(env, me, ASLEEP, CONNECT, [Calls(C.SubscribeTo(e)), ServerReads, ClientReads]);
      PlayThree(env, me, w, Calls(C.SubscribeTo(e)), ServerReads, ClientReads);
      Connects(env, me);
      Asks(env, me, w, e);
      LongTextIsMalformed(Subscribe(Format(env.unspecified, e), map[]), Format(env.unspecified, e));
      BrokerEnds(env, me, asks);
    }
  }

  // ----- A publisher's name that does not fit -----

  /** The sender is longer than its length octet says, and so is the text that is then read as the
      address. */
  predicate Spills(t: CString) {
    |t| > 255 && var n := |t| % 256; n + 1 + t[n] < |t|
  }

  lemma LongSenderIsMalformed(t: CString, address: CString, content: seq<Frame>)
    requires Spills(t) && |t| + 1 + |address| < CLAIM
    ensures Decode(Encode(Deliver(t, address, map[], content), [])).None?
  {
    hide ReadDict, ReadString, PutDict, DecodeBody;
    var m := Deliver(t, address, map[], content);
    var after := PutString(address) + PutDict([]);
    var b := PutString(t) + after;
    SenderFrame(m);
    assert FrameOf(m, [])[3..] == b;
    TextLeft(t, after);
    NoEntriesPut();
    var n := |t| % 256;
    var x: nat := t[n];
    var second, rest := t[n..] + after, t[n + 1 + x..] + after;
    assert second[0] == x && second[1 + x..] == rest;
    RestOf(second, x);
    assert rest[0] == t[n + 1 + x] && t[n + 1 + x] in t;
    TextClaimsTooMuch(rest);
    BodyRead(DELIVER, b, content);
  }

  lemma SenderFrame(m: Msg)
    requires m.Deliver?
    ensures FrameOf(m, [])
            == [SIGNATURE, SIGNATURE, DELIVER] + (PutString(m.sender) + (PutString(m.address) + PutDict([])))
  {
    hide PutDict, PutString;
    var ss := [m.sender, m.address];
    assert ss[1..] == [m.address] && [m.address][1..] == [];
    assert PutStrings([m.address]) == PutString(m.address) + PutStrings([]);
    assert PutStrings(ss) == PutString(m.sender) + PutStrings([m.address]);
  }

  lemma OtherJoins(env: B.Env, me: B.Rid, r: B.Rid, w: System, index: seq<B.Entry>, name: CString)
    requires Joined(me, w, index) && r != me && |name| <= 255
    ensures var t := Next(env, me, w, OtherSends(r, Encode(Hello(name, map[]), [])));
      t == w.(broker := B.State(map[me := [], r := name], index))
  {
    hide Decode, Encode;
    var m := Hello(name, map[]);
    OneText(m, name);
    TravelsExactly(m);
    Overheard(me, r, HelloOk(map[]));
    assert map[me := []][r := name] == map[me := [], r := name];
    assert w.toClient + [] == w.toClient;
  }

  lemma Overheard(me: B.Rid, r: B.Rid, m: Msg)
    requires r != me
    ensures S.TraceTo([B.Packet(r, m)], me) == [] && Put([]) == []
  {
    assert [B.Packet(r, m)][..0] == [];
  }

  lemma OtherPublishes(env: B.Env, me: B.Rid, r: B.Rid, w: System, name: CString, expression: CString,
                       address: CString, content: seq<Frame>)
    requires r != me && !w.down && w.toClient == [] && env.matches(expression, address) && |address| <= 255
    requires w.broker == B.State(map[me := [], r := name], [B.Entry(expression, [me])])
    ensures var t := Next(env, me, w, OtherSends(r, Encode(Publish(address, map[], content), [])));
      t == w.(toClient := [Encode(B.Delivery(env, name, address, content), [])])
  {
    hide Decode, Encode, B.Delivery, B.Forward, B.Store, B.Drop, Put, S.TraceTo;
    var m := Publish(address, map[], content);
    OneText(m, address);
    TravelsExactly(m);
    var d := B.Delivery(env, name, address, content);
    OneForward(env, me, r, d, expression, address);
    OnePacket(me, d);
  }

  lemma OneForward(env: B.Env, me: B.Rid, r: B.Rid, d: Msg, expression: CString, address: CString)
    requires r != me && env.matches(expression, address)
    ensures B.Forward(env, r, d, address, [B.Entry(expression, [me])]) == [B.Packet(me, d)]
  {
    assert [B.Entry(expression, [me])][..0] == [] && [me][..0] == [];
    assert B.DeliverAll(r, d, [me]) == [B.Packet(me, d)];
  }

  /** When printf makes a publisher's name so long that it spills over what is read as the address,
      as "%256d" does when it pads a number with spaces, the subscriber cannot read what it is sent,
      and its reactor ends. */
  lemma WideNameEndsClient(env: B.Env, me: B.Rid, r: B.Rid, expression: CString, name: CString, address: CString,
                           content: seq<Frame>)
    requires r != me && |name| <= 255 && |address| <= 255 && TextFits(env.unspecified, expression)
    requires env.matches(Format(env.unspecified, expression), address)
    requires Spills(Format(env.unspecified, name))
    requires |Format(env.unspecified, name)| + 1 + |Format(env.unspecified, address)| < CLAIM
    ensures var w := Play(env, me, ASLEEP, Subscribing(expression) + [
        OtherSends(r, Encode(Hello(name, map[]), [])),
        OtherSends(r, Encode(Publish(address, map[], content), [])),
        ClientReads]);
      !w.down && w.client.terminated
  {
    hide Decode, Encode, Next, Play, C.Unsigned, Format, Spills;
    var u := env.unspecified;
    var hello, publish := Encode(Hello(name, map[]), []), Encode(Publish(address, map[], content), []);
    var w := Play(env, me, ASLEEP, Subscribing(expression));
    PlayConcat(env, me, ASLEEP, Subscribing(expression), [OtherSends(r, hello), OtherSends(r, publish), ClientReads]);
    PlayThree(env, me, w, OtherSends(r, hello), OtherSends(r, publish), ClientReads);
    SubscribingEnds(env, me, expression);
    OtherJoins(env, me, r, w, [B.Entry(Format(u, expression), [me])], name);
    var joined := Next(env, me, w, OtherSends(r, hello));
    OtherPublishes(env, me, r, joined, name, Format(u, expression), address, content);
    LongSenderIsMalformed(Format(u, name), Format(u, address), content);
    ClientEnds(env, me, Next(env, me, joined, OtherSends(r, publish)));
  }

  lemma ClientEnds(env: B.Env, me: B.Rid, w: System)
    requires w.toClient != [] && !w.client.Stopped() && Decode(w.toClient[0]).None?
    ensures var t := Next(env, me, w, ClientReads); t.client.terminated && t.down == w.down
  {
    hide Decode;
  }
}
