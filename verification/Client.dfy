/** The client as a machine on values: its state, and the outgoing message that API calls fill
    in before the state machine decides whether to send it. The engine in ClientEngine is
    proved to compute exactly these steps. */
module Client {
  import opened Basics
  import opened Messages

  datatype Phase = Start | Connecting | Connected | Subscribing | Reconnecting

  /** terminated: the reactor was told to end. aborted: an assertion stopped the program. */
  datatype State = State(phase: Phase, msgout: Draft, terminated: bool, aborted: bool) {
    predicate Stopped() {
      terminated || aborted
    }
  }

  const INITIAL: State := State(Start, NewDraft(0), false, false)

  /** CONNECT carries whether the socket can be connected to the endpoint. */
  datatype Call =
    | Connect(reachable: bool)
    | SubscribeTo(expression: CString)
    | PublishTo(address: CString, content: CString)
    | Terminate

  datatype Input = Api(call: Call) | Server(msg: Msg)

  /** What the application hears on the pipe. */
  datatype Reply = Success | Message(sender: CString, address: CString, content: Option<CString>)

  datatype Effect = Effect(state: State, out: seq<Msg>, replies: seq<Reply>)

  function Silent(st: State): Effect {
    Effect(st, [], [])
  }

  /** Sends the outgoing message under an id, continues in a state with a new one. */
  function Send(st: State, id: int, next: Phase): Effect
    requires HELLO <= id <= INVALID
  {
    Effect(st.(phase := next, msgout := NewDraft(0)), [ToMsg(st.msgout.(id := id))], [])
  }

  function Signal(st: State, reply: Reply, next: Phase): Effect {
    Effect(st.(phase := next), [], [reply])
  }

  function Abort(st: State): Effect {
    Silent(st.(aborted := true))
  }

  /** The first content frame as a C string; None when there is no frame. */
  function Popstr(content: seq<Frame>): Option<CString> {
    if content == [] then None else Some(CStr(content[0]))
  }

  function OnCall(u: CString -> CString, st: State, call: Call): Effect {
    match call
    case Terminate => Silent(st.(terminated := true))
    case Connect(reachable) =>
      if st.phase != Start then Silent(st)
      else if reachable then Send(st, HELLO, Connecting)
      else Abort(st)
    case SubscribeTo(expression) =>
      var filled := st.(msgout := st.msgout.(expression := Some(Format(u, expression))));
      if st.phase == Start then Abort(filled)
      else if st.phase == Connected then Send(filled, SUBSCRIBE, Subscribing)
      else Silent(filled)
    case PublishTo(address, content) =>
      var filled := st.(msgout := st.msgout.(address := Some(Format(u, address)), content := Some([content])));
      if st.phase == Start then Abort(filled)
      else if st.phase == Connected then Send(filled, PUBLISH, Connected)
      else Silent(filled)
  }

  function OnMessage(st: State, m: Msg): Effect {
    if m.Hello? || m.Goodbye? || m.PingOk? then Silent(st.(terminated := true))
    else match st.phase
      case Start => Abort(st)
      case Connecting =>
        if m.HelloOk? then Signal(st, Success, Connected)
        else if m.Invalid? then Send(st, HELLO, Reconnecting)
        else Silent(st)
      case Connected =>
        if m.Subscribe? then Send(st, SUBSCRIBE, Subscribing)
        else if m.Publish? then Send(st, PUBLISH, Connected)
        else if m.Direct? then Send(st, DIRECT, Connected)
        else if m.Deliver? then Signal(st, Message(m.sender, m.address, Popstr(m.content)), Connected)
        else if m.Ping? then Send(st, PING_OK, Connected)
        else if m.Invalid? then Send(st, HELLO, Reconnecting)
        else Silent(st)
      case Subscribing =>
        if m.SubscribeOk? then Signal(st, Success, Connected)
        else if m.Invalid? then Send(st, HELLO, Reconnecting)
        else Silent(st)
      case Reconnecting =>
        if m.HelloOk? then Silent(st.(phase := Connected))
        else if m.Invalid? then Send(st, HELLO, Reconnecting)
        else Silent(st)
  }

  /** A client that stopped reads no more input. */
  function Step(u: CString -> CString, st: State, input: Input): Effect {
    if st.Stopped() then Silent(st)
    else match input
      case Api(call) => OnCall(u, st, call)
      case Server(m) => OnMessage(st, m)
  }

  function Run(u: CString -> CString, inputs: seq<Input>): Effect {
    if inputs == [] then Silent(INITIAL)
    else
      var before := Run(u, inputs[..|inputs| - 1]);
      var last := Step(u, before.state, inputs[|inputs| - 1]);
      Effect(last.state, before.out + last.out, before.replies + last.replies)
  }

  lemma RunNext(u: CString -> CString, inputs: seq<Input>, i: nat)
    requires i < |inputs|
    ensures var before := Run(u, inputs[..i]);
      var last := Step(u, before.state, inputs[i]);
      Run(u, inputs[..i + 1]) == Effect(last.state, before.out + last.out, before.replies + last.replies)
  {
    assert inputs[..i + 1][..i] == inputs[..i];
  }

  lemma {:induction false} StoppedStays(u: CString -> CString, inputs: seq<Input>, i: nat)
    requires i <= |inputs| && Run(u, inputs[..i]).state.Stopped()
    ensures Run(u, inputs) == Run(u, inputs[..i])
    decreases |inputs| - i
  {
    if i < |inputs| {
      RunNext(u, inputs, i);
      StoppedStays(u, inputs, i + 1);
    } else {
      assert inputs[..i] == inputs;
    }
  }

  // ----- No stale fields -----

  /** The client without its outgoing message: what it says depends on its state and on the
      call or message at hand, and on nothing that was filled in before. */
  datatype Talk = Talking(phase: Phase) | Halted | Crashed

  datatype Turn = Turn(talk: Talk, out: seq<Msg>, replies: seq<Reply>)

  const GREETING: Msg := Hello([], map[])

  function CallTurn(u: CString -> CString, phase: Phase, call: Call): Turn {
    if call.Terminate? then Turn(Halted, [], [])
    else if phase == Start then
      if call == Connect(true) then Turn(Talking(Connecting), [GREETING], []) else Turn(Crashed, [], [])
    else if phase == Connected && call.SubscribeTo? then
      Turn(Talking(Subscribing), [Subscribe(Format(u, call.expression), map[])], [])
    else if phase == Connected && call.PublishTo? then
      Turn(Talking(Connected), [Publish(Format(u, call.address), map[], [call.content])], [])
    else Turn(Talking(phase), [], [])
  }

  function MessageTurn(phase: Phase, m: Msg): Turn {
    if m.Hello? || m.Goodbye? || m.PingOk? then Turn(Halted, [], [])
    else if phase == Start then Turn(Crashed, [], [])
    else if m.Invalid? then Turn(Talking(Reconnecting), [GREETING], [])
    else if m.HelloOk? && (phase == Connecting || phase == Reconnecting) then
      Turn(Talking(Connected), [], if phase == Connecting then [Success] else [])
    else if m.SubscribeOk? && phase == Subscribing then Turn(Talking(Connected), [], [Success])
    else if m.Deliver? && phase == Connected then
      Turn(Talking(Connected), [], [Message(m.sender, m.address, Popstr(m.content))])
    else if m.Ping? && phase == Connected then Turn(Talking(Connected), [PingOk], [])
    else Turn(Talking(phase), [], [])
  }

  function TalkTurn(u: CString -> CString, talk: Talk, input: Input): Turn {
    if !talk.Talking? then Turn(talk, [], [])
    else match input
      case Api(call) => CallTurn(u, talk.phase, call)
      case Server(m) => MessageTurn(talk.phase, m)
  }

  function TalkRun(u: CString -> CString, inputs: seq<Input>): Turn {
    if inputs == [] then Turn(Talking(Start), [], [])
    else
      var before := TalkRun(u, inputs[..|inputs| - 1]);
      var last := TalkTurn(u, before.talk, inputs[|inputs| - 1]);
      Turn(last.talk, before.out + last.out, before.replies + last.replies)
  }

  /** No call and no message ever fills in an identifier or headers. */
  predicate Unsigned(st: State) {
    st.msgout.identifier == None && st.msgout.headers == None
  }

  function AsTalk(st: State): Talk {
    if st.aborted then Crashed else if st.terminated then Halted else Talking(st.phase)
  }

  /** A connected client reads a request, which it sends back; no broker sends one. */
  predicate Echo(st: State, input: Input) {
    && !st.Stopped() && st.phase == Connected
    && input.Server? && (input.msg.Subscribe? || input.msg.Publish? || input.msg.Direct?)
  }

  lemma CallSaysTurn(u: CString -> CString, st: State, call: Call)
    requires Unsigned(st) && !st.Stopped()
    ensures var e := OnCall(u, st, call);
      && Unsigned(e.state)
      && (forall m :: m in e.out && m.Hello? ==> m == GREETING)
      && Turn(AsTalk(e.state), e.out, e.replies) == CallTurn(u, st.phase, call)
  {
    hide Format;
    match call {
      case Terminate =>
      case Connect(_) =>
      case SubscribeTo(_) =>
      case PublishTo(_, _) =>
    }
  }

  lemma MessageSaysTurn(st: State, m: Msg)
    requires Unsigned(st) && !st.Stopped()
    ensures var e := OnMessage(st, m);
      && Unsigned(e.state)
      && (forall sent :: sent in e.out && sent.Hello? ==> sent == GREETING)
      && (!Echo(st, Server(m)) ==> Turn(AsTalk(e.state), e.out, e.replies) == MessageTurn(st.phase, m))
  {
    match st.phase {
      case Start =>
      case Connecting =>
      case Connected =>
      case Subscribing =>
      case Reconnecting =>
    }
  }

  lemma {:induction false} StepSaysTurn(u: CString -> CString, st: State, input: Input)
    requires Unsigned(st)
    ensures Unsigned(Step(u, st, input).state)
    ensures forall m :: m in Step(u, st, input).out && m.Hello? ==> m == GREETING
    ensures !Echo(st, input) ==>
      var e := Step(u, st, input);
      Turn(AsTalk(e.state), e.out, e.replies) == TalkTurn(u, AsTalk(st), input)
  {
    if !st.Stopped() {
      hide OnCall, OnMessage, CallTurn, MessageTurn, Unsigned;
      match input
      case Api(call) => CallSaysTurn(u, st, call);
      case Server(m) => MessageSaysTurn(st, m);
    }
  }

  /** No request is read while the client is connected. */
  predicate NoEcho(u: CString -> CString, inputs: seq<Input>) {
    forall i :: 0 <= i < |inputs| ==> !Echo(Run(u, inputs[..i]).state, inputs[i])
  }

  lemma NoEchoBefore(u: CString -> CString, inputs: seq<Input>)
    requires inputs != [] && NoEcho(u, inputs)
    ensures var n := |inputs| - 1; NoEcho(u, inputs[..n]) && !Echo(Run(u, inputs[..n]).state, inputs[n])
  {
    var n := |inputs| - 1;
    forall i | 0 <= i < n
      ensures !Echo(Run(u, inputs[..n][..i]).state, inputs[..n][i])
    {
      assert inputs[..n][..i] == inputs[..i];
    }
  }

  /** As long as no request is echoed, whatever else the server sends and however its messages
      interleave with API calls, the client says exactly what the machine without an outgoing
      message says. */
  lemma {:induction false} NoStaleFields(u: CString -> CString, inputs: seq<Input>)
    requires NoEcho(u, inputs)
    ensures Unsigned(Run(u, inputs).state)
    ensures var e := Run(u, inputs); Turn(AsTalk(e.state), e.out, e.replies) == TalkRun(u, inputs)
  {
    if inputs != [] {
      hide Step, TalkTurn, Unsigned, AsTalk, Echo, NoEcho;
      var n := |inputs| - 1;
      NoEchoBefore(u, inputs);
      NoStaleFields(u, inputs[..n]);
      StepSaysTurn(u, Run(u, inputs[..n]).state, inputs[n]);
    }
  }

  /** A SUBSCRIBE or PUBLISH is prompted by the API call that is its input, and carries that
      call's arguments; no call prompts a DIRECT. */
  predicate Prompted(u: CString -> CString, input: Input, m: Msg) {
    match m
    case Subscribe(_, _) =>
      input.Api? && input.call.SubscribeTo? && m == Subscribe(Format(u, input.call.expression), map[])
    case Publish(_, _, _) =>
      && input.Api? && input.call.PublishTo?
      && m == Publish(Format(u, input.call.address), map[], [input.call.content])
    case Direct(_, _, _) => false
    case _ => true
  }

  function Said(u: CString -> CString, inputs: seq<Input>, i: nat): seq<Msg>
    requires i < |inputs|
  {
    Step(u, Run(u, inputs[..i]).state, inputs[i]).out
  }

  lemma {:induction false} StepIsPrompted(u: CString -> CString, st: State, input: Input)
    requires Unsigned(st)
    ensures (forall m :: m in Step(u, st, input).out ==> Prompted(u, input, m)) <==> !Echo(st, input)
  {
    if Echo(st, input) {
      assert Step(u, st, input).out[0] in Step(u, st, input).out;
    }
  }

  /** Over every sequence of calls and messages, each request on the wire is prompted by the call
      of that step, with that call's arguments, exactly when no request was read while the client
      was connected. */
  lemma RequestsArePromptedExactly(u: CString -> CString, inputs: seq<Input>)
    ensures (forall i, m :: 0 <= i < |inputs| && m in Said(u, inputs, i) ==> Prompted(u, inputs[i], m))
            <==> NoEcho(u, inputs)
  {
    hide Step, Unsigned, Echo, Prompted;
    forall i | 0 <= i < |inputs|
      ensures (forall m :: m in Said(u, inputs, i) ==> Prompted(u, inputs[i], m))
              <==> !Echo(Run(u, inputs[..i]).state, inputs[i])
    {
      HellosArePlain(u, inputs[..i]);
      StepIsPrompted(u, Run(u, inputs[..i]).state, inputs[i]);
    }
  }

  /** Whatever the server sends, every HELLO carries an empty identifier and no headers. */
  lemma {:induction false} HellosArePlain(u: CString -> CString, inputs: seq<Input>)
    ensures Unsigned(Run(u, inputs).state)
    ensures forall m :: m in Run(u, inputs).out && m.Hello? ==> m == GREETING
  {
    if inputs != [] {
      hide Step, Unsigned;
      var n := |inputs| - 1;
      HellosArePlain(u, inputs[..n]);
      StepSaysTurn(u, Run(u, inputs[..n]).state, inputs[n]);
    }
  }

  /** A connected client that reads a DELIVER hands the application its sender, its address and the
      C string that its first content frame shows. */
  lemma ContentIsHeard(u: CString -> CString, st: State, m: Msg, c: CString)
    requires !st.Stopped() && st.phase == Connected && m.Deliver? && m.content != [] && Shows(m.content[0], c)
    ensures var e := Step(u, st, Server(m));
      && e.replies == [Message(m.sender, m.address, Some(c))]
      && e.state == st && e.out == []
  {
    CStrExactly(m.content[0], c);
  }

  /** The application is handed NULL for a content exactly when a connected client reads a DELIVER
      without content frames. */
  lemma NullContentExactly(u: CString -> CString, st: State, m: Msg)
    requires !st.Stopped()
    ensures (exists r :: r in Step(u, st, Server(m)).replies && r.Message? && r.content.None?)
            <==> st.phase == Connected && m.Deliver? && m.content == []
  {
    if st.phase == Connected && m.Deliver? {
      var r := Message(m.sender, m.address, Popstr(m.content));
      assert Step(u, st, Server(m)).replies == [r] && r in [r];
    }
  }

  /** What calls have filled in since anything was sent: the text of the last expression, and the
      text of the last address with its content. */
  datatype Leftover = Leftover(expression: Option<CString>, request: Option<(CString, CString)>)

  function Left(u: CString -> CString, inputs: seq<Input>): Leftover {
    if inputs == [] then Leftover(None, None)
    else
      var n := |inputs| - 1;
      LeftNext(u, Run(u, inputs[..n]).state, inputs[n], Left(u, inputs[..n]))
  }

  function LeftNext(u: CString -> CString, st: State, input: Input, left: Leftover): Leftover {
    if Step(u, st, input).out != [] then Leftover(None, None)
    else if st.Stopped() || !input.Api? then left
    else match input.call
      case SubscribeTo(e) => left.(expression := Some(Format(u, e)))
      case PublishTo(a, c) => left.(request := Some((Format(u, a), c)))
      case _ => left
  }

  predicate Holds(st: State, left: Leftover) {
    && st.msgout.identifier == None && st.msgout.headers == None
    && st.msgout.expression == left.expression
    && (left.request.None? ==> st.msgout.address == None && st.msgout.content == None)
    && (left.request.Some? ==>
          st.msgout.address == Some(left.request.value.0) && st.msgout.content == Some([left.request.value.1]))
  }

  lemma {:induction false} LeftStays(u: CString -> CString, inputs: seq<Input>)
    ensures Holds(Run(u, inputs).state, Left(u, inputs))
  {
    if inputs != [] {
      hide Step, Holds, LeftNext;
      var n := |inputs| - 1;
      LeftStays(u, inputs[..n]);
      StepHolds(u, Run(u, inputs[..n]).state, inputs[n], Left(u, inputs[..n]));
    }
  }

  lemma StepHolds(u: CString -> CString, st: State, input: Input, left: Leftover)
    requires Holds(st, left)
    ensures Holds(Step(u, st, input).state, LeftNext(u, st, input, left))
  {
    hide Format, ToMsg, Popstr;
    if !st.Stopped() {
      match input {
        case Api(call) =>
          match call {
            case Terminate =>
            case Connect(_) =>
            case SubscribeTo(_) =>
            case PublishTo(_, _) =>
          }
        case Server(m) =>
          match st.phase {
            case Start =>
            case Connecting =>
            case Connected =>
            case Subscribing =>
            case Reconnecting =>
          }
      }
    }
  }

  /** A request that a server sends is sent back with exactly what calls have filled in since
      anything was sent, whatever the request itself carries; what is missing is empty. */
  lemma EchoExactly(u: CString -> CString, inputs: seq<Input>, m: Msg)
    requires Echo(Run(u, inputs).state, Server(m))
    ensures var left, out := Left(u, inputs), Step(u, Run(u, inputs).state, Server(m)).out;
      var address := if left.request.None? then [] else left.request.value.0;
      var content := if left.request.None? then [] else left.request.value.1;
      && (m.Subscribe? ==> out == [Subscribe(if left.expression.None? then [] else left.expression.value, map[])])
      && (m.Publish? ==> out == [Publish(address, map[], [content])])
      && (m.Direct? ==> out == [Direct(address, map[], [content])])
  {
    hide Run, Left;
    LeftStays(u, inputs);
  }

  /** A server that sends its client a SUBSCRIBE, as no broker does, gets back the expression of
      a call that was discarded while the client was connecting. */
  lemma EchoIsStale(u: CString -> CString, e: CString)
    requires PERCENT !in e
    ensures Run(u, [Api(Connect(true)), Api(SubscribeTo(e)), Server(HelloOk(map[])), Server(Subscribe([], map[]))]).out
            == [GREETING, Subscribe(e, map[])]
  {
    PlainText(e);
    var inputs := [Api(Connect(true)), Api(SubscribeTo(e)), Server(HelloOk(map[])), Server(Subscribe([], map[]))];
    assert inputs[..0] == [];
    RunNext(u, inputs, 0);
    RunNext(u, inputs, 1);
    RunNext(u, inputs, 2);
    RunNext(u, inputs, 3);
    assert inputs[..4] == inputs;
    hide Run, Format;
    var start, filled := NewDraft(0), NewDraft(0).(expression := Some(e));
    assert Run(u, inputs[..1]) == Effect(State(Connecting, start, false, false), [GREETING], []);
    assert Run(u, inputs[..2]) == Effect(State(Connecting, filled, false, false), [GREETING], []);
    assert Run(u, inputs[..3]) == Effect(State(Connected, filled, false, false), [GREETING], [Success]);
  }
}
