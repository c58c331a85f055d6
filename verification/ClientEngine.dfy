/** The client's engine over its own data: the state machine loops while it has events, an
    action may raise an exception that becomes the next event, and each message sent is
    replaced by a new one. */
module ClientEngine {
  import opened Basics
  import opened Messages
  import opened Client

  datatype Event =
    | NullEvent
    | ConnectEvent
    | HelloOkEvent
    | SubscribeEvent
    | PublishEvent
    | DirectEvent
    | DeliverEvent
    | PingEvent
    | ErrorEvent
    | SubscribeOkEvent
    | GoodbyeOkEvent
    | InvalidEvent

  /** What an event amounts to in the state machine. */
  function OnEvent(st: State, e: Event, reachable: bool, msgin: Option<Msg>): Effect {
    if e == NullEvent then Silent(st)
    else if st.phase == Start then
      if e == ConnectEvent && reachable then Send(st, HELLO, Connecting) else Abort(st)
    else match e
      case ConnectEvent => Silent(st)
      case SubscribeEvent => if st.phase == Connected then Send(st, SUBSCRIBE, Subscribing) else Silent(st)
      case PublishEvent => if st.phase == Connected then Send(st, PUBLISH, Connected) else Silent(st)
      case DirectEvent => OnMessage(st, Direct([], map[], []))
      case HelloOkEvent => OnMessage(st, HelloOk(map[]))
      case DeliverEvent => if msgin.Some? then OnMessage(st, msgin.value) else Silent(st)
      case PingEvent => OnMessage(st, Ping)
      case SubscribeOkEvent => OnMessage(st, SubscribeOk)
      case GoodbyeOkEvent => OnMessage(st, GoodbyeOk(map[]))
      case InvalidEvent => OnMessage(st, Invalid)
      case ErrorEvent => Silent(st)
  }

  lemma NothingDue(st: State, e: Event, reachable: bool, msgin: Option<Msg>)
    ensures e == NullEvent ==> OnEvent(st, e, reachable, msgin) == Silent(st)
    ensures st.phase == Start && e == ConnectEvent && !reachable ==> OnEvent(st, e, reachable, msgin) == Abort(st)
    ensures st.phase == Start && e == ErrorEvent ==> OnEvent(st, e, reachable, msgin) == Abort(st)
  {
  }

  lemma WhenConnected(st: State, e: Event, reachable: bool, msgin: Option<Msg>)
    requires st.phase == Connected && (e == DeliverEvent ==> msgin.Some? && msgin.value.Deliver?)
    ensures OnEvent(st, e, reachable, msgin)
            == (if e == SubscribeEvent then Send(st, SUBSCRIBE, Subscribing)
                else if e == PublishEvent then Send(st, PUBLISH, Connected)
                else if e == DirectEvent then Send(st, DIRECT, Connected)
                else if e == DeliverEvent then
                  Signal(st, Message(msgin.value.sender, msgin.value.address, Popstr(msgin.value.content)), Connected)
                else if e == PingEvent then Send(st, PING_OK, Connected)
                else if e == InvalidEvent then Send(st, HELLO, Reconnecting)
                else Silent(st))
  {
    hide ToMsg, Popstr;
  }

  lemma WhenWaiting(st: State, e: Event, reachable: bool, msgin: Option<Msg>)
    requires st.phase != Start && st.phase != Connected
    requires e == DeliverEvent ==> msgin.Some? && msgin.value.Deliver?
    ensures OnEvent(st, e, reachable, msgin)
            == (if e == InvalidEvent then Send(st, HELLO, Reconnecting)
                else if e == HelloOkEvent && st.phase == Connecting then Signal(st, Success, Connected)
                else if e == SubscribeOkEvent && st.phase == Subscribing then Signal(st, Success, Connected)
                else if e == HelloOkEvent && st.phase == Reconnecting then Silent(st.(phase := Connected))
                else Silent(st))
  {
    hide ToMsg, Popstr;
  }

  function EventOf(m: Msg): Event {
    match m
    case HelloOk(_) => HelloOkEvent
    case Subscribe(_, _) => SubscribeEvent
    case SubscribeOk => SubscribeOkEvent
    case Publish(_, _, _) => PublishEvent
    case Direct(_, _, _) => DirectEvent
    case Deliver(_, _, _, _) => DeliverEvent
    case GoodbyeOk(_) => GoodbyeOkEvent
    case Ping => PingEvent
    case Invalid => InvalidEvent
    case _ => NullEvent
  }

  /** Reading a message is its event, with the content of the message only where it is delivered. */
  lemma MessageIsEvent(st: State, m: Msg, reachable: bool)
    requires !(m.Hello? || m.Goodbye? || m.PingOk?)
    ensures OnMessage(st, m) == OnEvent(st, EventOf(m), reachable, Some(m))
  {
  }

  class Engine {
    const unspecified: CString -> CString
    var msgout: Draft
    var msgin: Option<Msg>
    /** Whether the socket can be connected to the endpoint that was given last. */
    var reachable: bool
    var terminated: bool
    var aborted: bool
    var state: Phase
    var event: Event
    var nextEvent: Event
    var exception: Event
    /** Everything sent to the server, and everything written to the pipe. */
    var sent: seq<Msg>
    var replies: seq<Reply>

    ghost function View(): State
      reads this
    {
      State(state, msgout, terminated, aborted)
    }

    /** The engine has had this effect since it was in an old state. */
    twostate predicate Had(e: Effect)
      reads this
    {
      View() == e.state && sent == old(sent) + e.out && replies == old(replies) + e.replies
    }

    constructor (unspecified: CString -> CString)
      ensures View() == INITIAL && sent == [] && replies == [] && this.unspecified == unspecified
    {
      this.unspecified := unspecified;
      msgout, msgin, reachable, terminated, aborted := NewDraft(0), None, false, false, false;
      state, event, nextEvent, exception := Start, NullEvent, NullEvent, NullEvent;
      sent, replies := [], [];
    }

    // ----- Actions -----

    method SendId(id: int)
      requires HELLO <= id <= INVALID
      modifies `msgout, `sent
      ensures msgout == NewDraft(0) && sent == old(sent) + [ToMsg(old(msgout).(id := id))]
    {
      msgout := msgout.(id := id);
      sent := sent + [ToMsg(msgout)];
      msgout := NewDraft(0);
    }

    method ConnectToServerEndpoint()
      modifies `exception
      ensures exception == if reachable then old(exception) else ErrorEvent
    {
      if !reachable {
        exception := ErrorEvent;
      }
    }

    method SignalSuccess()
      modifies `replies
      ensures replies == old(replies) + [Success]
    {
      replies := replies + [Success];
    }

    method DeliverMessageToApplication()
      requires msgin.Some? && msgin.value.Deliver?
      modifies `replies
      ensures var m := msgin.value;
        replies == old(replies) + [Message(m.sender, m.address, Popstr(m.content))]
      ensures var m := msgin.value;
        m.content != [] ==>
          exists c :: Shows(m.content[0], c) && replies == old(replies) + [Message(m.sender, m.address, Some(c))]
    {
      var m := msgin.value;
      if m.content != [] {
        CStrExactly(m.content[0], CStr(m.content[0]));
      }
      var content := Popstr(m.content);
      replies := replies + [Message(m.sender, m.address, content)];
    }

    // ----- The state machine -----

    method Reconnect()
      modifies `msgout, `sent, `state
      ensures msgout == NewDraft(0) && sent == old(sent) + [ToMsg(old(msgout).(id := HELLO))]
      ensures state == Reconnecting
    {
      SendId(HELLO);
      state := Reconnecting;
    }

    method StartEvents()
      requires state == Start && exception == NullEvent && !terminated && !aborted
      modifies `msgout, `sent, `state, `exception, `aborted
      ensures event == ConnectEvent && reachable ==>
        exception == NullEvent && Had(Send(old(View()), HELLO, Connecting))
      ensures event == ConnectEvent && !reachable ==> exception == ErrorEvent && Had(Silent(old(View())))
      ensures event != ConnectEvent ==> exception == NullEvent && Had(Abort(old(View())))
    {
      if event == ConnectEvent {
        if exception == NullEvent {
          ConnectToServerEndpoint();
        }
        if exception == NullEvent {
          SendId(HELLO);
        }
        if exception == NullEvent {
          state := Connecting;
        }
      } else {
        aborted := true;
      }
    }

    method ConnectedEvents()
      requires state == Connected && event != ErrorEvent && event != NullEvent
      requires event == DeliverEvent ==> msgin.Some? && msgin.value.Deliver?
      modifies `msgout, `sent, `state, `replies
      ensures Had(OnEvent(old(View()), event, reachable, msgin))
    {
      hide ToMsg, Popstr, OnEvent;
      WhenConnected(View(), event, reachable, msgin);
      if event == SubscribeEvent {
        SendId(SUBSCRIBE);
        state := Subscribing;
      } else if event == PublishEvent {
        SendId(PUBLISH);
      } else if event == DirectEvent {
        SendId(DIRECT);
      } else if event == DeliverEvent {
        DeliverMessageToApplication();
      } else if event == PingEvent {
        SendId(PING_OK);
      } else if event == InvalidEvent {
        Reconnect();
      }
    }

    method OtherEvents()
      requires state != Start && state != Connected && event != ErrorEvent && event != NullEvent
      requires event == DeliverEvent ==> msgin.Some? && msgin.value.Deliver?
      modifies `msgout, `sent, `state, `replies
      ensures Had(OnEvent(old(View()), event, reachable, msgin))
    {
      hide ToMsg, Popstr, OnEvent;
      WhenWaiting(View(), event, reachable, msgin);
      match state
      case Connecting =>
        if event == HelloOkEvent {
          SignalSuccess();
          state := Connected;
        } else if event == InvalidEvent {
          Reconnect();
        }
      case Subscribing =>
        if event == SubscribeOkEvent {
          SignalSuccess();
          state := Connected;
        } else if event == InvalidEvent {
          Reconnect();
        }
      case Reconnecting =>
        if event == HelloOkEvent {
          state := Connected;
        } else if event == InvalidEvent {
          Reconnect();
        }
    }

    /** One pass: takes the next event and acts on it. A failed connect changes nothing and
        raises an exception, which becomes the next event. */
    method Pass()
      requires !terminated && !aborted && nextEvent != NullEvent && (nextEvent == ErrorEvent ==> state == Start)
      requires nextEvent == DeliverEvent ==> msgin.Some? && msgin.value.Deliver?
      modifies `event, `nextEvent, `exception, `msgout, `sent, `state, `replies, `aborted
      ensures if old(state) == Start && old(nextEvent) == ConnectEvent && !reachable
              then nextEvent == ErrorEvent && Had(Silent(old(View())))
              else nextEvent == NullEvent && Had(OnEvent(old(View()), old(nextEvent), reachable, msgin))
    {
      event := nextEvent;
      nextEvent := NullEvent;
      exception := NullEvent;
      match state {
        case Start => StartEvents();
        case Connected => ConnectedEvents();
        case _ => OtherEvents();
      }
      if exception != NullEvent {
        nextEvent := exception;
      }
    }

    /** Runs the state machine as long as it has events. */
    method Execute(e: Event)
      requires e != ErrorEvent && !aborted
      requires e == DeliverEvent ==> msgin.Some? && msgin.value.Deliver?
      modifies `event, `nextEvent, `exception, `msgout, `sent, `state, `replies, `aborted
      ensures Had(if terminated then Silent(old(View())) else OnEvent(old(View()), e, reachable, msgin))
    {
      hide OnEvent;
      NothingDue(View(), e, reachable, msgin);
      nextEvent := e;
      ghost var due := true;
      while !terminated && !aborted && nextEvent != NullEvent
        invariant due ==> nextEvent == e && Had(Silent(old(View())))
        invariant !due ==> !terminated
        invariant !due && nextEvent == NullEvent ==> Had(OnEvent(old(View()), e, reachable, msgin))
        invariant !due && nextEvent != NullEvent ==>
          && nextEvent == ErrorEvent && state == Start && e == ConnectEvent && !reachable
          && Had(Silent(old(View())))
        decreases if due then 2 else if nextEvent == NullEvent then 0 else 1
      {
        NothingDue(View(), nextEvent, reachable, msgin);
        Pass();
        due := false;
      }
    }

    // ----- Callbacks of the reactor -----

    /** Takes a call's arguments and says which event it is. */
    method ClientMethod(call: Call) returns (e: Event)
      requires !call.Terminate?
      modifies `msgout, `reachable
      ensures call.Connect? ==> e == ConnectEvent && msgout == old(msgout) && reachable == call.reachable
      ensures call.SubscribeTo? ==>
        && e == SubscribeEvent
        && msgout == old(msgout).(expression := Some(Format(unspecified, call.expression)))
      ensures call.PublishTo? ==>
        && e == PublishEvent
        && msgout == old(msgout).(address := Some(Format(unspecified, call.address)), content := Some([call.content]))
    {
      match call
      case Connect(ok) =>
        reachable := ok;
        return ConnectEvent;
      case SubscribeTo(expression) =>
        msgout := msgout.(expression := Some(Format(unspecified, expression)));
        return SubscribeEvent;
      case PublishTo(address, content) =>
        msgout := msgout.(address := Some(Format(unspecified, address)));
        var msg: seq<Frame> := [];
        msg := msg + [content];
        assert msg == [content];
        msgout := msgout.(content := Some(msg));
        return PublishEvent;
    }

    method HandlePipe(call: Call)
      requires !terminated && !aborted
      modifies this
      ensures Had(Step(unspecified, old(View()), Api(call)))
    {
      if call.Terminate? {
        terminated := true;
      } else {
        var e := ClientMethod(call);
        Execute(e);
      }
    }

    method ProtocolEvent(m: Msg) returns (e: Event)
      modifies `terminated
      ensures terminated == (old(terminated) || m.Hello? || m.Goodbye? || m.PingOk?)
      ensures e == EventOf(m)
    {
      match m
      case HelloOk(_) => e := HelloOkEvent;
      case Subscribe(_, _) => e := SubscribeEvent;
      case SubscribeOk => e := SubscribeOkEvent;
      case Publish(_, _, _) => e := PublishEvent;
      case Direct(_, _, _) => e := DirectEvent;
      case Deliver(_, _, _, _) => e := DeliverEvent;
      case GoodbyeOk(_) => e := GoodbyeOkEvent;
      case Ping => e := PingEvent;
      case Invalid => e := InvalidEvent;
      case _ =>
        terminated := true;
        e := NullEvent;
    }

    method HandleProtocol(m: Msg)
      requires !terminated && !aborted
      modifies this
      ensures Had(Step(unspecified, old(View()), Server(m)))
    {
      hide OnEvent;
      msgin := Some(m);
      var e := ProtocolEvent(m);
      if !terminated {
        MessageIsEvent(View(), m, reachable);
      }
      Execute(e);
    }
  }

  /** The client actor: its reactor takes calls and messages until it ends. */
  method ZccpClient(unspecified: CString -> CString, inputs: seq<Input>)
    returns (sent: seq<Msg>, replies: seq<Reply>, final: State)
    ensures Effect(final, sent, replies) == Run(unspecified, inputs)
    ensures NoEcho(unspecified, inputs) ==> Turn(AsTalk(final), sent, replies) == TalkRun(unspecified, inputs)
    ensures forall m :: m in sent && m.Hello? ==> m == GREETING
  {
    hide Step, TalkRun;
    var client := new Engine(unspecified);
    var i := 0;
    while i < |inputs| && !client.terminated && !client.aborted
      invariant 0 <= i <= |inputs| && client.unspecified == unspecified
      invariant Effect(client.View(), client.sent, client.replies) == Run(unspecified, inputs[..i])
      decreases |inputs| - i
    {
      RunNext(unspecified, inputs, i);
      match inputs[i] {
        case Api(call) => client.HandlePipe(call);
        case Server(m) => client.HandleProtocol(m);
      }
      i := i + 1;
    }
    if i < |inputs| {
      StoppedStays(unspecified, inputs, i);
    } else {
      assert inputs[..i] == inputs;
    }
    sent, replies := client.sent, client.replies;
    final := State(client.state, client.msgout, client.terminated, client.aborted);
    HellosArePlain(unspecified, inputs);
    if NoEcho(unspecified, inputs) {
      NoStaleFields(unspecified, inputs);
    }
  }
}
