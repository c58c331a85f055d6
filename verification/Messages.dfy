/** The twelve protocol messages, as values and as the C structure they are built in. */
module Messages {
  import opened Basics

  type Dict = map<CString, CString>

  /** A message as it reads after it was decoded. */
  datatype Msg =
    | Hello(identifier: CString, headers: Dict)
    | HelloOk(headers: Dict)
    | Subscribe(expression: CString, headers: Dict)
    | SubscribeOk
    | Publish(address: CString, headers: Dict, content: seq<Frame>)
    | Direct(address: CString, headers: Dict, content: seq<Frame>)
    | Deliver(sender: CString, address: CString, headers: Dict, content: seq<Frame>)
    | Goodbye
    | GoodbyeOk(headers: Dict)
    | Ping
    | PingOk
    | Invalid

  const HELLO: int := 1
  const HELLO_OK: int := 2
  const SUBSCRIBE: int := 3
  const SUBSCRIBE_OK: int := 4
  const PUBLISH: int := 5
  const DIRECT: int := 6
  const DELIVER: int := 7
  const GOODBYE: int := 8
  const GOODBYE_OK: int := 9
  const PING: int := 10
  const PING_OK: int := 11
  const INVALID: int := 12

  function Id(m: Msg): (id: byte)
  {
    match m
    case Hello(_, _) => HELLO
    case HelloOk(_) => HELLO_OK
    case Subscribe(_, _) => SUBSCRIBE
    case SubscribeOk => SUBSCRIBE_OK
    case Publish(_, _, _) => PUBLISH
    case Direct(_, _, _) => DIRECT
    case Deliver(_, _, _, _) => DELIVER
    case Goodbye => GOODBYE
    case GoodbyeOk(_) => GOODBYE_OK
    case Ping => PING
    case PingOk => PING_OK
    case Invalid => INVALID
  }

  /** The fields of zccp_msg_t; None is a NULL pointer. */
  datatype Draft = Draft(id: int,
                         identifier: Option<CString>,
                         headers: Option<Dict>,
                         expression: Option<CString>,
                         address: Option<CString>,
                         content: Option<seq<Frame>>,
                         sender: Option<CString>)

  /** zccp_msg_new: every pointer is NULL. */
  function NewDraft(id: int): Draft {
    Draft(id, None, None, None, None, None, None)
  }

  function Text(s: Option<CString>): CString {
    if s.Some? then s.value else []
  }

  function Pairs(d: Option<Dict>): Dict {
    if d.Some? then d.value else map[]
  }

  /** NULL content travels as one empty frame. */
  function Frames(c: Option<seq<Frame>>): seq<Frame> {
    if c.Some? then c.value else [[]]
  }

  /** The message that the fields selected by the id amount to. The encoder stops the program
      on any other id. */
  function ToMsg(d: Draft): Msg
    requires HELLO <= d.id <= INVALID
  {
    if d.id == HELLO then Hello(Text(d.identifier), Pairs(d.headers))
    else if d.id == HELLO_OK then HelloOk(Pairs(d.headers))
    else if d.id == SUBSCRIBE then Subscribe(Text(d.expression), Pairs(d.headers))
    else if d.id == SUBSCRIBE_OK then SubscribeOk
    else if d.id == PUBLISH then Publish(Text(d.address), Pairs(d.headers), Frames(d.content))
    else if d.id == DIRECT then Direct(Text(d.address), Pairs(d.headers), Frames(d.content))
    else if d.id == DELIVER then Deliver(Text(d.sender), Text(d.address), Pairs(d.headers), Frames(d.content))
    else if d.id == GOODBYE then Goodbye
    else if d.id == GOODBYE_OK then GoodbyeOk(Pairs(d.headers))
    else if d.id == PING then Ping
    else if d.id == PING_OK then PingOk
    else Invalid
  }
}
