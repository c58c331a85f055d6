# A verified model of the ZCCP broker, client and codec

ZCCP is the command and control protocol of zbroker: clients say HELLO to a broker, subscribe to
regular expressions, and publish messages under addresses; the broker forwards each message to
the other clients whose expressions match. This project models three programs and the queues
between them, and proves what their authors rely on.

* **The broker** (`zccp_server.c`, `zccp_server_engine.inc`). `ServerEngine.dfy` is the reactor
  over its own data: session blocks reached through pointers from a hash table, from timers and
  from pattern lists, with a state machine that publishing re-enters while two list cursors are
  in mid-iteration. Every dereference of a session carries the obligation that its block has not
  been freed. The reactor is proved to compute the steps of `Broker.dfy`, a machine on values
  (sessions and an ordered subscription index), which in turn refines `BrokerSpec.dfy`: per
  routing id a name and a set of expressions. `ServerActor.dfy` states the result for the whole
  actor, and `SessionLanguage.dfy` the shape of everything a routing id ever hears.
* **The codec** (`zccp_msg.c`, and `zccp/msg` in Go). `Codec.dfy` gives the wire format as
  functions and proves the round trip, canonicalisation and bounds. `CodecEngine.dfy` is the C
  code over byte arrays: the pass that adds up the size, the pass that writes through a moving
  needle, and the decoder that reads under a ceiling. `Grammar.dfy` writes the grammar out message
  by message, without the codec, and proves that exactly its sentences are accepted. `GoCodec.dfy`
  is the Go implementation of DELIVER, and `Interoperation.dfy` says exactly which frames the two
  read alike. `Fidelity.dfy` follows a message from the frames of a PUBLISH to those of a DELIVER.
* **The client** (`zccp_client.c`, `zccp_client_engine.inc`). `ClientEngine.dfy` is the engine
  with its event loop and exceptions, `Client.dfy` the machine it computes.
* **The whole** (`Wire.dfy`). A client and the broker are joined by two queues of frames, with API
  calls, other clients and silent expiry as environment steps; messages are encoded when they are
  sent and decoded when they are read, and a message that does not decode ends the reactor that
  reads it. The reconnect exchange settles, and it is proved exactly when the two ends then agree
  and what a signalled success means. `Composition.dfy` and `Conformance.dfy` hold these arguments
  for queues of messages; `Wire.dfy` proves that the frames on the wire are those of the messages
  as long as texts fit, and what happens to texts that do not.

`Basics.dfy`, `Messages.dfy` and `ZLists.dfy` hold strings, messages and the CZMQ list.

Two services stay uninterpreted, and every theorem holds for whatever they do: the match of a
regular expression with an address, and the text that printf makes of a conversion for which no
argument was passed. printf matters because the program passes identifiers, addresses and
expressions as the format itself; `Basics.Format` models that, and the theorems say exactly when
a text survives it.

The code and its own grammar disagree on the signature of a frame: `zccp_msg.bnf` writes the two
octets AA and A10, while the code sends and expects 0xAAA0 | 10, which is the two octets AA AA.
The model follows the code, and so does the grammar in `Grammar.dfy`.

Some expectations are false of the code, and are stated with their exact condition:

* What is encoded decodes to the same message exactly when every length fits its octets
  (`Codec.RoundTrip`); a length octet silently keeps the low bits of a longer length.
* A published text reaches subscribers unchanged exactly when it holds no '%'
  (`Fidelity.DeliveryReads`). The arguments that printf treats alike under all circumstances are
  exactly the texts with every '%' doubled, and they stand for those texts
  (`Basics.ConversionExactly`, `Basics.EscapedText`).
* Go accepts truncated frames as a DELIVER, and reads zeros, empty texts and an empty key for what
  is missing (`Interoperation.GoReadsCutSender`, `Interoperation.GoReadsMissingEntries`).
* C and Go read the same fields from a frame that C accepts as a DELIVER exactly when no sender,
  address or key holds a NUL and the last value of every key is the C string that its first value
  begins with (`Interoperation.CodecsAgreeExactly`); for frames that a C program wrote, when the
  first and the last entry of every key hold the same value (`Interoperation.CodecsAgreeOnEntries`).
* A request or a delivery is read as it was sent exactly when the texts that printf makes of its
  values fit a length octet (`Wire.RequestArrivesExactly`, `Wire.DeliveryArrivesExactly`). A
  subscription takes effect exactly when its text fits, and for the application's own argument
  exactly when that is short and has no '%' (`Wire.SubscribedExactly`,
  `Wire.ArgumentSubscribedExactly`).
* A reading ends the broker's reactor exactly when a connected client was given a text that does
  not fit, or another client sent frames that do not decode (`Wire.BrokerEndsExactly`,
  `Wire.RequestEndsBrokerExactly`): a SUBSCRIBE or PUBLISH with a text over 255 bytes and below
  80 MiB never decodes, because the text left over is read as a dictionary that claims more entries
  than the frame can hold (`Wire.LongTextIsMalformed`). A name that printf widens until it spills
  over what is read as the address ends the reactor of the subscriber (`Wire.WideNameEndsClient`).
  The other results about whole runs are about runs whose texts fit.
* The application is handed NULL for a content exactly when its connected client reads a DELIVER
  without content frames, which the broker sends exactly for a PUBLISH without any
  (`Client.NullContentExactly`, `Wire.DeliveredContentIsPublished`, `Wire.NoNullContent`).
* A settled client and its broker agree exactly when they were in touch (`Wire.SettledAgreement`);
  after a silent expiry with nothing in flight they are not (`Wire.SilentExpiryDisagrees`).
* Every request on the wire carries the arguments of the call that prompts it exactly when no
  server sends the connected client a request (`Client.RequestsArePromptedExactly`); otherwise it
  carries what calls have filled in since anything was sent (`Client.EchoExactly`), which can be
  the argument of a discarded call (`Client.EchoIsStale`).

## Model

The main results come first, then the members they rest on by module, and last the containers and
single actions.

| member | source | states |
|---|---|---|
| `ServerActor.ZccpServer` | zccp_server_engine.inc:938-959 | for every input sequence, the actor sends each routing id exactly what the specification machine sends it, which is also the concatenation of its lives |
| `BrokerSpec.RunRefines` | zccp_server_engine.inc:423-684 | over every run from the empty broker, states stay related and each routing id is sent exactly the specified messages |
| `BrokerSpec.DeliveryCount` | zccp_server.c:200-221 | a PUBLISH sends each other client exactly as many DELIVERs as it has distinct expressions that match the address, and the publisher none |
| `SessionLanguage.LivesAreSentences` | zccp_server_engine.inc:442-672 | over every run, what a routing id hears is the concatenation of its sessions' lives, each a sentence of the output language; all are over but the last, which is alive exactly when there is a session |
| `ServerEngine.Server.ClientExecute` | zccp_server_engine.inc:423-684 | executing an event has the outcome of the broker machine, destroys the session exactly when it is to end, touches no freed block, and nests at most two deep, since only a publish re-enters and only with forward events |
| `ServerEngine.Server.ForwardToSubscribers` | zccp_server.c:200-221 | publishing sends what the broker machine forwards, under the identifier of the publisher's session, and ends no session |
| `ServerEngine.Server.SessionIntegrity` | zccp_server_engine.inc:884-915 | between callbacks each session is connected, has an empty mailbox, is stored under its own key and no other, answers its own routing id, owns exactly one armed timer, and is listed at most once per pattern |
| `ServerEngine.Server.FreedIsUnreferenced` | zccp_server_engine.inc:346-373 | a freed session is referenced by no table entry, no timer and no pattern |
| `ServerEngine.Server.Destroy` | zccp_server_engine.inc:761-776 | destroying all sessions, in any order, leaves no block, no timer, an empty table, and every pattern list empty |
| `Codec.RoundTrip` | zccp_msg.c:230-803 | for every message and every order of its dictionary, decoding the encoding yields the message if and only if every length fits its octets |
| `Grammar.DecodesExactly` | zccp_msg.c:230-427 | for all frames and every message: the decoder yields the message if and only if the first frame is a sentence of the grammar, written out with literal octets for each of the twelve messages, with texts and keys of at most 255 bytes and any tail, whose texts read as the C strings they begin with, whose dictionary keeps the first value per key as read, and whose content is the other frames |
| `Grammar.EncodesSentence` | zccp_msg.c:434-803 | the encoder writes every message that fits, with any entries that amount to its headers, as the sentence of exactly these texts and entries, without a tail |
| `Codec.Canonicalisation` | zccp_msg.c:230-803 | whatever frames are accepted, encoding the result is accepted, means the same, and has a first frame that is no longer |
| `Codec.DecoderIsBounded` | zccp_msg.c:259-271 | whatever count is declared, at most one entry per five remaining bytes is completed, and the dictionary is accepted exactly when all declared entries are |
| `CodecEngine.ZccpMsg.WriteFrame` | zccp_msg.c:601-751 | the second pass fills the frame without gap or overrun: the needle ends exactly at the size the first pass found, even where a length is truncated |
| `CodecEngine.ZccpMsg.Encode` | zccp_msg.c:434-803 | the object encodes to the frames of its meaning, its dictionary visited in the table's order; the first starts with AA AA and the id, and for ids 5, 6 and 7 the others are the content frames, one empty frame if the content is NULL and none if it is empty |
| `CodecEngine.ZccpMsg.Decode` | zccp_msg.c:230-427 | frames decode to a fresh object with exactly the fields of the decoded message, and to NULL exactly when they are malformed; `DecodesExactly` says which frames those are |
| `GoCodec.GoReadsC` | zccp/msg/deliver.go:82-123 | Go reads back every DELIVER that C encodes, for every dictionary order, if and only if all lengths fit; of the content it keeps the first frame |
| `GoCodec.CReadsGo` | zccp_msg.c:362-386 | C reads back every DELIVER that Go marshals with its content frame, for every map order, if and only if no string holds a NUL and all lengths fit |
| `Interoperation.CodecsAgreeExactly` | zccp/msg/deliver.go:82-123 | every frame that C accepts as a DELIVER is a sentence of the grammar, and for each such sentence, with whatever embedded NULs, repeated keys, trailing bytes and surplus frames: Go reads the same sender, address, headers and content if and only if no sender, address or key holds a NUL and the last raw value of every key is what its first raw value reads as in C |
| `Interoperation.GoReadsSentence` | zccp/msg/deliver.go:82-123 | from every DELIVER of the grammar, NULs, repeated keys and trailing bytes included, Go reads the raw texts, the last raw value of every key and no other key, and the first content frame |
| `Interoperation.CodecsAgreeOnEntries` | zccp/msg/deliver.go:112-116 | from any entries of a DELIVER that C writes, repeated keys or not: C reads the message with the first value of each key if and only if its texts are short; Go reads the same if and only if in addition the first and the last entry of every key hold the same value |
| `Fidelity.EndToEnd` | zccp_server.c:200-239 | after any run, every packet that an accepted PUBLISH without '%' causes goes to another client and decodes to the identifier of the publisher's session, the published address, no headers and the same content frames |
| `Fidelity.DeliveryReads` | zccp_server.c:229-239 | a DELIVER decodes to identifier, address, no headers and content as published, whatever printf does, if and only if neither text holds a '%' |
| `Client.RequestsArePromptedExactly` | zccp_client.c:64-94 | over every sequence of calls and messages whatsoever: each SUBSCRIBE, PUBLISH or DIRECT on the wire is sent by the call of that very step with that call's arguments if and only if no SUBSCRIBE, PUBLISH or DIRECT was read while the client was connected |
| `Client.NoStaleFields` | zccp_client.c:64-94 | as long as no request is read while connected, whatever else the server sends, the client says exactly what a client without an outgoing message says |
| `ClientEngine.ZccpClient` | zccp_client_engine.inc:825-846 | for every input sequence the actor sends and replies what the client machine does, every HELLO is plain, and while no request is echoed it says what the machine without an outgoing message says |
| `Wire.FramesAreMessages` | zccp_server_engine.inc:884-915 | over every run in which the texts of calls and of other clients' messages fit, silent expiries included, the frames in both queues are exactly those of the messages in flight, each decodes to itself, and the broker is up; what happens in all other runs is `BrokerEndsExactly` |
| `Wire.BrokerEndsExactly` | zccp_server_engine.inc:884-915 | over every run whatsoever whose texts stay below 80 MiB: the broker's reactor has ended, or its queue holds a frame that will end it, if and only if at some step a connected client was given a text that does not fit or another client sent frames that do not decode |
| `Wire.RequestEndsBrokerExactly` | zccp_server_engine.inc:888-890 | after every run whose texts fit, the next SUBSCRIBE or PUBLISH of a connected client ends the broker's reactor, once it has read its queue, if and only if the text that printf makes of its argument does not fit |
| `Wire.ReconnectStabilises` | zccp_client_engine.inc:373-734 | over every such run, from any state where the client has started: no settling run is longer than 4 HELLO + 5 INVALID + 6 (SUBSCRIBE + PUBLISH) + HELLO_OK + SUBSCRIBE_OK + DELIVER on the wire plus 2 for a session, some run settles, and every settled state agrees under that same condition |
| `Wire.SettledAgreement` | zccp_client_engine.inc:688-734 | over every such run: wherever both queues of frames are empty the client is connected, and the broker has its session if and only if at the start of the settling it had one, or a request was queued, or an INVALID was in flight |
| `Wire.NeverRejected` | zccp_client_engine.inc:311-314 | over every run whose texts fit and in which its own session does not expire, a client is never sent INVALID, never reconnects, and no reading ends its state machine or the broker; and if every PUBLISH of others has a content frame, no reading hands the application NULL |
| `Wire.NoNullContent` | zccp_client.c:159-167 | over every run, expiries and texts that do not fit included, in which others publish only with a content frame, no message that the client reads next hands the application NULL |
| `Wire.SuccessMeansSubscribed` | zccp_client_engine.inc:549-559 | over every such run, when the client signals success for a SUBSCRIBE the broker's index holds, under that client, the text that printf made of the application's argument, which is the argument itself if it has no '%' |
| `Wire.PublishIsHeard` | zccp_client.c:159-167 | over every run whose texts fit: when another client publishes with texts without '%' and a first frame that shows the C string c, the connected subscriber that has read what was queued hears the publisher's identifier, the address and c once for each of its expressions that match, and nothing else from it |
| `Wire.SubscribedExactly` | zccp_client.c:72-78 | a connected client that subscribes is listed under the text that printf makes of its argument if and only if that text fits |
| `Wire.ArgumentSubscribedExactly` | zccp_client.c:72-78 | it is listed under the argument itself, whatever printf does with stray conversions, if and only if the argument has at most 255 bytes and no '%' |
| `Wire.EscapedSubscribedExactly` | zccp_client.c:72-78 | subscribing to a text with every '%' doubled lists the client under that text, whatever printf does, if and only if the text has at most 255 bytes |
| `Composition.ReadingDescends` | zccp_client_engine.inc:373-734 | each reading of a queue, by either end and in any state, lowers 4 HELLO + 5 INVALID + 6 (SUBSCRIBE + PUBLISH) + HELLO_OK + SUBSCRIBE_OK + DELIVER in flight, plus 2 for a session |
| `Basics.StrHexInjective` | zccp_server_engine.inc:329-329 | two routing ids that share a hash key are the same routing id |
| `Basics.FormatKeepsExactlyPlainText` | zccp_msg.c:1739-1748 | a setter keeps a value passed as its format, whatever printf does with stray conversions, if and only if the value holds no '%' |
| `Basics.EscapedText` | zccp_msg.c:1739-1748 | a setter that is given a text with every '%' doubled stores that text, whatever printf does with stray conversions |
| `Basics.ConversionExactly` | zccp_msg.c:1739-1748 | a format asks for no missing argument if and only if it is some text with every '%' doubled |
| `Basics.CStrExactly` | zccp_msg.c:155-164 | a buffer that is copied and terminated reads as a string if and only if it holds that string up to its end or to its first NUL |
| `Broker.StoreEntries` | zccp_server.c:170-193 | storing changes only the entry of the expression, adds the client there unless it is listed, and appends an entry exactly when no pattern has the expression |
| `Broker.DropKeepsInv` | zccp_server.c:143-149 | a session that ends leaves the invariant intact and is listed under no pattern |
| `Broker.StepKeepsInv` | zccp_server_engine.inc:423-684 | every message and expiry keeps patterns pairwise distinct, and each listed client connected and listed once |
| `Broker.RunKeepsInv` | zccp_server_engine.inc:423-684 | the same over every run |
| `BrokerSpec.StoredExpressions` | zccp_server.c:170-193 | in terms of who subscribed to what, a stored subscription adds one pair to the relation and changes nothing else |
| `BrokerSpec.DropRefines` | zccp_server.c:143-149 | a session that ends loses its name and expressions, and nobody else loses anything |
| `BrokerSpec.StateRefines` | zccp_server_engine.inc:423-684 | one step of the broker is one step of the specification machine, from any state that meets the invariant |
| `BrokerSpec.OutputRefines` | zccp_server_engine.inc:423-684 | in one step each routing id is sent exactly what the specification machine sends it, in order |
| `SessionLanguage.ConnectedHears` | zccp_server_engine.inc:513-610 | a connected session hears only SUBSCRIBE_OK and DELIVER while it lives; the step that ends it adds at most one message, INVALID or GOODBYE_OK |
| `SessionLanguage.StrangerHears` | zccp_server_engine.inc:443-511 | a routing id without a session hears one answer to its own message, HELLO_OK exactly when it gets a session, and nothing of what others do |
| `SessionLanguage.OneGreetingOneClosing` | zccp_server_engine.inc:442-672 | HELLO_OK occurs at most once in a life, first; INVALID and GOODBYE_OK only as the last message of a life that is over |
| `ServerEngine.Server.ClientTerminate` | zccp_server.c:143-152 | the session leaves every pattern list, and every list keeps its other clients in order |
| `ServerEngine.Server.Delete` | zccp_server_engine.inc:346-381 | deleting a session from the table frees exactly its block, disarms its timer and unlists it everywhere, which leaves all references valid |
| `ServerEngine.Server.EnlistClient` | zccp_server.c:175-184 | the client is appended to the pattern's list unless the scan finds it there |
| `ServerEngine.Server.FindPattern` | zccp_server.c:171-190 | the scan stops at the pattern with the expression, and finds none only if there is none |
| `ServerEngine.Server.StoreNewSubscription` | zccp_server.c:167-193 | the pattern lists then stand for the index with the subscription stored, and no other session data changed |
| `ServerEngine.Server.FilterMailbox` | zccp_server_engine.inc:387-418 | the oldest request leaves the mailbox and becomes the current one, with its event; an empty mailbox yields no event |
| `ServerEngine.Server.ForwardToPattern` | zccp_server.c:210-216 | with a cursor in mid-iteration, every client of the pattern but the publisher is sent one DELIVER, each list entry visited exactly once, while lists, table and the publisher's block stay as they are |
| `ServerEngine.Server.ForwardToMatches` | zccp_server.c:207-219 | the same across all patterns with a second cursor, for exactly the patterns that match |
| `ServerEngine.Server.EngineSendEvent` | zccp_server_engine.inc:182-189 | a nested forward event sends one DELIVER to that session and changes nothing but its event fields |
| `ServerEngine.Server.StartEvents` | zccp_server_engine.inc:443-511 | in the start state the event has exactly the outcome of the broker machine |
| `ServerEngine.Server.ConnectedEvents` | zccp_server_engine.inc:513-610 | in the connected state the event has exactly the outcome of the broker machine, for requests, forwards and expiry |
| `ServerEngine.Server.Accept` | zccp_server_engine.inc:892-907 | the sender's session is found or created, no other session changes, and a timer armed just now replaces its old one |
| `ServerEngine.Server.Enqueue` | zccp_server_engine.inc:909-911 | the message passes through the empty mailbox and becomes the current request |
| `ServerEngine.Server.ClientMessage` | zccp_server_engine.inc:884-915 | a received message is one step of the broker machine, in state and in messages sent, and a session that survives it has a timer armed in this very callback |
| `ServerEngine.Server.HandleTimeout` | zccp_server_engine.inc:688-694 | a timer that fires drops its session without a message |
| `ServerEngine.Server.Serve` | zccp_server_engine.inc:953-954 | any sequence of messages and timeouts is a run of the broker machine |
| `Codec.NumberSurvives` | zccp_msg.c:82-128 | four octets carry a number modulo 2^32 |
| `Codec.FourDigits` | zccp_msg.c:92-98 | a four-octet number is written with its highest octet first |
| `Grammar.HeadOctets` | zccp_msg.h:71-82 | every frame that is written, whether its texts fit or not, and every frame that is accepted starts with AA AA and the literal octet, 1 to 12, of its message |
| `Codec.EntriesRead` | zccp_msg.c:259-271 | a dictionary that is read has the declared number of entries and consumed at least the bytes that writing them takes |
| `Codec.EntriesDecoded` | zccp_msg.c:259-271 | entries that repeat a key decode to the first value of each key |
| `Codec.FitsIffDecoded` | zccp_msg.c:230-427 | the messages whose lengths fit are exactly those that some frames decode to |
| `Codec.FrameWritten` | zccp_msg.c:443-751 | the size added up is the size written, for every string length |
| `Codec.SizeOfAnyOrder` | zccp_msg.c:443-751 | the size does not depend on the order in which the dictionary is visited |
| `CodecEngine.FieldsOf` | zccp_msg.c:601-799 | the fields an id selects, with NULL strings empty, a NULL dictionary empty and NULL content one empty frame |
| `CodecEngine.DraftMeans` | zccp_msg.c:1275-1339 | a decoded structure means its message, and fields that the id does not select have no influence |
| `CodecEngine.ZccpMsg.AddDict` | zccp_msg.c:449-461 | the first dictionary loop adds up the size of all entries |
| `CodecEngine.ZccpMsg.AddSizes` | zccp_msg.c:443-600 | the first pass computes the size of the frame |
| `CodecEngine.ZccpMsg.PutString` | zccp_msg.c:147-152 | the low octet of the length and the whole string are written behind what was written before |
| `CodecEngine.ZccpMsg.PutDict` | zccp_msg.c:614-624 | the second dictionary loop writes the count and all entries in the order of the first |
| `CodecEngine.ZccpMsg.SendContent` | zccp_msg.c:758-799 | content frames are moved over in order; NULL content becomes one empty frame, and empty content nothing |
| `CodecEngine.ZccpMsg.GetString` | zccp_msg.c:155-164 | a string is read exactly when its declared octets are there, and ends at the first NUL; the needle never passes the ceiling |
| `CodecEngine.ZccpMsg.GetDict` | zccp_msg.c:257-272 | the loop yields the dictionary of the wire format or refuses it, and ends because each turn moves the needle towards the ceiling |
| `CodecEngine.ZccpMsg.GetFields` | zccp_msg.c:254-412 | fields and content are read as the id demands, in all twelve cases, or refused |
| `CodecEngine.ZccpMsg.Dup` | zccp_msg.c:1275-1339 | the copy has the fields that the id selects, and the original keeps its own |
| `CodecEngine.ZccpMsg.SendAgain` | zccp_msg.c:897-904 | a copy is sent, which encodes the same meaning up to dictionary order, and the message survives |
| `CodecEngine.ZccpMsg.Survives` | zccp_msg.c:230-803 | what an object encodes decodes to its meaning if and only if every length fits |
| `GoCodec.Buffer.PutMap` | zccp/msg/deliver.go:71-76 | each key of the map is written once, in whatever order |
| `GoCodec.Delivery.Marshal` | zccp/msg/deliver.go:39-79 | the frame holds signature, id, both strings and the whole map, in some order of its keys |
| `GoCodec.Delivery.Unmarshal` | zccp/msg/deliver.go:82-123 | an error is returned exactly for a missing frame or one that does not start with AA AA 07, and leaves the message as it was; otherwise the fields are those of the frame, no header that the message had is lost, and the content is that of the second frame or stays as it was |
| `GoCodec.GoRefusesExactly` | zccp/msg/deliver.go:83-104 | Go refuses exactly the lack of a frame, a frame of fewer than three octets, and one whose first three are not AA AA 07, whatever the message held |
| `GoCodec.ReusedMessageKeeps` | zccp/msg/deliver.go:106-120 | reading into a message that is used already is reading into a new one and adding the headers to the old ones, whose values stay for keys the frame does not name; the content stays unless a frame replaces it |
| `Interoperation.GoWritesSentence` | zccp/msg/deliver.go:39-79 | what Go marshals is a sentence of the grammar with the raw strings, NULs included, and one entry per key |
| `Interoperation.GoReadsCutSender` | zccp/msg/msg.go:271-277 | a sender that is cut short is read as zeros of the declared length, and all that would follow as empty |
| `Interoperation.GoReadsCutAddress` | zccp/msg/msg.go:271-277 | the same for the address, behind a sender that is whole |
| `Interoperation.GoReadsMissingEntries` | zccp/msg/deliver.go:110-116 | a count that declares more entries than the frame holds adds the empty key with an empty value to those that are there |
| `Interoperation.RepeatedKeyDisagrees` | zccp/msg/deliver.go:112-116 | for example, of two entries of one key C takes the first value and Go the last, so that they agree if and only if the values are equal |
| `Fidelity.IdentifiersFit` | zccp_server.c:159-163 | every identifier the broker holds after any run of decoded messages fits a length octet |
| `Client.StepSaysTurn` | zccp_client_engine.inc:322-746 | what the client says to a call or to any message that is no echoed request depends on its state and that input alone, and every HELLO is plain |
| `Client.HellosArePlain` | zccp_client_engine.inc:354-363 | whatever the server sends, every HELLO carries an empty identifier and no headers |
| `Client.NullContentExactly` | zccp_client.c:159-167 | the application is handed NULL for a content if and only if a connected client reads a DELIVER without content frames |
| `Client.ContentIsHeard` | zccp_client.c:159-167 | a connected client that reads a DELIVER hands over its sender, its address and the C string that its first content frame holds up to its end or first NUL, and neither sends anything nor changes state |
| `Client.EchoIsStale` | zccp_client_engine.inc:430-440 | a server that sends a SUBSCRIBE gets back the expression of a discarded call |
| `Client.EchoExactly` | zccp_client_engine.inc:430-461 | over every run, a SUBSCRIBE, PUBLISH or DIRECT that the connected client reads is sent back with exactly the texts that calls have filled in since anything was sent, and with empty ones where there are none, whatever the message read carries |
| `ClientEngine.Engine.ClientMethod` | zccp_client.c:64-94 | a call fills in its own fields of the outgoing message, texts as printf makes them of the argument, and raises its event; `EscapedText` and `ConversionExactly` say what printf makes |
| `ClientEngine.Engine.StartEvents` | zccp_client_engine.inc:340-371 | connect sends HELLO; a failed connect changes nothing and raises an exception; any other event stops the program |
| `ClientEngine.Engine.Execute` | zccp_client_engine.inc:322-746 | the loop ends, after at most two passes, with the effect of the event on the client machine |
| `ClientEngine.Engine.HandlePipe` | zccp_client_engine.inc:771-801 | an API call is one step of the client machine |
| `ClientEngine.Engine.HandleProtocol` | zccp_client_engine.inc:805-818 | a message from the server is one step of the client machine |
| `Composition.BrokerAnswers` | zccp_server_engine.inc:443-610 | HELLO toggles the session and is answered HELLO_OK or INVALID accordingly; requests are rejected exactly without a session |
| `Composition.BrokerForwards` | zccp_server.c:200-221 | whatever other clients do, a client hears only DELIVERs, none without a session, and keeps session and subscriptions |
| `Composition.SettlingIsBounded` | zccp_client_engine.inc:373-734 | without calls or expiry no run is longer than that potential |
| `Wire.TextFitsExactly` | zccp_msg.c:147-152 | a text passed through printf fits a length octet, whatever printf does with stray conversions, if and only if it is a text of at most 255 bytes with every '%' doubled |
| `Wire.TravelsExactly` | zccp_msg.c:230-803 | a message encoded without headers is read as it was sent if and only if all its lengths fit and it has no headers |
| `Wire.RequestArrivesExactly` | zccp_client.c:64-94 | the SUBSCRIBE or PUBLISH of a call is read as it was sent if and only if the text that printf makes of its expression or address fits |
| `Wire.DeliveryArrivesExactly` | zccp_server.c:229-239 | a DELIVER is read as it was sent if and only if the texts that printf makes of the publisher's identifier and of the address fit |
| `Wire.LongTextIsMalformed` | zccp_msg.c:147-164 | a SUBSCRIBE or PUBLISH of any text over 255 bytes and below 80 MiB encodes to a frame that does not decode |
| `Wire.DoomComes` | zccp_server_engine.inc:888-890 | reading out its queue ends the broker's reactor if and only if it had ended or a frame of the queue does not decode, whatever the broker's answers add |
| `Wire.SubscribingEndsBrokerExactly` | zccp_server_engine.inc:888-890 | for example, a client that connects and subscribes ends the broker's reactor if and only if its text does not fit, and then waits in subscribing without an answer |
| `Wire.LongSenderIsMalformed` | zccp_msg.c:147-164 | a DELIVER does not decode whose sender is so long that what is left of it is read as the address and still not used up |
| `Wire.RequestRestoresTouch` | zccp_client_engine.inc:429-450 | the next SUBSCRIBE or PUBLISH of a connected client whose text fits meets the condition, whatever expired before |
| `Wire.SilentExpiryDisagrees` | zccp_server_engine.inc:688-694 | after a silent expiry with nothing in flight a connected client has no session, and the condition fails |
| `Wire.WideNameEndsClient` | zccp_client_engine.inc:809-811 | for every expression, name, address and content: when printf makes a publisher's name spill over what is read as the address, as "%256d" does by padding with spaces, the subscriber's reactor ends |
| `Wire.DeliveredContentIsPublished` | zccp_server.c:229-239 | every DELIVER that a client is sent answers the PUBLISH of another client that is read at that step and carries its content frames, none if it has none |
| `ZLists.ZList.First` | zccp_server.c:146-146 | the cursor moves to the first item, which is returned, or to nowhere |
| `ZLists.ZList.Next` | zccp_server.c:149-149 | the cursor moves on by one item, or to nowhere after the last |
| `ZLists.ZList.Append` | zccp_server.c:184-184 | the item is added at the end and the cursor is lost |
| `ZLists.ZList.Remove` | zccp_server.c:148-148 | exactly the first equal item goes, and a cursor at or behind it steps back |
| `ServerEngine.Pattern.constructor` | zccp_server.c:84-97 | a new pattern lists just the client that asked for it |
| `ServerEngine.Server.constructor` | zccp_server_engine.inc:731-759 | a new server stands for the empty broker and has sent nothing |
| `ServerEngine.Server.Send` | zccp_server_engine.inc:460-463 | the reply goes to its routing id, and the session gets a fresh reply addressed to itself |
| `ServerEngine.Server.GetContentToPublish` | zccp_server.c:229-239 | the reply takes the sender, address and content kept by the server, and headers that are never set |
| `ServerEngine.Server.RegisterNewClient` | zccp_server.c:159-163 | the session takes the identifier of the HELLO at hand |
| `CodecEngine.ZHash.Insert` | zccp_msg.c:267-267 | the first value of a key is kept, wherever the table places an entry |
| `CodecEngine.ZHash.Dup` | zccp_msg.c:1286-1286 | a copy holds the same dictionary, perhaps in another order |
| `CodecEngine.ZccpMsg.constructor` | zccp_msg.c:190-196 | all fields of a new message are NULL |
| `CodecEngine.ZccpMsg.GetNumber4` | zccp_msg.c:121-129 | four octets are read and consumed, or the read is refused at the ceiling |
| `GoCodec.Buffer.GetString` | zccp/msg/msg.go:271-277 | length octet and bytes are consumed; what is missing reads as zeros |
| `ClientEngine.Engine.ConnectToServerEndpoint` | zccp_client.c:101-108 | a failed connect raises the error exception |
| `ClientEngine.Engine.DeliverMessageToApplication` | zccp_client.c:159-167 | the application hears sender, address and first content frame, as `ContentIsHeard` states it, and NULL in its place exactly when there is no frame |
| `ClientEngine.Engine.ProtocolEvent` | zccp_client_engine.inc:279-316 | a message that no server may send halts the client |

## Left out

- Session blocks are records in an explicit memory keyed by the session's id, rather than class instances, so that a use after free is a failed proof; in-place update of one field is modelled as replacement of the record.
- Sockets, the reactor library, actors, pipes, bind, configuration and verbose commands, configuration reload, logging and log prefixes: messages are values that are sent and received, timers are armed, disarmed and fired.
- The length of the inactivity timeout: a timer may fire between any two messages.
- Regular expressions and printf with missing arguments are uninterpreted; memory allocation does not fail.
- The CZMQ list, hash table, frame and multi-part message are taken as their documentation describes them; the order in which a hash table is visited is arbitrary.
- ServerActor.ZccpServer: is given decoded messages; that a message which does not decode ends the reactor is modelled in Wire.
- ClientEngine.ZccpClient: is given decoded messages, as the broker is.
- ServerEngine.Server.ClientExecute: does not model wakeup timers, exceptions and the external state, which no action of the broker uses, nor broadcast events.
- ServerEngine.Server.Serve: an expiry for a routing id without a session is skipped, as no timer is armed for one.
- CodecEngine.ZccpMsg.Encode: does not model that the object is freed afterwards, and requires a known message id, as the code asserts.
- CodecEngine.ZccpMsg.Decode: does not model the key that leaks when a value is malformed.
- ClientEngine.Engine.Execute: does not model the disconnecting and defaults states, the close and expired events and timeouts, which the client's own code never enters or raises; $TERM and VERBOSE are the terminate call and nothing.
- ClientEngine.Engine.DeliverMessageToApplication: hands over None for the NULL that stands for a content without frames; what zsock_send makes of a NULL string is CZMQ's and is not part of this model.
- Wire.ReconnectStabilises: follows one client; all others may send the broker any frames that decode and whose texts fit, at any time. How a reactor that has ended is restarted is not modelled.
- Wire.BrokerEndsExactly: leaves out calls whose text reaches 80 MiB, where the text left over can be long enough to hold the entries it claims.
- Wire.WideNameEndsClient: a name that is too long but does not spill over the address that is read can decode to another message; that it never decodes to the one sent is DeliveryArrivesExactly.
- The blocking client API and its replies, message printing, the one-step encode and send wrappers, and simple getters.
- GoCodec.GoReadsC: of the Go code only DELIVER and its string primitives are modelled; the other messages are smaller copies.
- The Java code, the older Go packages and the shell tools.
