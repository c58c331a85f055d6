/** The server actor: it creates the reactor, runs it, and destroys it. */
module ServerActor {
  import opened Basics
  import opened Broker
  import BrokerSpec
  import SessionLanguage
  import opened ServerEngine

  /** Whatever messages and expiries the reactor is given, each routing id is sent exactly what
      the specification machine sends it, in the shape of the session output language. */
  method ZccpServer(env: Env, firstId: Ptr, inputs: seq<Input>) returns (sent: seq<Packet>)
    ensures forall r :: BrokerSpec.TraceTo(sent, r) == BrokerSpec.SpecTrace(env, inputs, r)
    ensures forall r :: BrokerSpec.TraceTo(sent, r)
                        == SessionLanguage.Spoken(SessionLanguage.Lives(env, inputs, r))
  {
    hide Run;
    var server := new Server(env, firstId);
    server.Serve(inputs);
    server.Destroy();
    sent := server.sent;
    assert sent == Run(env, EMPTY, inputs).1;
    forall r
      ensures BrokerSpec.TraceTo(sent, r) == BrokerSpec.SpecTrace(env, inputs, r)
      ensures BrokerSpec.TraceTo(sent, r) == SessionLanguage.Spoken(SessionLanguage.Lives(env, inputs, r))
    {
      BrokerSpec.RunRefines(env, inputs, r);
      SessionLanguage.LivesAreSentences(env, inputs, r);
    }
  }
}
