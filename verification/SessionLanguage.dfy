/** What one routing id hears from the broker, cut into the lives of its sessions. */
module SessionLanguage {
  import opened Basics
  import opened Messages
  import opened Broker
  import opened BrokerSpec

  /** One session, from the message that creates it: what it was sent so far, and whether it
      has been destroyed. */
  datatype Life = Life(out: seq<Msg>, over: bool)

  /** The lives of the sessions of r over a run. A message from an unknown routing id begins
      a life, which may end in the same step. */
  function Lives(env: Env, inputs: seq<Input>, r: Rid): (lives: seq<Life>)
    ensures r in Run(env, EMPTY, inputs).0.sessions ==> lives != [] && !lives[|lives| - 1].over
  {
    if inputs == [] then []
    else
      var before, input := inputs[..|inputs| - 1], inputs[|inputs| - 1];
      var lives := Lives(env, before, r);
      var was := Run(env, EMPTY, before).0;
      var (now, out) := Step(env, was, input);
      if r in was.sessions then
        var n := |lives| - 1;
        lives[n := Life(lives[n].out + TraceTo(out, r), r !in now.sessions)]
      else if input.Receive? && input.from == r then lives + [Life(TraceTo(out, r), r !in now.sessions)]
      else lives
  }

  function Spoken(lives: seq<Life>): seq<Msg> {
    if lives == [] then [] else Spoken(lives[..|lives| - 1]) + lives[|lives| - 1].out
  }

  predicate Chatter(ms: seq<Msg>) {
    forall m :: m in ms ==> m.SubscribeOk? || m.Deliver?
  }

  predicate Closing(m: Msg) {
    m == Invalid || m == GoodbyeOk(map[])
  }

  /** HELLO_OK, then any number of SUBSCRIBE_OK and DELIVER. */
  predicate Greeted(ms: seq<Msg>) {
    ms != [] && ms[0] == HelloOk(map[]) && Chatter(ms[1..])
  }

  /** A living session was greeted. One that is over either was refused or dismissed at once,
      or was greeted and then expired silently or heard one closing message, its last. */
  predicate Sentence(life: Life) {
    || Greeted(life.out)
    || (life.over && life.out != [] && Closing(life.out[|life.out| - 1])
        && (|life.out| == 1 || Greeted(life.out[..|life.out| - 1])))
  }

  predicate Sentences(lives: seq<Life>, alive: bool) {
    && (forall i :: 0 <= i < |lives| ==> Sentence(lives[i]))
    && (forall i :: 0 <= i < |lives| ==> (lives[i].over <==> !(alive && i == |lives| - 1)))
    && (alive ==> lives != [])
  }

  /** What a connected session hears in one step is chatter while it lives; the step that ends
      it adds one closing message, or nothing when it expires. */
  lemma ConnectedHears(env: Env, st: State, input: Input, r: Rid)
    requires Inv(st) && r in st.sessions
    ensures var (now, out) := Step(env, st, input);
      if r in now.sessions then Chatter(TraceTo(out, r))
      else TraceTo(out, r) == [] || (|TraceTo(out, r)| == 1 && Closing(TraceTo(out, r)[0]))
  {
    OutputRefines(env, st, input, r);
    StateRefines(env, st, input);
    assert (r in Step(env, st, input).0.sessions) == (r in Abs(Step(env, st, input).0));
  }

  /** A routing id without a session hears only the answer to its own message. */
  lemma StrangerHears(env: Env, st: State, input: Input, r: Rid)
    requires Inv(st) && r !in st.sessions
    ensures var (now, out) := Step(env, st, input);
      if input.Receive? && input.from == r then
        |TraceTo(out, r)| == 1
        && if r in now.sessions then TraceTo(out, r)[0] == HelloOk(map[]) else Closing(TraceTo(out, r)[0])
      else TraceTo(out, r) == [] && r !in now.sessions
  {
    OutputRefines(env, st, input, r);
    StateRefines(env, st, input);
    assert (r in Step(env, st, input).0.sessions) == (r in Abs(Step(env, st, input).0));
  }

  lemma EmptyInv()
    ensures Inv(EMPTY)
  {
  }

  lemma LastProlonged(lives: seq<Life>, more: seq<Msg>, alive: bool)
    requires Sentences(lives, true)
    requires if alive then Chatter(more) else more == [] || (|more| == 1 && Closing(more[0]))
    ensures var n := |lives| - 1;
      var all := lives[n := Life(lives[n].out + more, !alive)];
      Sentences(all, alive) && Spoken(all) == Spoken(lives) + more
  {
  }

  lemma LastBegun(lives: seq<Life>, out: seq<Msg>, alive: bool)
    requires Sentences(lives, false)
    requires |out| == 1 && if alive then out[0] == HelloOk(map[]) else Closing(out[0])
    ensures var all := lives + [Life(out, !alive)];
      Sentences(all, alive) && Spoken(all) == Spoken(lives) + out
  {
  }

  /** Over every run: the lives of r are sentences of the output language, all of them over
      but the last, which is alive exactly when r has a session; and together they are all
      that r was ever sent. */
  lemma {:induction false} LivesAreSentences(env: Env, inputs: seq<Input>, r: Rid)
    ensures Sentences(Lives(env, inputs, r), r in Run(env, EMPTY, inputs).0.sessions)
    ensures Spoken(Lives(env, inputs, r)) == TraceTo(Run(env, EMPTY, inputs).1, r)
  {
    if inputs != [] {
      hide Step, Sentences, Spoken, Chatter, Closing, TraceTo, Inv;
      var before, input := inputs[..|inputs| - 1], inputs[|inputs| - 1];
      LivesAreSentences(env, before, r);
      EmptyInv();
      RunKeepsInv(env, EMPTY, before);
      var (was, heard) := Run(env, EMPTY, before);
      var (now, out) := Step(env, was, input);
      TraceToConcat(heard, out, r);
      var lives := Lives(env, before, r);
      if r in was.sessions {
        ConnectedHears(env, was, input, r);
        LastProlonged(lives, TraceTo(out, r), r in now.sessions);
      } else {
        StrangerHears(env, was, input, r);
        if input.Receive? && input.from == r {
          LastBegun(lives, TraceTo(out, r), r in now.sessions);
        }
      }
    } else {
      assert Lives(env, inputs, r) == [];
    }
  }

  /** In particular a session hears HELLO_OK at most once, as its first message, and a closing
      message only as its last, after which it is gone. */
  lemma OneGreetingOneClosing(life: Life, i: nat)
    requires Sentence(life) && i < |life.out|
    ensures life.out[i].HelloOk? ==> i == 0
    ensures life.out[i].Invalid? || life.out[i].GoodbyeOk? ==> i == |life.out| - 1 && life.over
  {
    if Greeted(life.out) {
      assert i > 0 ==> life.out[i] in life.out[1..];
    } else {
      var said := life.out[..|life.out| - 1];
      assert 0 < i < |said| ==> said[i] in said[1..];
    }
  }
}
