/** From the frames of a PUBLISH to the frames of the DELIVERs it causes. */
module Fidelity {
  import opened Basics
  import opened Messages
  import opened Codec
  import opened Broker

  /** Only messages that some frames decode to reach the broker. */
  predicate FromTheWire(inputs: seq<Input>) {
    forall i :: 0 <= i < |inputs| && inputs[i].Receive? ==> Fits(inputs[i].msg)
  }

  /** Every identifier fits a length octet. */
  predicate ShortIdentifiers(st: State) {
    forall r :: r in st.sessions ==> |st.sessions[r]| <= 255
  }

  lemma IdentifierStep(env: Env, st: State, input: Input)
    requires ShortIdentifiers(st) && (input.Receive? ==> Fits(input.msg))
    ensures ShortIdentifiers(Step(env, st, input).0)
  {
  }

  /** The identifiers that the broker holds are short, because they were decoded. */
  lemma {:induction false} IdentifiersFit(env: Env, inputs: seq<Input>)
    requires FromTheWire(inputs)
    ensures ShortIdentifiers(Run(env, EMPTY, inputs).0)
  {
    if inputs != [] {
      hide Step, Fits, ShortIdentifiers;
      var n := |inputs| - 1;
      IdentifiersFit(env, inputs[..n]);
      assert inputs[n].Receive? ==> Fits(inputs[n].msg);
      IdentifierStep(env, Run(env, EMPTY, inputs[..n]).0, inputs[n]);
    }
  }

  lemma {:induction false} DeliveredAll(from: Rid, d: Msg, clients: seq<Rid>)
    ensures forall p :: p in DeliverAll(from, d, clients) ==> p.msg == d && p.to != from
  {
    if clients != [] {
      DeliveredAll(from, d, clients[..|clients| - 1]);
    }
  }

  lemma {:induction false} ForwardedAll(env: Env, from: Rid, d: Msg, address: CString, index: seq<Entry>)
    ensures forall p :: p in Forward(env, from, d, address, index) ==> p.msg == d && p.to != from
  {
    if index != [] {
      ForwardedAll(env, from, d, address, index[..|index| - 1]);
      DeliveredAll(from, d, index[|index| - 1].clients);
    }
  }

  lemma DeliverFits(sender: CString, address: CString, content: seq<Frame>)
    requires |sender| <= 255 && |address| <= 255
    ensures Fits(Deliver(sender, address, map[], content))
  {
  }

  /** printf yields no more than it was given, if conversions without arguments yield nothing. */
  lemma FormatOrNothing(s: CString)
    ensures |Format(_ => [], s)| <= |s|
    ensures PERCENT in s <==> Format(_ => [], s) != s
  {
    if PERCENT !in s {
      PlainText(s);
    } else if !HasConversion(s) {
      CollapseShrinks(s);
    }
  }

  /** A delivery reads at its subscriber as the publisher meant it, whatever printf does with
      stray conversions, exactly when neither text holds a '%'. */
  lemma DeliveryReads(matches: (CString, CString) -> bool, identifier: CString, address: CString, content: seq<Frame>)
    requires |identifier| <= 255 && |address| <= 255
    ensures (forall u: CString -> CString ::
              Decode(Encode(Delivery(Env(matches, u), identifier, address, content), []))
              == Some(Deliver(identifier, address, map[], content)))
            <==> PERCENT !in identifier && PERCENT !in address
  {
    hide Decode, Encode, Format, Fits;
    FormatOrNothing(identifier);
    FormatOrNothing(address);
    var u: CString -> CString := _ => [];
    var d := Delivery(Env(matches, u), identifier, address, content);
    DeliverFits(d.sender, d.address, content);
    FitsSurvives(d, []);
    if PERCENT !in identifier && PERCENT !in address {
      FormatKeepsExactlyPlainText(identifier);
      FormatKeepsExactlyPlainText(address);
      DeliverFits(identifier, address, content);
      FitsSurvives(Deliver(identifier, address, map[], content), []);
    }
  }

  /** For every accepted PUBLISH without '%', after any run: every packet it causes goes to
      another session, and its frames decode to a DELIVER of the identifier in the publisher's
      own session, the published address, no headers, and the published content frames in
      order. */
  lemma EndToEnd(env: Env, inputs: seq<Input>, from: Rid, frames: seq<Frame>)
    requires FromTheWire(inputs) && from in Run(env, EMPTY, inputs).0.sessions
    requires Decode(frames).Some? && Decode(frames).value.Publish?
    requires PERCENT !in Run(env, EMPTY, inputs).0.sessions[from] && PERCENT !in Decode(frames).value.address
    ensures var st, m := Run(env, EMPTY, inputs).0, Decode(frames).value;
      forall p :: p in Step(env, st, Receive(from, m)).1 ==>
        && p.to != from
        && Decode(Encode(p.msg, [])) == Some(Deliver(st.sessions[from], m.address, map[], frames[1..]))
  {
    hide Run, Encode, Forward, Fits;
    var st, m := Run(env, EMPTY, inputs).0, Decode(frames).value;
    IdentifiersFit(env, inputs);
    PublishDecoded(frames);
    var d := Delivery(env, st.sessions[from], m.address, m.content);
    ForwardedAll(env, from, d, m.address, st.index);
    DeliveryReads(env.matches, st.sessions[from], m.address, m.content);
    assert env == Env(env.matches, env.unspecified);
  }

  lemma PublishDecoded(frames: seq<Frame>)
    requires Decode(frames).Some? && Decode(frames).value.Publish?
    ensures |Decode(frames).value.address| <= 255 && Decode(frames).value.content == frames[1..]
  {
  }
}
