/**
 * The client side of MCCP (option 86), built on the option template with the
 * client verbs.  Any subnegotiation received while the option is active
 * starts the codec, whatever its content; a slot on the state-changed signal
 * finishes the codec whenever the option is left not active, and leaves it
 * alone when the option becomes active.
 */
module MccpClient {
  import opened Protocol
  import opened OptionTemplate
  import opened MccpCodec
  import opened MccpServer

  /** What a client operation can see and change: the option and the codec. */
  datatype Client<S> = Client(state: OptionState, engaged: bool, hookState: S)

  datatype ClientPlayed<S> = ClientPlayed(after: Client<S>, effects: seq<Effect>)

  /** The state-changed slot: finish the codec unless the option is now active. */
  function ClientSlot<S>(h: Hooks<S>, m: Client<S>): ClientPlayed<S>
  {
    if m.state != Active then
      var f := h.finish(m.hookState);
      ClientPlayed(m.(engaged := false, hookState := f.state), [CodecFinished, Send(Data(f.out))])
    else ClientPlayed(m, [])
  }

  /** The template's events replayed in order, each signal running the slot. */
  function ClientPlay<S>(h: Hooks<S>, m: Client<S>, events: seq<Event>): ClientPlayed<S>
    decreases |events|
  {
    if |events| == 0 then ClientPlayed(m, [])
    else
      var first := if events[0].Sent? then ClientPlayed(m, [Send(events[0].element)]) else ClientSlot(h, m);
      var rest := ClientPlay(h, first.after, events[1..]);
      ClientPlayed(rest.after, first.effects + rest.effects)
  }

  function ClientNegotiated<S>(h: Hooks<S>, m: Client<S>, neg: byte): ClientPlayed<S>
  {
    var o := NegotiateSpec(ClientVerbs, MCCP, m.state, neg);
    ClientPlay(h, m.(state := o.state), o.events)
  }

  function ClientActivated<S>(h: Hooks<S>, m: Client<S>): ClientPlayed<S>
  {
    var o := ActivateSpec(ClientVerbs, MCCP, m.state);
    ClientPlay(h, m.(state := o.state), o.events)
  }

  function ClientDeactivated<S>(h: Hooks<S>, m: Client<S>): ClientPlayed<S>
  {
    var o := DeactivateSpec(ClientVerbs, MCCP, m.state);
    ClientPlay(h, m.(state := o.state), o.events)
  }

  /** A subnegotiation reaches the handler only while active, and the handler starts the codec. */
  function ClientSubnegotiated<S>(h: Hooks<S>, m: Client<S>, content: Bytes): ClientPlayed<S>
  {
    if m.state == Active then ClientPlayed(m.(engaged := true, hookState := h.start(m.hookState)), [CodecStarted])
    else ClientPlayed(m, [])
  }

  /** A replay with `before` already done ahead of it. */
  function ClientContinued<S>(p: ClientPlayed<S>, before: seq<Effect>): ClientPlayed<S>
  {
    p.(effects := before + p.effects)
  }

  lemma ClientPlayStep<S>(h: Hooks<S>, m: Client<S>, events: seq<Event>, before: seq<Effect>)
    requires |events| > 0
    ensures var first := if events[0].Sent? then ClientPlayed(m, [Send(events[0].element)]) else ClientSlot(h, m);
            ClientContinued(ClientPlay(h, m, events), before)
            == ClientContinued(ClientPlay(h, first.after, events[1..]), before + first.effects)
  {
  }

  class MccpClient<S(!new)> {
    const option: TelnetOption
    const codec: Codec<S>

    constructor (codec: Codec<S>)
      ensures this.codec == codec && fresh(option)
      ensures Valid() && option.state == Inactive
    {
      this.codec := codec;
      option := new TelnetOption(ClientVerbs, MCCP);
    }

    predicate Valid()
      reads this, option
    {
      option.verbs == ClientVerbs && option.code == MCCP
    }

    function Snapshot(): Client<S>
      reads this, option, codec
    {
      Client(option.state, codec.engaged, codec.hookState)
    }

    /** The state-changed slot connected by the constructor. */
    method OnStateChanged() returns (effects: seq<Effect>)
      modifies codec`engaged, codec`hookState
      ensures ClientPlayed(Snapshot(), effects) == ClientSlot(codec.hooks, old(Snapshot()))
    {
      effects := [];
      if !option.IsActive() {
        var out := codec.Finish();
        effects := [CodecFinished, Send(Data(out))];
      }
    }

    /** Delivers the template's events: elements are sent, signals run the slot. */
    method Signal(events: seq<Event>) returns (effects: seq<Effect>)
      modifies codec`engaged, codec`hookState
      ensures ClientPlayed(Snapshot(), effects) == ClientPlay(codec.hooks, old(Snapshot()), events)
    {
      ghost var whole := ClientPlay(codec.hooks, Snapshot(), events);
      effects := [];
      var i := 0;
      while i < |events|
        invariant 0 <= i <= |events|
        invariant whole == ClientContinued(ClientPlay(codec.hooks, Snapshot(), events[i..]), effects)
      {
        ClientPlayStep(codec.hooks, Snapshot(), events[i..], effects);
        assert events[i..][1..] == events[i + 1..];
        if events[i].Sent? {
          effects := effects + [Send(events[i].element)];
        } else {
          var out := OnStateChanged();
          effects := effects + out;
        }
        i := i + 1;
      }
    }

    method Negotiate(neg: byte) returns (effects: seq<Effect>)
      requires Valid()
      modifies option`state, codec`engaged, codec`hookState
      ensures ClientPlayed(Snapshot(), effects) == ClientNegotiated(codec.hooks, old(Snapshot()), neg)
    {
      var events := option.Negotiate(neg);
      effects := Signal(events);
    }

    method Activate() returns (effects: seq<Effect>)
      requires Valid()
      modifies option`state, codec`engaged, codec`hookState
      ensures ClientPlayed(Snapshot(), effects) == ClientActivated(codec.hooks, old(Snapshot()))
    {
      var events := option.Activate();
      effects := Signal(events);
    }

    method Deactivate() returns (effects: seq<Effect>)
      requires Valid()
      modifies option`state, codec`engaged, codec`hookState
      ensures ClientPlayed(Snapshot(), effects) == ClientDeactivated(codec.hooks, old(Snapshot()))
    {
      var events := option.Deactivate();
      effects := Signal(events);
    }

    method Subnegotiate(content: Bytes) returns (effects: seq<Effect>)
      modifies codec`engaged, codec`hookState
      ensures ClientPlayed(Snapshot(), effects) == ClientSubnegotiated(codec.hooks, old(Snapshot()), content)
    {
      effects := [];
      if option.IsActive() {
        codec.Start();
        effects := [CodecStarted];
      }
    }
  }

  /**
   * Replaying the template's events never changes the option state.  While
   * the option is active the slot does nothing, so only the template's
   * elements go out; otherwise a signal leaves the codec disengaged.
   */
  lemma {:induction false} ClientSignal<S>(h: Hooks<S>, m: Client<S>, events: seq<Event>)
    ensures ClientPlay(h, m, events).after.state == m.state
    ensures m.state == Active || StateChanged !in events ==> ClientPlay(h, m, events) == ClientPlayed(m, Sends(events))
    ensures m.state != Active && StateChanged in events ==>
              !ClientPlay(h, m, events).after.engaged && CodecFinished in ClientPlay(h, m, events).effects
    decreases |events|
  {
    if |events| > 0 {
      var first := if events[0].Sent? then ClientPlayed(m, [Send(events[0].element)]) else ClientSlot(h, m);
      ClientSignal(h, first.after, events[1..]);
      assert events == [events[0]] + events[1..];
      var rest := ClientPlay(h, first.after, events[1..]);
      if m.state != Active && events[0] == StateChanged {
        assert CodecFinished in first.effects;
        assert CodecFinished in first.effects + rest.effects;
        if StateChanged !in events[1..] {
          assert rest.after == first.after;
        }
      }
    }
  }

  /**
   * A negotiation leaves the option active exactly when it was WILL.  A
   * WILL never touches the codec; any other verb that moves the option out
   * of a non-inactive state finishes the codec.
   */
  lemma NegotiationAndTheCodec<S>(h: Hooks<S>, m: Client<S>, neg: byte)
    ensures var n := ClientNegotiated(h, m, neg);
            && n.after.state == (if neg == WILL then Active else Inactive)
            && (neg == WILL ==> n.after.engaged == m.engaged && n.after.hookState == m.hookState
                                && CodecFinished !in n.effects)
            && (neg != WILL && m.state != Inactive ==> !n.after.engaged && CodecFinished in n.effects)
  {
    var o := NegotiateSpec(ClientVerbs, MCCP, m.state, neg);
    NegotiationSettles(ClientVerbs, MCCP, m.state, neg);
    ClientSignal(h, m.(state := o.state), o.events);
    if neg == WILL {
      SendsAtMostOne(ClientVerbs, MCCP, m.state, neg);
      SendsNoCodecEffect(o.events);
    }
  }

  /** The template's own elements are never codec calls. */
  lemma {:induction false} SendsNoCodecEffect(events: seq<Event>)
    ensures CodecFinished !in Sends(events) && CodecStarted !in Sends(events)
    decreases |events|
  {
    if |events| > 0 {
      SendsNoCodecEffect(events[1..]);
    }
  }

  /**
   * A refusal while active finishes the codec first: its final output goes
   * out as data before the DONT.
   */
  lemma RefusalFinishesBeforeDont<S>(h: Hooks<S>, m: Client<S>, neg: byte)
    requires m.state == Active && neg != WILL
    ensures var f := h.finish(m.hookState);
            ClientNegotiated(h, m, neg)
            == ClientPlayed(Client(Inactive, false, f.state),
                            [CodecFinished, Send(Data(f.out)), Send(Negotiation(DONT, MCCP))])
  {
    var f := h.finish(m.hookState);
    var after := Client(Inactive, false, f.state);
    var events := [StateChanged, Sent(Negotiation(DONT, MCCP))];
    assert NegotiateSpec(ClientVerbs, MCCP, m.state, neg) == OptionTemplate.Outcome(Inactive, events);
    assert ClientSlot(h, m.(state := Inactive)) == ClientPlayed(after, [CodecFinished, Send(Data(f.out))]);
    assert events[1..] == [Sent(Negotiation(DONT, MCCP))];
    assert events[1..][1..] == [];
    assert ClientPlay(h, after, events[1..]) == ClientPlayed(after, [Send(Negotiation(DONT, MCCP))]);
  }

  /**
   * A subnegotiation starts the codec exactly when the option is active,
   * and what it does does not depend on the content.
   */
  lemma SubnegotiationStartsCodec<S>(h: Hooks<S>, m: Client<S>, content: Bytes, other: Bytes)
    ensures var n := ClientSubnegotiated(h, m, content);
            && (CodecStarted in n.effects <==> m.state == Active)
            && (m.state == Active ==> n.after.engaged && n.after.hookState == h.start(m.hookState))
            && (m.state != Active ==> n.after == m)
            && n == ClientSubnegotiated(h, m, other)
  {
  }

  /**
   * Asking to deactivate an option that is already inactive fires the
   * signal, which finishes the codec even if it was never started.
   */
  lemma DeactivateWhileInactiveFinishes<S>(h: Hooks<S>, m: Client<S>)
    requires m.state == Inactive
    ensures var f := h.finish(m.hookState);
            ClientDeactivated(h, m) == ClientPlayed(m.(engaged := false, hookState := f.state), [CodecFinished, Send(Data(f.out))])
  {
    assert DeactivateSpec(ClientVerbs, MCCP, m.state).events == [StateChanged];
    assert [StateChanged][1..] == [];
  }
}
