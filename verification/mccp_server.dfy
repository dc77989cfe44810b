/**
 * The server side of MCCP (option 86), built on the option template with the
 * server verbs.  `start_compression` sends the empty MCCP subnegotiation and
 * then starts the codec, but only while the option is active;
 * `finish_compression` finishes the codec while compressing; and a slot on
 * the state-changed signal finishes the codec whenever the option changes
 * state with compression on.
 *
 * What an operation does is a list of effects, in the order they happen:
 * elements handed to the send continuation, and calls that start or finish
 * the codec.
 */
module MccpServer {
  import opened Protocol
  import opened OptionTemplate
  import opened MccpCodec

  /** The MCCP option code. */
  const MCCP: byte := 86

  datatype Effect = Send(element: Element) | CodecStarted | CodecFinished

  /** What a server operation can see and change: the option, the flag and the codec. */
  datatype Server<S> = Server(state: OptionState, compressing: bool, engaged: bool, hookState: S)

  datatype Played<S> = Played(after: Server<S>, effects: seq<Effect>)

  /** Finishing the codec: it disengages, then its finish output is sent as data. */
  function FinishCodec<S>(h: Hooks<S>, m: Server<S>): Played<S>
  {
    var f := h.finish(m.hookState);
    Played(m.(compressing := false, engaged := false, hookState := f.state), [CodecFinished, Send(Data(f.out))])
  }

  /** The state-changed slot: finish the codec if compression is on. */
  function Slot<S>(h: Hooks<S>, m: Server<S>): Played<S>
  {
    if m.compressing then FinishCodec(h, m) else Played(m, [])
  }

  /** The template's events replayed in order, each signal running the slot. */
  function Play<S>(h: Hooks<S>, m: Server<S>, events: seq<Event>): Played<S>
    decreases |events|
  {
    if |events| == 0 then Played(m, [])
    else
      var first := if events[0].Sent? then Played(m, [Send(events[0].element)]) else Slot(h, m);
      var rest := Play(h, first.after, events[1..]);
      Played(rest.after, first.effects + rest.effects)
  }

  function Negotiated<S>(h: Hooks<S>, m: Server<S>, neg: byte): Played<S>
  {
    var o := NegotiateSpec(ServerVerbs, MCCP, m.state, neg);
    Play(h, m.(state := o.state), o.events)
  }

  function Activated<S>(h: Hooks<S>, m: Server<S>): Played<S>
  {
    var o := ActivateSpec(ServerVerbs, MCCP, m.state);
    Play(h, m.(state := o.state), o.events)
  }

  function Deactivated<S>(h: Hooks<S>, m: Server<S>): Played<S>
  {
    var o := DeactivateSpec(ServerVerbs, MCCP, m.state);
    Play(h, m.(state := o.state), o.events)
  }

  /** `start_compression`: only while active, the begin-compression subnegotiation goes out before the codec starts. */
  function CompressionStarted<S>(h: Hooks<S>, m: Server<S>): Played<S>
  {
    if m.state == Active then
      Played(m.(compressing := true, engaged := true, hookState := h.start(m.hookState)),
             [Send(Subnegotiation(MCCP, [])), CodecStarted])
    else Played(m, [])
  }

  /** `finish_compression`: only while active and compressing. */
  function CompressionFinished<S>(h: Hooks<S>, m: Server<S>): Played<S>
  {
    if m.state == Active && m.compressing then FinishCodec(h, m) else Played(m, [])
  }

  class MccpServer<S(!new)> {
    const option: TelnetOption
    const codec: Codec<S>
    var compressing: bool

    constructor (codec: Codec<S>)
      ensures this.codec == codec && fresh(option)
      ensures Valid() && option.state == Inactive && !compressing
    {
      this.codec := codec;
      option := new TelnetOption(ServerVerbs, MCCP);
      compressing := false;
    }

    predicate Valid()
      reads this, option
    {
      option.verbs == ServerVerbs && option.code == MCCP
    }

    function Snapshot(): Server<S>
      reads this, option, codec
    {
      Server(option.state, compressing, codec.engaged, codec.hookState)
    }

    /** The state-changed slot connected by the constructor. */
    method OnStateChanged() returns (effects: seq<Effect>)
      modifies this`compressing, codec`engaged, codec`hookState
      ensures Played(Snapshot(), effects) == Slot(codec.hooks, old(Snapshot()))
    {
      effects := [];
      if compressing {
        var out := codec.Finish();
        effects := [CodecFinished, Send(Data(out))];
        compressing := false;
      }
    }

    /** Delivers the template's events: elements are sent, signals run the slot. */
    method Signal(events: seq<Event>) returns (effects: seq<Effect>)
      modifies this`compressing, codec`engaged, codec`hookState
      ensures Played(Snapshot(), effects) == Play(codec.hooks, old(Snapshot()), events)
    {
      ghost var whole := Play(codec.hooks, Snapshot(), events);
      effects := [];
      var i := 0;
      while i < |events|
        invariant 0 <= i <= |events|
        invariant whole == Continued(Play(codec.hooks, Snapshot(), events[i..]), effects)
      {
        PlayStep(codec.hooks, Snapshot(), events[i..], effects);
        assert events[i..][1..] == events[i + 1..];
        if events[i].Sent? {
          effects := effects + [Send(events[i].element)];
        } else {
          var out := OnStateChanged();
          effects := effects + out;
        }
        i := i + 1;
      }
      assert events[i..] == [];
    }

    method Negotiate(neg: byte) returns (effects: seq<Effect>)
      requires Valid()
      modifies option`state, this`compressing, codec`engaged, codec`hookState
      ensures Played(Snapshot(), effects) == Negotiated(codec.hooks, old(Snapshot()), neg)
    {
      var events := option.Negotiate(neg);
      effects := Signal(events);
    }

    method Activate() returns (effects: seq<Effect>)
      requires Valid()
      modifies option`state, this`compressing, codec`engaged, codec`hookState
      ensures Played(Snapshot(), effects) == Activated(codec.hooks, old(Snapshot()))
    {
      var events := option.Activate();
      effects := Signal(events);
    }

    method Deactivate() returns (effects: seq<Effect>)
      requires Valid()
      modifies option`state, this`compressing, codec`engaged, codec`hookState
      ensures Played(Snapshot(), effects) == Deactivated(codec.hooks, old(Snapshot()))
    {
      var events := option.Deactivate();
      effects := Signal(events);
    }

    method StartCompression() returns (effects: seq<Effect>)
      modifies this`compressing, codec`engaged, codec`hookState
      ensures Played(Snapshot(), effects) == CompressionStarted(codec.hooks, old(Snapshot()))
    {
      effects := [];
      if option.IsActive() {
        effects := [Send(Subnegotiation(MCCP, []))];
        codec.Start();
        effects := effects + [CodecStarted];
        compressing := true;
      }
    }

    method FinishCompression() returns (effects: seq<Effect>)
      modifies this`compressing, codec`engaged, codec`hookState
      ensures Played(Snapshot(), effects) == CompressionFinished(codec.hooks, old(Snapshot()))
    {
      effects := [];
      if option.IsActive() && compressing {
        var out := codec.Finish();
        effects := [CodecFinished, Send(Data(out))];
        compressing := false;
      }
    }
  }

  /** A replay with `before` already done ahead of it. */
  function Continued<S>(p: Played<S>, before: seq<Effect>): Played<S>
  {
    p.(effects := before + p.effects)
  }

  /** One step of a replay: the first event's effects join those already done. */
  lemma PlayStep<S>(h: Hooks<S>, m: Server<S>, events: seq<Event>, before: seq<Effect>)
    requires |events| > 0
    ensures var first := if events[0].Sent? then Played(m, [Send(events[0].element)]) else Slot(h, m);
            Continued(Play(h, m, events), before) == Continued(Play(h, first.after, events[1..]), before + first.effects)
  {
  }

  /** The elements sent among the template's events, as effects. */
  function Sends(events: seq<Event>): seq<Effect>
    decreases |events|
  {
    if |events| == 0 then []
    else (if events[0].Sent? then [Send(events[0].element)] else []) + Sends(events[1..])
  }

  /**
   * Replaying the template's events never changes the option state; a
   * signal leaves compression off, and without a signal nothing changes
   * and only the template's elements are sent.
   */
  lemma {:induction false} SignalEndsCompression<S>(h: Hooks<S>, m: Server<S>, events: seq<Event>)
    ensures Play(h, m, events).after.state == m.state
    ensures StateChanged in events ==> !Play(h, m, events).after.compressing
    ensures !(StateChanged in events) ==> Play(h, m, events) == Played(m, Sends(events))
    decreases |events|
  {
    if |events| > 0 {
      var first := if events[0].Sent? then Played(m, [Send(events[0].element)]) else Slot(h, m);
      SignalEndsCompression(h, first.after, events[1..]);
      assert events == [events[0]] + events[1..];
      if events[0] == StateChanged && StateChanged !in events[1..] {
        assert Play(h, first.after, events[1..]).after == first.after;
      }
    }
  }

  /** Compression is on only while the option is active or being deactivated, and then the codec is engaged. */
  predicate Sound<S>(m: Server<S>)
  {
    m.compressing ==> (m.state == Active || m.state == Deactivating) && m.engaged
  }

  /** Every server operation keeps `Sound`. */
  lemma OperationsKeepSound<S>(h: Hooks<S>, m: Server<S>, neg: byte)
    requires Sound(m)
    ensures Sound(Negotiated(h, m, neg).after)
    ensures Sound(Activated(h, m).after)
    ensures Sound(Deactivated(h, m).after)
    ensures Sound(CompressionStarted(h, m).after)
    ensures Sound(CompressionFinished(h, m).after)
  {
    var n := NegotiateSpec(ServerVerbs, MCCP, m.state, neg);
    SignalEndsCompression(h, m.(state := n.state), n.events);
    NegotiationSettles(ServerVerbs, MCCP, m.state, neg);
    var a := ActivateSpec(ServerVerbs, MCCP, m.state);
    SignalEndsCompression(h, m.(state := a.state), a.events);
    var d := DeactivateSpec(ServerVerbs, MCCP, m.state);
    SignalEndsCompression(h, m.(state := d.state), d.events);
  }

  /**
   * A start asked for while the option is not active does nothing and is
   * not remembered: when the client then agrees to the option, compression
   * stays off and the codec is not started.
   */
  lemma NoDeferredStart<S>(h: Hooks<S>, m: Server<S>)
    requires m.state != Active && !m.compressing
    ensures CompressionStarted(h, m) == Played(m, [])
    ensures var n := Negotiated(h, m, DO);
            !n.after.compressing && CodecStarted !in n.effects && n.after.hookState == m.hookState
  {
    var o := NegotiateSpec(ServerVerbs, MCCP, m.state, DO);
    SignalEndsCompression(h, m.(state := o.state), o.events);
  }

  /**
   * A refusal while compressing finishes the codec first: its final output
   * goes out as data before the WONT, and the option ends inactive with
   * compression off.
   */
  lemma RefusalFinishesBeforeWont<S>(h: Hooks<S>, m: Server<S>, neg: byte)
    requires m.state == Active && m.compressing && neg != DO
    ensures var f := h.finish(m.hookState);
            Negotiated(h, m, neg)
            == Played(Server(Inactive, false, false, f.state),
                      [CodecFinished, Send(Data(f.out)), Send(Negotiation(WONT, MCCP))])
  {
    var f := h.finish(m.hookState);
    var m' := m.(state := Inactive);
    var after := Server(Inactive, false, false, f.state);
    var events := [StateChanged, Sent(Negotiation(WONT, MCCP))];
    assert NegotiateSpec(ServerVerbs, MCCP, m.state, neg) == OptionTemplate.Outcome(Inactive, events);
    assert Slot(h, m') == Played(after, [CodecFinished, Send(Data(f.out))]);
    assert events[1..] == [Sent(Negotiation(WONT, MCCP))];
    assert events[1..][1..] == [];
    assert Play(h, after, events[1..]) == Played(after, [Send(Negotiation(WONT, MCCP))]);
  }

  /**
   * Starting then finishing compression on an active option sends the
   * begin-compression subnegotiation before the codec starts, and the finish
   * output after the codec finishes; the option is left as it was except
   * for the codec's hook state.
   */
  lemma StartThenFinish<S>(h: Hooks<S>, m: Server<S>)
    requires m.state == Active && !m.compressing
    ensures var s := CompressionStarted(h, m);
            var f := CompressionFinished(h, s.after);
            var z := h.finish(h.start(m.hookState));
            && s.effects + f.effects == [Send(Subnegotiation(MCCP, [])), CodecStarted, CodecFinished, Send(Data(z.out))]
            && f.after == m.(engaged := false, hookState := z.state)
  {
  }

  /** A start while active always starts the codec again, even when compression is already on. */
  lemma StartWhileActive<S>(h: Hooks<S>, m: Server<S>)
    ensures var s := CompressionStarted(h, m);
            (CodecStarted in s.effects <==> m.state == Active)
            && (m.state == Active ==> s.after.compressing && s.after.hookState == h.start(m.hookState))
  {
  }
}
