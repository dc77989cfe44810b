/**
 * The option state machine template: one Telnet option's side of the
 * negotiation, with the four states of the "Q method" of RFC 1143 section 7
 * (No, WantYes, Yes, WantNo) and no queued-opposite flag, so a request made
 * while a negotiation is pending is ignored.  The template is parameterised
 * by the local and remote positive/negative verbs: a client side uses
 * DO/DONT locally and WILL/WONT remotely, a server side the reverse.
 */
module OptionTemplate {
  import opened Protocol

  datatype OptionState = Inactive | Activating | Active | Deactivating

  datatype Verbs = Verbs(localPositive: byte, localNegative: byte, remotePositive: byte, remoteNegative: byte)

  const ClientVerbs: Verbs := Verbs(DO, DONT, WILL, WONT)
  const ServerVerbs: Verbs := Verbs(WILL, WONT, DO, DONT)

  /** What an operation emits, in order: an element handed to the send continuation, or the state-changed signal. */
  datatype Event = Sent(element: Element) | StateChanged

  datatype Outcome = Outcome(state: OptionState, events: seq<Event>)

  predicate Pending(s: OptionState) { s == Activating || s == Deactivating }

  function ActivateSpec(v: Verbs, code: byte, s: OptionState): Outcome
  {
    match s
    case Inactive => Outcome(Activating, [Sent(Negotiation(v.localPositive, code))])
    case Activating => Outcome(s, [])
    case Active => Outcome(s, [StateChanged])
    case Deactivating => Outcome(s, [])
  }

  function DeactivateSpec(v: Verbs, code: byte, s: OptionState): Outcome
  {
    match s
    case Active => Outcome(Deactivating, [Sent(Negotiation(v.localNegative, code))])
    case Activating => Outcome(s, [])
    case Inactive => Outcome(s, [StateChanged])
    case Deactivating => Outcome(s, [])
  }

  function NegotiateSpec(v: Verbs, code: byte, s: OptionState, neg: byte): Outcome
  {
    match s
    case Inactive =>
      if neg == v.remotePositive then
        Outcome(Active, [Sent(Negotiation(v.localPositive, code)), StateChanged])
      else
        Outcome(Inactive, [Sent(Negotiation(v.localNegative, code))])
    case Activating =>
      if neg == v.remotePositive then Outcome(Active, [StateChanged]) else Outcome(Inactive, [StateChanged])
    case Active =>
      if neg == v.remotePositive then
        Outcome(Active, [Sent(Negotiation(v.localPositive, code))])
      else
        Outcome(Inactive, [StateChanged, Sent(Negotiation(v.localNegative, code))])
    case Deactivating =>
      if neg == v.remotePositive then Outcome(Active, [StateChanged]) else Outcome(Inactive, [StateChanged])
  }

  /** The number of elements sent among the events. */
  function SentCount(events: seq<Event>): nat
    decreases |events|
  {
    if |events| == 0 then 0 else (if events[0].Sent? then 1 else 0) + SentCount(events[1..])
  }

  /** Every element sent is a negotiation for this option with one of the local verbs. */
  predicate SendsOwnVerbs(v: Verbs, code: byte, events: seq<Event>)
  {
    forall i :: 0 <= i < |events| && events[i].Sent? ==>
      events[i].element == Negotiation(v.localPositive, code) || events[i].element == Negotiation(v.localNegative, code)
  }

  class TelnetOption {
    const code: byte
    const verbs: Verbs
    var state: OptionState
    /** Contents handed to the option-specific subnegotiation handler, oldest first. */
    var handled: seq<Bytes>

    constructor (verbs: Verbs, code: byte)
      ensures this.verbs == verbs && this.code == code
      ensures state == Inactive && handled == []
    {
      this.verbs := verbs;
      this.code := code;
      state := Inactive;
      handled := [];
    }

    function IsActive(): (r: bool)
      reads this
    {
      state == Active
    }

    method Activate() returns (events: seq<Event>)
      modifies this`state
      ensures Outcome(state, events) == ActivateSpec(verbs, code, old(state))
    {
      match state
      case Inactive =>
        state := Activating;
        events := [Sent(Negotiation(verbs.localPositive, code))];
      case Activating =>
        events := [];
      case Active =>
        events := [StateChanged];
      case Deactivating =>
        events := [];
    }

    method Deactivate() returns (events: seq<Event>)
      modifies this`state
      ensures Outcome(state, events) == DeactivateSpec(verbs, code, old(state))
    {
      match state
      case Active =>
        state := Deactivating;
        events := [Sent(Negotiation(verbs.localNegative, code))];
      case Activating =>
        events := [];
      case Inactive =>
        events := [StateChanged];
      case Deactivating =>
        events := [];
    }

    method Negotiate(neg: byte) returns (events: seq<Event>)
      modifies this`state
      ensures Outcome(state, events) == NegotiateSpec(verbs, code, old(state), neg)
    {
      events := [];
      match state
      case Inactive =>
        if neg == verbs.remotePositive {
          state := Active;
          events := events + [Sent(Negotiation(verbs.localPositive, code))];
          events := events + [StateChanged];
        } else {
          events := events + [Sent(Negotiation(verbs.localNegative, code))];
        }
      case Activating =>
        if neg == verbs.remotePositive {
          state := Active;
        } else {
          state := Inactive;
        }
        events := events + [StateChanged];
      case Active =>
        if neg == verbs.remotePositive {
          events := events + [Sent(Negotiation(verbs.localPositive, code))];
        } else {
          state := Inactive;
          events := events + [StateChanged];
          events := events + [Sent(Negotiation(verbs.localNegative, code))];
        }
      case Deactivating =>
        if neg == verbs.remotePositive {
          state := Active;
        } else {
          state := Inactive;
        }
        events := events + [StateChanged];
    }

    /** A subnegotiation reaches the option-specific handler only while active. */
    method Subnegotiate(content: Bytes)
      modifies this`handled
      ensures handled == if state == Active then old(handled) + [content] else old(handled)
    {
      if state == Active {
        handled := handled + [content];
      }
    }
  }

  /**
   * Each operation sends at most one negotiation, always for this option
   * with a local verb, and nothing at all while a negotiation is pending.
   */
  lemma SendsAtMostOne(v: Verbs, code: byte, s: OptionState, neg: byte)
    ensures SentCount(ActivateSpec(v, code, s).events) <= 1
    ensures SentCount(DeactivateSpec(v, code, s).events) <= 1
    ensures SentCount(NegotiateSpec(v, code, s, neg).events) <= 1
    ensures SendsOwnVerbs(v, code, ActivateSpec(v, code, s).events)
    ensures SendsOwnVerbs(v, code, DeactivateSpec(v, code, s).events)
    ensures SendsOwnVerbs(v, code, NegotiateSpec(v, code, s, neg).events)
    ensures Pending(s) ==> SentCount(ActivateSpec(v, code, s).events) == 0
    ensures Pending(s) ==> SentCount(DeactivateSpec(v, code, s).events) == 0
    ensures Pending(s) ==> SentCount(NegotiateSpec(v, code, s, neg).events) == 0
  {
  }

  /**
   * After any negotiation the option is settled by the remote verb: active
   * if and only if it was the remote positive verb.  The state-changed
   * signal fires exactly when the state changes.
   */
  lemma NegotiationSettles(v: Verbs, code: byte, s: OptionState, neg: byte)
    ensures NegotiateSpec(v, code, s, neg).state == (if neg == v.remotePositive then Active else Inactive)
    ensures StateChanged in NegotiateSpec(v, code, s, neg).events <==> NegotiateSpec(v, code, s, neg).state != s
  {
  }

  /**
   * Activating and deactivating never signal a change that has not happened:
   * the signal fires only when the option already is where it was asked to go.
   */
  lemma RequestSignalsOnlyWhenSettled(v: Verbs, code: byte, s: OptionState)
    ensures StateChanged in ActivateSpec(v, code, s).events <==> s == Active
    ensures StateChanged in DeactivateSpec(v, code, s).events <==> s == Inactive
    ensures ActivateSpec(v, code, s).state == (if s == Inactive then Activating else s)
    ensures DeactivateSpec(v, code, s).state == (if s == Active then Deactivating else s)
  {
  }

  /** The state after a run of negotiations, starting from `s`. */
  function NegotiateAll(v: Verbs, code: byte, s: OptionState, negs: seq<byte>): OptionState
    decreases |negs|
  {
    if |negs| == 0 then s else NegotiateAll(v, code, NegotiateSpec(v, code, s, negs[0]).state, negs[1..])
  }

  /** Whatever happened before, the last remote verb decides whether the option is active. */
  lemma {:induction false} LastVerbDecides(v: Verbs, code: byte, s: OptionState, negs: seq<byte>)
    requires |negs| > 0
    ensures NegotiateAll(v, code, s, negs) == (if negs[|negs| - 1] == v.remotePositive then Active else Inactive)
    decreases |negs|
  {
    NegotiationSettles(v, code, s, negs[0]);
    if |negs| > 1 {
      LastVerbDecides(v, code, NegotiateSpec(v, code, s, negs[0]).state, negs[1..]);
    }
  }

  /**
   * A request made while one is pending is ignored rather than queued: a
   * deactivation asked for while activating is lost, and the later positive
   * reply leaves the option active.
   */
  lemma NoQueuedRequest(v: Verbs, code: byte)
    ensures var a := ActivateSpec(v, code, Inactive);
            var d := DeactivateSpec(v, code, a.state);
            var n := NegotiateSpec(v, code, d.state, v.remotePositive);
            d.events == [] && n.state == Active && n.events == [StateChanged]
  {
  }
}
