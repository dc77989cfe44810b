/**
 * The older variant of the option state machine.  It has the same four
 * states as the template, but sends before it switches state, signals when
 * a deactivation starts, and does not handle an activation requested while
 * deactivating or a deactivation requested while activating (both are
 * preconditions here).
 */
module DetailOption {
  import opened Protocol
  import opened OptionTemplate

  function DetailActivate(v: Verbs, code: byte, s: OptionState): Outcome
    requires s != Deactivating
  {
    match s
    case Inactive => Outcome(Activating, [Sent(Negotiation(v.localPositive, code))])
    case Activating => Outcome(s, [])
    case Active => Outcome(s, [StateChanged])
  }

  function DetailDeactivate(v: Verbs, code: byte, s: OptionState): Outcome
    requires s != Activating
  {
    match s
    case Active => Outcome(Deactivating, [Sent(Negotiation(v.localNegative, code)), StateChanged])
    case Deactivating => Outcome(s, [])
    case Inactive => Outcome(s, [StateChanged])
  }

  function DetailNegotiate(v: Verbs, code: byte, s: OptionState, neg: byte): Outcome
  {
    match s
    case Inactive =>
      if neg == v.remotePositive then
        Outcome(Active, [Sent(Negotiation(v.localPositive, code)), StateChanged])
      else
        Outcome(Inactive, [Sent(Negotiation(v.localNegative, code))])
    case Activating =>
      if neg == v.remotePositive then Outcome(Active, [StateChanged]) else Outcome(Inactive, [StateChanged])
    case Active =>
      if neg == v.remotePositive then
        Outcome(Active, [Sent(Negotiation(v.localPositive, code))])
      else
        Outcome(Inactive, [Sent(Negotiation(v.localNegative, code)), StateChanged])
    case Deactivating =>
      if neg == v.remotePositive then Outcome(Active, [StateChanged]) else Outcome(Inactive, [StateChanged])
  }

  class DetailOption {
    const code: byte
    const verbs: Verbs
    var state: OptionState
    /** Contents handed to the option-specific subnegotiation handler, oldest first. */
    var handled: seq<Bytes>

    constructor (verbs: Verbs, code: byte)
      ensures this.verbs == verbs && this.code == code
      ensures state == Inactive && handled == []
    {
      this.verbs := verbs;
      this.code := code;
      state := Inactive;
      handled := [];
    }

    function IsActive(): bool
      reads this
    {
      state == Active
    }

    method Activate() returns (events: seq<Event>)
      requires state != Deactivating
      modifies this`state
      ensures Outcome(state, events) == DetailActivate(verbs, code, old(state))
    {
      events := [];
      match state
      case Inactive =>
        events := events + [Sent(Negotiation(verbs.localPositive, code))];
        state := Activating;
      case Activating =>
      case Active =>
        events := events + [StateChanged];
    }

    method Deactivate() returns (events: seq<Event>)
      requires state != Activating
      modifies this`state
      ensures Outcome(state, events) == DetailDeactivate(verbs, code, old(state))
    {
      events := [];
      match state
      case Active =>
        events := events + [Sent(Negotiation(verbs.localNegative, code))];
        state := Deactivating;
        events := events + [StateChanged];
      case Deactivating =>
      case Inactive =>
        events := events + [StateChanged];
    }

    method Negotiate(neg: byte) returns (events: seq<Event>)
      modifies this`state
      ensures Outcome(state, events) == DetailNegotiate(verbs, code, old(state), neg)
    {
      events := [];
      match state
      case Inactive =>
        if neg == verbs.remotePositive {
          events := events + [Sent(Negotiation(verbs.localPositive, code))];
          state := Active;
          events := events + [StateChanged];
        } else {
          events := events + [Sent(Negotiation(verbs.localNegative, code))];
        }
      case Activating =>
        state := if neg == verbs.remotePositive then Active else Inactive;
        events := events + [StateChanged];
      case Active =>
        if neg == verbs.remotePositive {
          events := events + [Sent(Negotiation(verbs.localPositive, code))];
        } else {
          events := events + [Sent(Negotiation(verbs.localNegative, code))];
          state := Inactive;
          events := events + [StateChanged];
        }
      case Deactivating =>
        state := if neg == verbs.remotePositive then Active else Inactive;
        events := events + [StateChanged];
    }

    /** A subnegotiation is forwarded to the handler only while active. */
    method Subnegotiate(content: Bytes)
      modifies this`handled
      ensures handled == if state == Active then old(handled) + [content] else old(handled)
    {
      if state == Active {
        handled := handled + [content];
      }
    }
  }

  /**
   * Against the template: negotiation reaches the same state with the same
   * events, except that on a negative verb while active the refusal is sent
   * before the signal instead of after it.
   */
  lemma NegotiateMatchesTemplate(v: Verbs, code: byte, s: OptionState, neg: byte)
    ensures DetailNegotiate(v, code, s, neg).state == OptionTemplate.NegotiateSpec(v, code, s, neg).state
    ensures multiset(DetailNegotiate(v, code, s, neg).events) == multiset(OptionTemplate.NegotiateSpec(v, code, s, neg).events)
    ensures DetailNegotiate(v, code, s, neg).events != OptionTemplate.NegotiateSpec(v, code, s, neg).events
            <==> s == Active && neg != v.remotePositive
  {
  }

  /**
   * Against the template: activation agrees wherever it is defined;
   * deactivation agrees except that starting a deactivation also signals.
   */
  lemma RequestsMatchTemplate(v: Verbs, code: byte, s: OptionState)
    ensures s != Deactivating ==> DetailActivate(v, code, s) == OptionTemplate.ActivateSpec(v, code, s)
    ensures s != Activating && s != Active ==> DetailDeactivate(v, code, s) == OptionTemplate.DeactivateSpec(v, code, s)
    ensures s == Active ==>
      DetailDeactivate(v, code, s).events == OptionTemplate.DeactivateSpec(v, code, s).events + [StateChanged]
  {
  }

  /** Each call sends at most one negotiation, and none while a negotiation is pending. */
  lemma SendsAtMostOne(v: Verbs, code: byte, s: OptionState, neg: byte)
    ensures SentCount(DetailNegotiate(v, code, s, neg).events) <= 1
    ensures s != Deactivating ==> SentCount(DetailActivate(v, code, s).events) <= 1
    ensures s != Activating ==> SentCount(DetailDeactivate(v, code, s).events) <= 1
    ensures Pending(s) ==> SentCount(DetailNegotiate(v, code, s, neg).events) == 0
  {
  }
}
