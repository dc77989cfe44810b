/**
 * The server side of an option (the side that receives DO/DONT and answers
 * WILL/WONT), in the generation that returns the tokens to send.  It mirrors
 * the client side with the verbs swapped, except while activating, where
 * any request other than DO deactivates.
 */
module ServerOption {
  import opened Protocol
  import opened OptionTemplate
  import opened ClientOption

  function ServerActivate(s: OptionState, code: byte, signalOutput: seq<Token>): Reply
  {
    if s == Inactive then Reply(Activating, [Neg(WILL, code)], false)
    else if s == Active then Reply(s, signalOutput, true)
    else Reply(s, [], false)
  }

  function ServerDeactivate(s: OptionState, code: byte, signalOutput: seq<Token>): Reply
  {
    if s == Inactive then Reply(s, signalOutput, true)
    else if s == Active then Reply(Deactivating, [Neg(WONT, code)], false)
    else Reply(s, [], false)
  }

  function ServerNegotiate(s: OptionState, activatable: bool, code: byte, request: byte, signalOutput: seq<Token>): Reply
  {
    match s
    case Inactive =>
      if request == DO && activatable then Reply(Active, [Neg(WILL, code)] + signalOutput, true)
      else Reply(Inactive, [Neg(WONT, code)], false)
    case Activating =>
      if request == DO then Reply(Active, signalOutput, true)
      else Reply(Inactive, signalOutput, true)
    case Active =>
      if request == DO then Reply(Active, [Neg(WILL, code)], false)
      else Reply(Inactive, [Neg(WONT, code)], false)
    case Deactivating =>
      if request == DO then Reply(Active, signalOutput, true)
      else if request == DONT then Reply(Inactive, signalOutput, true)
      else Reply(s, [], false)
  }

  class ServerOption {
    const code: byte
    var state: OptionState
    var activatable: bool
    /** How many times the state-changed signal has fired. */
    var stateChanges: nat
    /** Contents handed to the subnegotiation handler, oldest first. */
    var handled: seq<Bytes>

    constructor (code: byte)
      ensures this.code == code
      ensures state == Inactive && !activatable && stateChanges == 0 && handled == []
    {
      this.code := code;
      state := Inactive;
      activatable := false;
      stateChanges := 0;
      handled := [];
    }

    method SetActivatable()
      modifies this`activatable
      ensures activatable
    {
      activatable := true;
    }

    function IsActive(): bool
      reads this
    {
      state == Active
    }

    method Activate(signalOutput: seq<Token>) returns (output: seq<Token>)
      modifies this`state, this`stateChanges
      ensures var r := ServerActivate(old(state), code, signalOutput);
              state == r.state && output == r.output
              && stateChanges == old(stateChanges) + (if r.signalled then 1 else 0)
    {
      if state == Inactive {
        state := Activating;
        output := [Neg(WILL, code)];
      } else if state == Active {
        stateChanges := stateChanges + 1;
        output := signalOutput;
      } else {
        output := [];
      }
    }

    method Deactivate(signalOutput: seq<Token>) returns (output: seq<Token>)
      modifies this`state, this`stateChanges
      ensures var r := ServerDeactivate(old(state), code, signalOutput);
              state == r.state && output == r.output
              && stateChanges == old(stateChanges) + (if r.signalled then 1 else 0)
    {
      if state == Inactive {
        stateChanges := stateChanges + 1;
        output := signalOutput;
        return;
      }
      if state == Active {
        state := Deactivating;
        output := [Neg(WONT, code)];
      } else {
        output := [];
      }
    }

    method Negotiate(request: byte, signalOutput: seq<Token>) returns (output: seq<Token>)
      modifies this`state, this`stateChanges
      ensures var r := ServerNegotiate(old(state), activatable, code, request, signalOutput);
              state == r.state && output == r.output
              && stateChanges == old(stateChanges) + (if r.signalled then 1 else 0)
    {
      output := [];
      match state
      case Inactive =>
        if request == DO && activatable {
          state := Active;
          stateChanges := stateChanges + 1;
          output := [Neg(WILL, code)] + signalOutput;
        } else {
          output := [Neg(WONT, code)];
        }
      case Activating =>
        state := if request == DO then Active else Inactive;
        stateChanges := stateChanges + 1;
        output := signalOutput;
      case Active =>
        if request == DO {
          output := [Neg(WILL, code)];
        } else {
          state := Inactive;
          output := [Neg(WONT, code)];
        }
      case Deactivating =>
        if request == DO {
          state := Active;
          stateChanges := stateChanges + 1;
          output := signalOutput;
        } else if request == DONT {
          state := Inactive;
          stateChanges := stateChanges + 1;
          output := signalOutput;
        }
    }

    method Subnegotiate(content: Bytes, handlerOutput: seq<Token>) returns (output: seq<Token>)
      modifies this`handled
      ensures output == (if state == Active then handlerOutput else [])
      ensures handled == (if state == Active then old(handled) + [content] else old(handled))
    {
      if state == Active {
        handled := handled + [content];
        output := handlerOutput;
      } else {
        output := [];
      }
    }
  }

  /** The WILL/WONT/DO/DONT mirror image of a reply token. */
  function Mirror(t: Token): Token
  {
    match t
    case Elem(Negotiation(verb, option)) =>
      Elem(Negotiation(if verb == WILL then DO else if verb == WONT then DONT
                       else if verb == DO then WILL else if verb == DONT then WONT else verb, option))
    case _ => t
  }

  /**
   * The server side is the client side with the verbs swapped, except that
   * while activating a request that is neither DO nor DONT deactivates the
   * server where the client would ignore the mirrored request.  From an
   * inactive or active state the reply leads with the option's own
   * negotiation, whose verb is swapped; while the option is settling, the
   * two send the same signal output.
   */
  lemma MirrorsClient(s: OptionState, activatable: bool, code: byte, request: byte, signalOutput: seq<Token>)
    requires request != WILL && request != WONT
    ensures var mirrored := if request == DO then WILL else if request == DONT then WONT else request;
            var c := ClientNegotiate(s, activatable, code, mirrored, signalOutput);
            var r := ServerNegotiate(s, activatable, code, request, signalOutput);
            (s == Activating && request != DO && request != DONT) ||
            (&& r.state == c.state && r.signalled == c.signalled
             && (s == Inactive || s == Active ==> c.output != [] && r.output == [Mirror(c.output[0])] + c.output[1..])
             && (s == Activating || s == Deactivating ==> r.output == c.output))
  {
  }

  /** While activating, every request settles the option, with the signal. */
  lemma ActivatingAlwaysSettles(activatable: bool, code: byte, request: byte, signalOutput: seq<Token>)
    ensures var r := ServerNegotiate(Activating, activatable, code, request, signalOutput);
            r.signalled && (r.state == Active <==> request == DO) && r.state != Activating
  {
  }

  /** An unsolicited DO is accepted only when activatable, WILL coming before the signal output. */
  lemma UnsolicitedDo(activatable: bool, code: byte, signalOutput: seq<Token>)
    ensures var r := ServerNegotiate(Inactive, activatable, code, DO, signalOutput);
            (r.state == Active <==> activatable)
            && r.output == (if activatable then [Neg(WILL, code)] + signalOutput else [Neg(WONT, code)])
  {
  }

  /**
   * Leaving the active state on a refusal, or starting a deactivation,
   * does not fire the signal.
   */
  lemma DeactivationIsSilent(activatable: bool, code: byte, request: byte, signalOutput: seq<Token>)
    requires request != DO
    ensures !ServerNegotiate(Active, activatable, code, request, signalOutput).signalled
    ensures ServerNegotiate(Active, activatable, code, request, signalOutput).state == Inactive
    ensures !ServerDeactivate(Active, code, signalOutput).signalled
  {
  }
}
