/**
 * The client side of an option (the side that receives WILL/WONT and
 * answers DO/DONT), in the generation that returns the tokens to send.  The
 * state-changed signal is modelled by the `signalOutput` parameter (what
 * the connected slots return when it fires) and a firing counter.
 */
module ClientOption {
  import opened Protocol
  import opened OptionTemplate

  /** New state, tokens returned, and whether the state-changed signal fired. */
  datatype Reply = Reply(state: OptionState, output: seq<Token>, signalled: bool)

  function Neg(verb: byte, code: byte): Token
  {
    Elem(Negotiation(verb, code))
  }

  function ClientActivate(s: OptionState, code: byte, signalOutput: seq<Token>): Reply
  {
    if s == Inactive then Reply(Activating, [Neg(DO, code)], false)
    else if s == Active then Reply(s, signalOutput, true)
    else Reply(s, [], false)
  }

  function ClientDeactivate(s: OptionState, code: byte, signalOutput: seq<Token>): Reply
  {
    if s == Inactive then Reply(s, signalOutput, true)
    else if s == Active then Reply(Deactivating, [Neg(DONT, code)], false)
    else Reply(s, [], false)
  }

  function ClientNegotiate(s: OptionState, activatable: bool, code: byte, request: byte, signalOutput: seq<Token>): Reply
  {
    match s
    case Inactive =>
      if request == WILL && activatable then Reply(Active, [Neg(DO, code)] + signalOutput, true)
      else Reply(Inactive, [Neg(DONT, code)], false)
    case Activating =>
      if request == WILL then Reply(Active, signalOutput, true)
      else if request == WONT then Reply(Inactive, signalOutput, true)
      else Reply(s, [], false)
    case Active =>
      if request == WILL then Reply(Active, [Neg(DO, code)], false)
      else Reply(Inactive, [Neg(DONT, code)], false)
    case Deactivating =>
      if request == WILL then Reply(Active, signalOutput, true)
      else if request == WONT then Reply(Inactive, signalOutput, true)
      else Reply(s, [], false)
  }

  class ClientOption {
    const code: byte
    var state: OptionState
    var activatable: bool
    /** How many times the state-changed signal has fired. */
    var stateChanges: nat
    /** Contents handed to the subnegotiation handler, oldest first. */
    var handled: seq<Bytes>

    constructor (code: byte)
      ensures this.code == code
      ensures state == Inactive && !activatable && stateChanges == 0 && handled == []
    {
      this.code := code;
      state := Inactive;
      activatable := false;
      stateChanges := 0;
      handled := [];
    }

    method SetActivatable()
      modifies this`activatable
      ensures activatable
    {
      activatable := true;
    }

    function IsActive(): bool
      reads this
    {
      state == Active
    }

    method Activate(signalOutput: seq<Token>) returns (output: seq<Token>)
      modifies this`state, this`stateChanges
      ensures var r := ClientActivate(old(state), code, signalOutput);
              state == r.state && output == r.output
              && stateChanges == old(stateChanges) + (if r.signalled then 1 else 0)
    {
      if state == Inactive {
        state := Activating;
        output := [Neg(DO, code)];
      } else if state == Active {
        stateChanges := stateChanges + 1;
        output := signalOutput;
      } else {
        output := [];
      }
    }

    method Deactivate(signalOutput: seq<Token>) returns (output: seq<Token>)
      modifies this`state, this`stateChanges
      ensures var r := ClientDeactivate(old(state), code, signalOutput);
              state == r.state && output == r.output
              && stateChanges == old(stateChanges) + (if r.signalled then 1 else 0)
    {
      if state == Inactive {
        stateChanges := stateChanges + 1;
        output := signalOutput;
        return;
      }
      if state == Active {
        state := Deactivating;
        output := [Neg(DONT, code)];
      } else {
        output := [];
      }
    }

    method Negotiate(request: byte, signalOutput: seq<Token>) returns (output: seq<Token>)
      modifies this`state, this`stateChanges
      ensures var r := ClientNegotiate(old(state), activatable, code, request, signalOutput);
              state == r.state && output == r.output
              && stateChanges == old(stateChanges) + (if r.signalled then 1 else 0)
    {
      match state
      case Inactive =>
        if request == WILL && activatable {
          state := Active;
          stateChanges := stateChanges + 1;
          var response := signalOutput;
          output := [Neg(DO, code)] + response;
        } else {
          output := [Neg(DONT, code)];
        }
      case Activating =>
        if request == WILL {
          state := Active;
          stateChanges := stateChanges + 1;
          output := signalOutput;
        } else if request == WONT {
          state := Inactive;
          stateChanges := stateChanges + 1;
          output := signalOutput;
        } else {
          output := [];
        }
      case Active =>
        if request == WILL {
          output := [Neg(DO, code)];
        } else {
          state := Inactive;
          output := [Neg(DONT, code)];
        }
      case Deactivating =>
        if request == WILL {
          state := Active;
          stateChanges := stateChanges + 1;
          output := signalOutput;
        } else if request == WONT {
          state := Inactive;
          stateChanges := stateChanges + 1;
          output := signalOutput;
        } else {
          output := [];
        }
    }

    /**
     * A subnegotiation is handed to the handler only while active; its
     * output is `handlerOutput` (the default handler returns nothing).
     */
    method Subnegotiate(content: Bytes, handlerOutput: seq<Token>) returns (output: seq<Token>)
      modifies this`handled
      ensures output == (if state == Active then handlerOutput else [])
      ensures handled == (if state == Active then old(handled) + [content] else old(handled))
    {
      if state == Active {
        handled := handled + [content];
        output := handlerOutput;
      } else {
        output := [];
      }
    }
  }

  /**
   * An unsolicited WILL is accepted only when the option is activatable:
   * then DO is placed before the signal output; otherwise the answer is DONT
   * and nothing changes.
   */
  lemma UnsolicitedWill(activatable: bool, code: byte, signalOutput: seq<Token>)
    ensures var r := ClientNegotiate(Inactive, activatable, code, WILL, signalOutput);
            (r.state == Active <==> activatable)
            && r.output == (if activatable then [Neg(DO, code)] + signalOutput else [Neg(DONT, code)])
            && r.signalled == activatable
  {
  }

  /**
   * The signal fires only on a real change of state.  The one change that
   * goes unsignalled is a refusal received while active.
   */
  lemma SignalOnlyOnChange(s: OptionState, activatable: bool, code: byte, request: byte, signalOutput: seq<Token>)
    ensures var r := ClientNegotiate(s, activatable, code, request, signalOutput);
            (r.signalled ==> r.state != s)
            && (r.state != s && !r.signalled <==> s == Active && request != WILL)
  {
  }

  /**
   * After a negotiation the option is active exactly when the request was
   * WILL (and, from inactive, the option was activatable); a byte that is
   * neither WILL nor WONT leaves a pending negotiation pending.
   */
  lemma NegotiationOutcome(s: OptionState, activatable: bool, code: byte, request: byte, signalOutput: seq<Token>)
    ensures var r := ClientNegotiate(s, activatable, code, request, signalOutput);
            (r.state == Active <==> request == WILL && (s != Inactive || activatable))
            && (Pending(s) && request != WILL && request != WONT ==> r.state == s && r.output == [])
  {
  }

  /** A reply, when there is one, comes first and answers for this option with DO or DONT. */
  lemma RepliesOwnVerbs(s: OptionState, activatable: bool, code: byte, request: byte, signalOutput: seq<Token>)
    ensures var r := ClientNegotiate(s, activatable, code, request, signalOutput);
            r.output == signalOutput
            || r.output == []
            || r.output == [Neg(DO, code)] + signalOutput
            || r.output == [Neg(DO, code)]
            || r.output == [Neg(DONT, code)]
  {
  }
}
