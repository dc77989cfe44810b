/**
 * Dispatch of one parsed element by its kind: text to the text handler,
 * commands, negotiations and subnegotiations to their routers.  A router
 * is its table of routes and its fallback; running the selected handler is
 * a parameter (`runCommand`, `runNegotiation`), since the handlers are the
 * user's closures.
 */
module RoutingVisitor {
  import opened Protocol
  import opened Routing

  datatype Routes<CH, NH, SH> = Routes(
    commands: map<byte, CH>, commandFallback: Option<CH>,
    negotiations: map<NegotiationKey, NH>, negotiationFallback: Option<NH>,
    subnegotiations: map<byte, SH>, subnegotiationFallback: Option<SH>)

  /** Which sink an element reaches and, for a router, which of its handlers runs. */
  datatype Taken<CH, NH, SH> =
    | TextTaken(handled: bool)
    | CommandTaken(command: Option<CH>)
    | NegotiationTaken(negotiation: Option<NH>)
    | SubnegotiationTaken(subnegotiation: Option<SH>)

  function Route<CH, NH, SH>(e: Element, hasOnText: bool, r: Routes<CH, NH, SH>): Taken<CH, NH, SH>
  {
    match e
    case Data(_) => TextTaken(hasOnText)
    case Command(code) => CommandTaken(Select(r.commands, r.commandFallback, KeyOfCommand(code)))
    case Negotiation(request, option) =>
      NegotiationTaken(Select(r.negotiations, r.negotiationFallback, KeyOfNegotiation(request, option)))
    case Subnegotiation(option, content) =>
      SubnegotiationTaken(Select(r.subnegotiations, r.subnegotiationFallback, KeyOfSubnegotiation(option, content)))
  }

  /**
   * The tokens the visitor returns for an element.  Tokens come only from
   * a handler that runs: a subnegotiation, text without a text handler, and
   * a command or negotiation with neither a route of its own nor a
   * fallback all return nothing.
   */
  function Visit<CH, NH, SH>(
    e: Element, onText: Option<Bytes -> seq<Token>>, r: Routes<CH, NH, SH>,
    runCommand: (CH, byte) -> seq<Token>, runNegotiation: (NH, byte, byte) -> seq<Token>): (v: seq<Token>)
    ensures e.Subnegotiation? ==> v == []
    ensures e.Data? && onText.None? ==> v == []
    ensures e.Command? && e.code !in r.commands && r.commandFallback.None? ==> v == []
    ensures e.Negotiation? && NegotiationKey(e.request, e.option) !in r.negotiations && r.negotiationFallback.None? ==>
              v == []
  {
    match Route(e, onText.Some?, r)
    case TextTaken(handled) => if handled then onText.value(e.bytes) else []
    case CommandTaken(h) => if h.Some? then runCommand(h.value, e.code) else []
    case NegotiationTaken(h) => if h.Some? then runNegotiation(h.value, e.request, e.option) else []
    case SubnegotiationTaken(_) => []
  }

  /**
   * Text goes to the text handler and returns its result, or nothing when
   * there is none; a command or negotiation returns what its own route's
   * handler returns, or else its router's fallback's, or nothing when
   * neither exists; a
   * subnegotiation is routed, but the visit always returns nothing.
   */
  lemma VisitResults<CH, NH, SH>(
    e: Element, onText: Option<Bytes -> seq<Token>>, r: Routes<CH, NH, SH>,
    runCommand: (CH, byte) -> seq<Token>, runNegotiation: (NH, byte, byte) -> seq<Token>)
    ensures var v := Visit(e, onText, r, runCommand, runNegotiation);
            && (e.Data? ==> v == (if onText.Some? then onText.value(e.bytes) else []))
            && (e.Command? ==> v == (if e.code in r.commands then runCommand(r.commands[e.code], e.code)
                                     else if r.commandFallback.Some? then runCommand(r.commandFallback.value, e.code)
                                     else []))
            && (e.Negotiation? && NegotiationKey(e.request, e.option) in r.negotiations ==>
                  v == runNegotiation(r.negotiations[NegotiationKey(e.request, e.option)], e.request, e.option))
            && (e.Negotiation? && NegotiationKey(e.request, e.option) !in r.negotiations ==>
                  v == (if r.negotiationFallback.Some? then runNegotiation(r.negotiationFallback.value, e.request, e.option)
                        else []))
            && (e.Subnegotiation? ==> v == [])
  {
  }

  /** Every element is handed to the sink of its own kind and to no other. */
  lemma OneSinkPerKind<CH, NH, SH>(e: Element, hasOnText: bool, r: Routes<CH, NH, SH>)
    ensures var t := Route(e, hasOnText, r);
            && (t.TextTaken? <==> e.Data?)
            && (t.CommandTaken? <==> e.Command?)
            && (t.NegotiationTaken? <==> e.Negotiation?)
            && (t.SubnegotiationTaken? <==> e.Subnegotiation?)
            && (e.Subnegotiation? ==> t.subnegotiation == Select(r.subnegotiations, r.subnegotiationFallback, e.option))
  {
  }
}
