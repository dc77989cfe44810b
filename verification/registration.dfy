/**
 * Installing an option in the negotiation and subnegotiation routers.  The
 * closures the library registers become handler values: `ToOption(slot,
 * request)` calls `negotiate(request)` on the option identified by `slot`,
 * `ContentToOption(slot)` hands a subnegotiation's content to that option,
 * and `Refuse` is the session's default answer for unknown options.
 */
module Registration {
  import opened Protocol
  import opened Routing

  datatype NegotiationHandler =
    | ToOption(slot: nat, request: byte)
    | Refuse

  datatype SubnegotiationHandler = ContentToOption(slot: nat)

  /** What running a handler on a message amounts to. */
  datatype Call =
    | NegotiateCall(slot: nat, request: byte)
    | SubnegotiateCall(slot: nat, content: Bytes)
    | RefuseCall(request: byte, option: byte)

  /** A negotiation route calls `negotiate` with the verb it was registered for. */
  function NegotiationCall(h: NegotiationHandler, request: byte, option: byte): Call
  {
    match h
    case ToOption(slot, registered) => NegotiateCall(slot, registered)
    case Refuse => RefuseCall(request, option)
  }

  /** A subnegotiation route forwards only the content. */
  function SubnegotiationCall(h: SubnegotiationHandler, option: byte, content: Bytes): Call
  {
    SubnegotiateCall(h.slot, content)
  }

  /** Every negotiation route to an option was registered under the verb it will pass on. */
  predicate Consistent(routes: map<NegotiationKey, NegotiationHandler>)
  {
    forall k :: k in routes && routes[k].ToOption? ==> routes[k].request == k.request
  }

  function WithNegotiationRoute(routes: map<NegotiationKey, NegotiationHandler>, request: byte, code: byte, slot: nat)
    : map<NegotiationKey, NegotiationHandler>
  {
    routes[KeyOfNegotiation(request, code) := ToOption(slot, request)]
  }

  /** The negotiation routes after installing a client option: WILL and WONT for its code. */
  function ClientRoutes(routes: map<NegotiationKey, NegotiationHandler>, code: byte, slot: nat)
    : map<NegotiationKey, NegotiationHandler>
  {
    WithNegotiationRoute(WithNegotiationRoute(routes, WILL, code, slot), WONT, code, slot)
  }

  /** The negotiation routes after installing a server option: DO and DONT for its code. */
  function ServerRoutes(routes: map<NegotiationKey, NegotiationHandler>, code: byte, slot: nat)
    : map<NegotiationKey, NegotiationHandler>
  {
    WithNegotiationRoute(WithNegotiationRoute(routes, DO, code, slot), DONT, code, slot)
  }

  method RegisterRouteFromNegotiationToOption(
    router: Router<NegotiationKey, NegotiationHandler>, request: byte, code: byte, slot: nat)
    modifies router`routes
    ensures router.routes == WithNegotiationRoute(old(router.routes), request, code, slot)
  {
    router.RegisterRoute(KeyOfNegotiation(request, code), ToOption(slot, request));
  }

  method RegisterRouteFromSubnegotiationToOption(
    router: Router<byte, SubnegotiationHandler>, code: byte, slot: nat)
    modifies router`routes
    ensures router.routes == old(router.routes)[code := ContentToOption(slot)]
  {
    router.RegisterRoute(code, ContentToOption(slot));
  }

  method RegisterClientOption(
    code: byte, slot: nat,
    negotiations: Router<NegotiationKey, NegotiationHandler>,
    subnegotiations: Router<byte, SubnegotiationHandler>)
    modifies negotiations`routes, subnegotiations`routes
    ensures negotiations.routes == ClientRoutes(old(negotiations.routes), code, slot)
    ensures subnegotiations.routes == old(subnegotiations.routes)[code := ContentToOption(slot)]
  {
    RegisterRouteFromNegotiationToOption(negotiations, WILL, code, slot);
    RegisterRouteFromNegotiationToOption(negotiations, WONT, code, slot);
    RegisterRouteFromSubnegotiationToOption(subnegotiations, code, slot);
  }

  method RegisterServerOption(
    code: byte, slot: nat,
    negotiations: Router<NegotiationKey, NegotiationHandler>,
    subnegotiations: Router<byte, SubnegotiationHandler>)
    modifies negotiations`routes, subnegotiations`routes
    ensures negotiations.routes == ServerRoutes(old(negotiations.routes), code, slot)
    ensures subnegotiations.routes == old(subnegotiations.routes)[code := ContentToOption(slot)]
  {
    RegisterRouteFromNegotiationToOption(negotiations, DO, code, slot);
    RegisterRouteFromNegotiationToOption(negotiations, DONT, code, slot);
    RegisterRouteFromSubnegotiationToOption(subnegotiations, code, slot);
  }

  /** A registered route always hands the option the verb of the message that took it. */
  lemma RegistrationKeepsConsistent(routes: map<NegotiationKey, NegotiationHandler>, request: byte, code: byte, slot: nat)
    requires Consistent(routes)
    ensures Consistent(WithNegotiationRoute(routes, request, code, slot))
    ensures var h := Select(WithNegotiationRoute(routes, request, code, slot), None, KeyOfNegotiation(request, code));
            h.Some? && NegotiationCall(h.value, request, code) == NegotiateCall(slot, request)
  {
  }

  /**
   * Installing a client option routes WILL and WONT for its code to it and
   * leaves every other negotiation, DO and DONT for the same code included,
   * where it was.
   */
  lemma ClientReceivesWillWont(routes: map<NegotiationKey, NegotiationHandler>, fallback: Option<NegotiationHandler>,
                               code: byte, slot: nat, request: byte, option: byte)
    ensures var after := Select(ClientRoutes(routes, code, slot), fallback, KeyOfNegotiation(request, option));
            if option == code && (request == WILL || request == WONT) then after == Some(ToOption(slot, request))
            else after == Select(routes, fallback, KeyOfNegotiation(request, option))
  {
  }

  /** Installing a server option routes DO and DONT for its code to it and nothing else. */
  lemma ServerReceivesDoDont(routes: map<NegotiationKey, NegotiationHandler>, fallback: Option<NegotiationHandler>,
                             code: byte, slot: nat, request: byte, option: byte)
    ensures var after := Select(ServerRoutes(routes, code, slot), fallback, KeyOfNegotiation(request, option));
            if option == code && (request == DO || request == DONT) then after == Some(ToOption(slot, request))
            else after == Select(routes, fallback, KeyOfNegotiation(request, option))
  {
  }

  /**
   * With only a client option installed for a code, a DO for that code is
   * not routed to the option: it takes the fallback.
   */
  lemma DoForClientOnlyTakesFallback(code: byte, slot: nat, fallback: Option<NegotiationHandler>)
    ensures Select(ClientRoutes(map[], code, slot), fallback, KeyOfNegotiation(DO, code)) == fallback
    ensures Select(ClientRoutes(map[], code, slot), fallback, KeyOfNegotiation(DONT, code)) == fallback
  {
  }

  /**
   * A client and a server option with the same code can both be installed:
   * each keeps its own verbs, and the one installed later owns the
   * subnegotiations for the code.
   */
  lemma LaterInstallOwnsSubnegotiation(routes: map<NegotiationKey, NegotiationHandler>, subRoutes: map<byte, SubnegotiationHandler>,
                                       code: byte, first: nat, second: nat, content: Bytes)
    ensures var negs := ServerRoutes(ClientRoutes(routes, code, first), code, second);
            var subs := subRoutes[code := ContentToOption(first)][code := ContentToOption(second)];
            && Select(negs, None, KeyOfNegotiation(WILL, code)) == Some(ToOption(first, WILL))
            && Select(negs, None, KeyOfNegotiation(DO, code)) == Some(ToOption(second, DO))
            && Select(subs, None, code).Some?
            && SubnegotiationCall(Select(subs, None, code).value, code, content) == SubnegotiateCall(second, content)
  {
  }
}
