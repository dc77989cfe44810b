/**
 * A keyed table of routes with an optional fallback route.  Each message is
 * reduced to a key; a registered key selects its handler, an unregistered
 * one the fallback, and with neither the default result is returned.
 * Handlers are values of the type parameter `H` (the closures of the
 * library become datatypes describing what they call).
 */
module Routing {
  import opened Protocol

  /** The handler a key selects: its own route, else the fallback, else none. */
  function Select<K, H>(routes: map<K, H>, fallback: Option<H>, key: K): Option<H>
  {
    if key in routes then Some(routes[key]) else fallback
  }

  class Router<K(==), H> {
    var routes: map<K, H>
    var fallback: Option<H>

    constructor ()
      ensures routes == map[] && fallback == None
    {
      routes := map[];
      fallback := None;
    }

    /** Registers (or replaces) the route for `key`. */
    method RegisterRoute(key: K, handler: H)
      modifies this`routes
      ensures routes == old(routes)[key := handler]
    {
      routes := routes[key := handler];
    }

    /** Removes the route for `key`, if there was one. */
    method UnregisterRoute(key: K)
      modifies this`routes
      ensures routes == old(routes) - {key}
    {
      routes := routes - {key};
    }

    /** Sets the route taken by messages whose key has no route of its own. */
    method SetUnregisteredRoute(handler: H)
      modifies this`fallback
      ensures fallback == Some(handler)
    {
      fallback := Some(handler);
    }

    /**
     * Routing a message reads the table and changes nothing; `None` stands
     * for "no handler ran, the default-constructed result is returned".
     */
    method Route(key: K) returns (taken: Option<H>)
      ensures taken == Select(routes, fallback, key)
      ensures taken.Some? <==> key in routes || fallback.Some?
      ensures key in routes ==> taken == Some(routes[key])
    {
      if key in routes {
        taken := Some(routes[key]);
      } else {
        taken := fallback;
      }
    }
  }

  // Keys of the three routers: a negotiation is keyed by verb and option
  // together, a subnegotiation by its option, a command by its code.

  datatype NegotiationKey = NegotiationKey(request: byte, option: byte)

  function KeyOfNegotiation(request: byte, option: byte): NegotiationKey
  {
    NegotiationKey(request, option)
  }

  function KeyOfSubnegotiation(option: byte, content: Bytes): byte
  {
    option
  }

  function KeyOfCommand(code: byte): byte
  {
    code
  }

  /** A registered key is routed to its own handler only, whatever the fallback. */
  lemma RegisteredWins<K, H>(routes: map<K, H>, fallback: Option<H>, key: K)
    requires key in routes
    ensures Select(routes, fallback, key) == Some(routes[key])
    ensures forall f: Option<H> :: Select(routes, f, key) == Select(routes, fallback, key)
  {
  }

  /** An unregistered key takes the fallback route, and none when there is no fallback. */
  lemma UnregisteredTakesFallback<K, H>(routes: map<K, H>, fallback: Option<H>, key: K)
    requires key !in routes
    ensures Select(routes, fallback, key) == fallback
    ensures fallback.None? ==> Select(routes, fallback, key).None?
  {
  }

  /** Registering replaces the handler for that key and leaves every other key's route alone. */
  lemma RegisterReplaces<K, H>(routes: map<K, H>, fallback: Option<H>, key: K, handler: H, other: K)
    ensures Select(routes[key := handler], fallback, key) == Some(handler)
    ensures other != key ==> Select(routes[key := handler], fallback, other) == Select(routes, fallback, other)
  {
  }

  /** After unregistering, the key takes the fallback; other keys are unaffected. */
  lemma UnregisterFallsBack<K, H>(routes: map<K, H>, fallback: Option<H>, key: K, other: K)
    ensures Select(routes - {key}, fallback, key) == fallback
    ensures other != key ==> Select(routes - {key}, fallback, other) == Select(routes, fallback, other)
  {
  }

  /**
   * Negotiations are keyed by verb and option together, so a route for
   * WILL on some option is never taken by WONT on the same option.
   */
  lemma VerbsRouteSeparately<H>(routes: map<NegotiationKey, H>, fallback: Option<H>, option: byte, handler: H)
    requires routes == map[KeyOfNegotiation(WILL, option) := handler]
    ensures Select(routes, fallback, KeyOfNegotiation(WILL, option)) == Some(handler)
    ensures Select(routes, fallback, KeyOfNegotiation(WONT, option)) == fallback
  {
  }
}
