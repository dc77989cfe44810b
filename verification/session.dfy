/**
 * A Telnet session: the parser state carried from one received chunk to
 * the next, the three routers, the installed options and the channel.  The
 * channel is two logs: the bytes written to it and the byte runs handed to
 * the read callback.  Installed options are held by the session as values
 * (their state, activatable flag and received subnegotiations), addressed
 * by the slot that their routes name.
 *
 * The pure part (`Dispatch`, `DispatchAll`, `Receive`, `ReceiveAll`) is the
 * specification; the class `Session` is proved against it.
 */
module Session {
  import opened Protocol
  import opened ParseHelper
  import opened Parser
  import GenerateHelper
  import Generator
  import DetailGenerator
  import opened OptionTemplate
  import ClientOption
  import ServerOption
  import opened Routing
  import opened Registration

  datatype Side = ClientSide | ServerSide

  /** An installed option, as the session holds it. */
  datatype InstalledOption = InstalledOption(
    side: Side, code: byte, state: OptionState, activatable: bool, handled: seq<Bytes>)

  /** A command handed to the command handler installed as `handler`. */
  datatype CommandCall = CommandCall(handler: nat, code: byte)

  /** Everything the received elements can affect. */
  datatype Sinks = Sinks(options: seq<InstalledOption>, written: Bytes, delivered: seq<Bytes>, commands: seq<CommandCall>)

  /**
   * The routes of the three routers.  The fallbacks are fixed by the
   * session: `Refuse` for negotiations, none for commands and
   * subnegotiations.
   */
  datatype Tables = Tables(
    commands: map<byte, nat>,
    negotiations: map<NegotiationKey, NegotiationHandler>,
    subnegotiations: map<byte, SubnegotiationHandler>)

  /** The default answer for an option nobody installed: DONT to WILL/WONT, WONT to DO/DONT. */
  function RefusalVerb(request: byte): byte
  {
    if request == WILL || request == WONT then DONT else WONT
  }

  /** The bytes an option's reply tokens put on the channel. */
  function ReplyBytes(tokens: seq<Token>): Bytes
  {
    Generator.EncodeAll(DetailGenerator.ElementsOf(tokens))
  }

  /** An installed option's answer to a negotiation (no slot is connected to its signal). */
  function NegotiateOption(o: InstalledOption, request: byte): ClientOption.Reply
  {
    match o.side
    case ClientSide => ClientOption.ClientNegotiate(o.state, o.activatable, o.code, request, [])
    case ServerSide => ServerOption.ServerNegotiate(o.state, o.activatable, o.code, request, [])
  }

  /** An installed option receives subnegotiation content only while active. */
  function SubnegotiateOption(o: InstalledOption, content: Bytes): InstalledOption
  {
    if o.state == Active then o.(handled := o.handled + [content]) else o
  }

  /** The effect of one parsed element on the sinks. */
  function Dispatch(tables: Tables, s: Sinks, e: Element): Sinks
  {
    match e
    case Data(bytes) => s.(delivered := s.delivered + [bytes])
    case Command(code) =>
      (match Select(tables.commands, None, KeyOfCommand(code))
       case Some(h) => s.(commands := s.commands + [CommandCall(h, code)])
       case None => s)
    case Negotiation(request, option) =>
      var h: Option<NegotiationHandler> := Select(tables.negotiations, Some(Refuse), KeyOfNegotiation(request, option));
      (match h
       case Some(ToOption(slot, registered)) =>
         if slot < |s.options| then
           var r := NegotiateOption(s.options[slot], registered);
           s.(options := s.options[slot := s.options[slot].(state := r.state)],
              written := s.written + ReplyBytes(r.output))
         else s
       case Some(Refuse) =>
         s.(written := s.written + GenerateHelper.Encode(Negotiation(RefusalVerb(request), option)))
       case None => s)
    case Subnegotiation(option, content) =>
      var h: Option<SubnegotiationHandler> := Select(tables.subnegotiations, None, KeyOfSubnegotiation(option, content));
      match h
      case Some(ContentToOption(slot)) =>
        if slot < |s.options| then s.(options := s.options[slot := SubnegotiateOption(s.options[slot], content)])
        else s
      case None => s
  }

  function DispatchAll(tables: Tables, s: Sinks, es: seq<Element>): Sinks
    decreases |es|
  {
    if |es| == 0 then s else Dispatch(tables, DispatchAll(tables, s, es[..|es| - 1]), es[|es| - 1])
  }

  datatype Received = Received(temps: Temps, sinks: Sinks)

  /**
   * One chunk: the carried temporaries parse it, the completed elements are
   * dispatched in order and taken out of the temporaries, and the read
   * callback then gets an empty run as the completion marker.
   */
  function Receive(tables: Tables, t: Temps, s: Sinks, chunk: Bytes): Received
  {
    var u := Run(t, chunk);
    var d := DispatchAll(tables, s, u.elements);
    Received(u.(elements := []), d.(delivered := d.delivered + [[]]))
  }

  function ReceiveAll(tables: Tables, t: Temps, s: Sinks, chunks: seq<Bytes>): Received
    decreases |chunks|
  {
    if |chunks| == 0 then Received(t, s)
    else
      var r := ReceiveAll(tables, t, s, chunks[..|chunks| - 1]);
      Receive(tables, r.temps, r.sinks, chunks[|chunks| - 1])
  }

  class Session {
    const parser: ParseTemps
    const commandRouter: Router<byte, nat>
    const negotiationRouter: Router<NegotiationKey, NegotiationHandler>
    const subnegotiationRouter: Router<byte, SubnegotiationHandler>
    var options: seq<InstalledOption>
    var written: Bytes
    var delivered: seq<Bytes>
    var commands: seq<CommandCall>

    /** Between chunks the parser holds no elements, and the fallbacks are the session's. */
    predicate Valid()
      reads this, parser, commandRouter, negotiationRouter, subnegotiationRouter
    {
      && parser.elements == []
      && commandRouter.fallback == None
      && negotiationRouter.fallback == Some(Refuse)
      && subnegotiationRouter.fallback == None
    }

    function TablesOf(): Tables
      reads this, commandRouter, negotiationRouter, subnegotiationRouter
    {
      Tables(commandRouter.routes, negotiationRouter.routes, subnegotiationRouter.routes)
    }

    function SinksOf(): Sinks
      reads this
    {
      Sinks(options, written, delivered, commands)
    }

    constructor ()
      ensures Valid()
      ensures parser.Snapshot() == Fresh
      ensures TablesOf() == Tables(map[], map[], map[])
      ensures SinksOf() == Sinks([], [], [], [])
    {
      parser := new ParseTemps();
      commandRouter := new Router();
      negotiationRouter := new Router();
      subnegotiationRouter := new Router();
      options := [];
      written := [];
      delivered := [];
      commands := [];
      new;
      negotiationRouter.SetUnregisteredRoute(Refuse);
    }

    /** Writes the generator's encoding of an element to the channel. */
    method Write(e: Element)
      modifies this`written
      ensures written == old(written) + GenerateHelper.Encode(e)
    {
      written := GenerateHelper.Generate(written, e);
    }

    method InstallCommand(code: byte, handler: nat)
      modifies commandRouter`routes
      ensures commandRouter.routes == old(commandRouter.routes)[code := handler]
    {
      commandRouter.RegisterRoute(KeyOfCommand(code), handler);
    }

    method InstallClientOption(code: byte, state: OptionState, activatable: bool) returns (slot: nat)
      modifies this`options, negotiationRouter`routes, subnegotiationRouter`routes
      ensures slot == |old(options)|
      ensures options == old(options) + [InstalledOption(ClientSide, code, state, activatable, [])]
      ensures negotiationRouter.routes == ClientRoutes(old(negotiationRouter.routes), code, slot)
      ensures subnegotiationRouter.routes == old(subnegotiationRouter.routes)[code := ContentToOption(slot)]
    {
      slot := |options|;
      options := options + [InstalledOption(ClientSide, code, state, activatable, [])];
      RegisterClientOption(code, slot, negotiationRouter, subnegotiationRouter);
    }

    method InstallServerOption(code: byte, state: OptionState, activatable: bool) returns (slot: nat)
      modifies this`options, negotiationRouter`routes, subnegotiationRouter`routes
      ensures slot == |old(options)|
      ensures options == old(options) + [InstalledOption(ServerSide, code, state, activatable, [])]
      ensures negotiationRouter.routes == ServerRoutes(old(negotiationRouter.routes), code, slot)
      ensures subnegotiationRouter.routes == old(subnegotiationRouter.routes)[code := ContentToOption(slot)]
    {
      slot := |options|;
      options := options + [InstalledOption(ServerSide, code, state, activatable, [])];
      RegisterServerOption(code, slot, negotiationRouter, subnegotiationRouter);
    }

    /** Hands one element to its sink. */
    method DispatchElement(e: Element)
      requires Valid()
      modifies this`options, this`written, this`delivered, this`commands
      ensures SinksOf() == Dispatch(TablesOf(), old(SinksOf()), e)
    {
      match e
      case Data(bytes) =>
        delivered := delivered + [bytes];
      case Command(code) =>
        var h := commandRouter.Route(KeyOfCommand(code));
        if h.Some? {
          commands := commands + [CommandCall(h.value, code)];
        }
      case Negotiation(request, option) =>
        var h := negotiationRouter.Route(KeyOfNegotiation(request, option));
        if h.Some? {
          match h.value
          case ToOption(slot, registered) =>
            if slot < |options| {
              var r := NegotiateOption(options[slot], registered);
              options := options[slot := options[slot].(state := r.state)];
              var reply := Generator.Generate(DetailGenerator.ElementsOf(r.output));
              written := written + reply;
            }
          case Refuse =>
            Write(Negotiation(RefusalVerb(request), option));
        }
      case Subnegotiation(option, content) =>
        var h := subnegotiationRouter.Route(KeyOfSubnegotiation(option, content));
        if h.Some? && h.value.slot < |options| {
          options := options[h.value.slot := SubnegotiateOption(options[h.value.slot], content)];
        }
    }

    /**
     * Receives one chunk from the channel: parses it with the carried
     * temporaries, dispatches the completed elements in order, then signals
     * completion with an empty run.
     */
    method AsyncRead(content: Bytes)
      requires Valid()
      modifies parser, this`options, this`written, this`delivered, this`commands
      ensures Valid()
      ensures var r := Receive(TablesOf(), old(parser.Snapshot()), old(SinksOf()), content);
              parser.Snapshot() == r.temps && SinksOf() == r.sinks
    {
      var elements := ParseChunk(content);
      DispatchEach(elements);
      delivered := delivered + [[]];
    }

    /** The parser's pass over one chunk: the elements it completes, which it hands out. */
    method ParseChunk(content: Bytes) returns (elements: seq<Element>)
      modifies parser
      ensures elements == Run(old(parser.Snapshot()), content).elements
      ensures parser.Snapshot() == Run(old(parser.Snapshot()), content).(elements := [])
    {
      ghost var t0 := parser.Snapshot();
      for i := 0 to |content|
        invariant parser.Snapshot() == Run(t0, content[..i])
      {
        assert content[..i + 1] == content[..i] + [content[i]];
        RunSnoc(t0, content[..i], content[i]);
        parser.ParseByte(content[i]);
      }
      assert content[..|content|] == content;
      elements := parser.elements;
      parser.elements := [];
    }

    /** Hands the elements to their sinks in order. */
    method DispatchEach(elements: seq<Element>)
      requires Valid()
      modifies this`options, this`written, this`delivered, this`commands
      ensures SinksOf() == DispatchAll(TablesOf(), old(SinksOf()), elements)
    {
      ghost var s0 := SinksOf();
      for j := 0 to |elements|
        invariant Valid()
        invariant SinksOf() == DispatchAll(TablesOf(), s0, elements[..j])
      {
        assert elements[..j + 1][..j] == elements[..j];
        DispatchElement(elements[j]);
      }
      assert elements[..|elements|] == elements;
    }
  }

  // ---------------------------------------------------------------------
  // Properties of dispatch and of chunked delivery.

  /**
   * Two sink states that no observer can tell apart: same options, same
   * written bytes, same commands, and the same data when the runs handed
   * to the read callback are put end to end.
   */
  predicate Same(a: Sinks, b: Sinks)
  {
    a.options == b.options && a.written == b.written && a.commands == b.commands
    && Concat(a.delivered) == Concat(b.delivered)
  }

  /** The data runs among the elements, in order. */
  function DataRuns(es: seq<Element>): seq<Bytes>
    decreases |es|
  {
    if |es| == 0 then []
    else DataRuns(es[..|es| - 1]) + (if es[|es| - 1].Data? then [es[|es| - 1].bytes] else [])
  }

  /** An unrouted WILL/WONT is answered with DONT, an unrouted DO/DONT with WONT, for the same option. */
  lemma UnknownOptionRefused(tables: Tables, s: Sinks, request: byte, option: byte)
    requires IsVerb(request)
    requires KeyOfNegotiation(request, option) !in tables.negotiations
    ensures Dispatch(tables, s, Negotiation(request, option))
         == s.(written := s.written + [IAC, if request == WILL || request == WONT then DONT else WONT, option])
  {
  }

  /**
   * Each element reaches exactly one sink: data only the read callback,
   * a command only the command log (and only when a handler is installed),
   * a negotiation only the options and the channel, a subnegotiation only
   * the options.
   */
  lemma OneSinkPerElement(tables: Tables, s: Sinks, e: Element)
    ensures var d := Dispatch(tables, s, e);
            && (e.Data? ==> d == s.(delivered := s.delivered + [e.bytes]))
            && (e.Command? ==> d == (if e.code in tables.commands
                                    then s.(commands := s.commands + [CommandCall(tables.commands[e.code], e.code)])
                                    else s))
            && (e.Negotiation? ==> d.delivered == s.delivered && d.commands == s.commands
                                   && |d.options| == |s.options|)
            && (e.Subnegotiation? ==> d.delivered == s.delivered && d.commands == s.commands
                                      && d.written == s.written && |d.options| == |s.options|)
  {
  }

  lemma {:induction false} DispatchAppend(tables: Tables, s: Sinks, a: seq<Element>, b: seq<Element>)
    ensures DispatchAll(tables, s, a + b) == DispatchAll(tables, DispatchAll(tables, s, a), b)
    decreases |b|
  {
    if |b| == 0 {
      assert a + b == a;
    } else {
      assert (a + b)[..|a + b| - 1] == a + b[..|b| - 1];
      DispatchAppend(tables, s, a, b[..|b| - 1]);
    }
  }

  /** The read callback receives the data runs, in order, and nothing else. */
  lemma {:induction false} DispatchDelivers(tables: Tables, s: Sinks, es: seq<Element>)
    ensures DispatchAll(tables, s, es).delivered == s.delivered + DataRuns(es)
    decreases |es|
  {
    if |es| > 0 {
      DispatchDelivers(tables, s, es[..|es| - 1]);
    }
  }

  lemma ConcatSnoc(d: seq<Bytes>, b: Bytes)
    ensures Concat(d + [b]) == Concat(d) + b
  {
    assert (d + [b])[..|d + [b]| - 1] == d;
  }

  lemma {:induction false} DispatchKeepsSame(tables: Tables, a: Sinks, b: Sinks, es: seq<Element>)
    requires Same(a, b)
    ensures Same(DispatchAll(tables, a, es), DispatchAll(tables, b, es))
    decreases |es|
  {
    if |es| > 0 {
      DispatchKeepsSame(tables, a, b, es[..|es| - 1]);
      var a1 := DispatchAll(tables, a, es[..|es| - 1]);
      var b1 := DispatchAll(tables, b, es[..|es| - 1]);
      var e := es[|es| - 1];
      if e.Data? {
        ConcatSnoc(a1.delivered, e.bytes);
        ConcatSnoc(b1.delivered, e.bytes);
      }
    }
  }

  /**
   * Dispatching a data run split in two is indistinguishable from
   * dispatching it whole, so dispatching joined element lists is
   * dispatching one list after the other.
   */
  lemma SplitRunIsSame(tables: Tables, s: Sinks, u: Bytes, v: Bytes)
    ensures Same(Dispatch(tables, s, Data(u + v)), Dispatch(tables, Dispatch(tables, s, Data(u)), Data(v)))
  {
    ConcatSnoc(s.delivered, u + v);
    ConcatSnoc(s.delivered, u);
    ConcatSnoc(s.delivered + [u], v);
  }

  lemma DispatchOne(tables: Tables, s: Sinks, e: Element)
    ensures DispatchAll(tables, s, [e]) == Dispatch(tables, s, e)
  {
    assert [e][..0] == [];
  }

  lemma DispatchJoin(tables: Tables, s: Sinks, x: seq<Element>, y: seq<Element>)
    ensures Same(DispatchAll(tables, s, Join(x, y)), DispatchAll(tables, DispatchAll(tables, s, x), y))
  {
    if |x| > 0 && |y| > 0 && x[|x| - 1].Data? && y[0].Data? {
      var x0 := x[..|x| - 1];
      var u := x[|x| - 1].bytes;
      var v := y[0].bytes;
      var y1 := y[1..];
      assert Join(x, y) == (x0 + [Data(u + v)]) + y1;
      assert x == x0 + [Data(u)];
      assert y == [Data(v)] + y1;
      var s0 := DispatchAll(tables, s, x0);
      // The whole run.
      DispatchAppend(tables, s, x0 + [Data(u + v)], y1);
      DispatchAppend(tables, s, x0, [Data(u + v)]);
      DispatchOne(tables, s0, Data(u + v));
      var whole := Dispatch(tables, s0, Data(u + v));
      assert DispatchAll(tables, s, Join(x, y)) == DispatchAll(tables, whole, y1);
      // The run split at the boundary.
      DispatchAppend(tables, s, x0, [Data(u)]);
      DispatchOne(tables, s0, Data(u));
      var sx := Dispatch(tables, s0, Data(u));
      assert DispatchAll(tables, s, x) == sx;
      DispatchAppend(tables, sx, [Data(v)], y1);
      DispatchOne(tables, sx, Data(v));
      var split := Dispatch(tables, sx, Data(v));
      assert DispatchAll(tables, sx, y) == DispatchAll(tables, split, y1);
      SplitRunIsSame(tables, s0, u, v);
      DispatchKeepsSame(tables, whole, split, y1);
    } else {
      DispatchAppend(tables, s, x, y);
    }
  }

  /** The completion marker adds no data. */
  lemma MarkerAddsNoData(s: Sinks)
    ensures Same(s.(delivered := s.delivered + [[]]), s)
  {
    ConcatSnoc(s.delivered, []);
  }

  /** Receiving a chunk respects indistinguishable sinks. */
  lemma ReceiveKeepsSame(tables: Tables, t: Temps, a: Sinks, b: Sinks, chunk: Bytes)
    requires Same(a, b)
    ensures Receive(tables, t, a, chunk).temps == Receive(tables, t, b, chunk).temps
    ensures Same(Receive(tables, t, a, chunk).sinks, Receive(tables, t, b, chunk).sinks)
  {
    var u := Run(t, chunk);
    DispatchKeepsSame(tables, a, b, u.elements);
    MarkerAddsNoData(DispatchAll(tables, a, u.elements));
    MarkerAddsNoData(DispatchAll(tables, b, u.elements));
  }

  /** Two chunks received one after the other have the effect of their concatenation. */
  lemma ReceiveTwo(tables: Tables, t: Temps, s: Sinks, a: Bytes, b: Bytes)
    requires t.elements == []
    ensures var r := Receive(tables, t, s, a);
            var r2 := Receive(tables, r.temps, r.sinks, b);
            r2.temps == Receive(tables, t, s, a + b).temps
            && Same(r2.sinks, Receive(tables, t, s, a + b).sinks)
  {
    var u1 := Run(t, a);
    var t1 := u1.(elements := []);
    var u2 := Run(t1, b);
    RunAppend(t, a, b);
    RunJoin(u1, b);
    assert Run(t, a + b) == u2.(elements := Join(u1.elements, u2.elements));
    var d1 := DispatchAll(tables, s, u1.elements);
    var m1 := d1.(delivered := d1.delivered + [[]]);
    MarkerAddsNoData(d1);
    DispatchKeepsSame(tables, m1, d1, u2.elements);
    DispatchJoin(tables, s, u1.elements, u2.elements);
    var whole := DispatchAll(tables, s, Join(u1.elements, u2.elements));
    var split := DispatchAll(tables, m1, u2.elements);
    MarkerAddsNoData(whole);
    MarkerAddsNoData(split);
  }

  /**
   * However a stream is cut into chunks, the session ends in the same
   * parser state, and with the same options, written bytes, commands and
   * delivered data, as when it receives the stream in one chunk.
   */
  lemma {:induction false} ChunkingIsInvisible(tables: Tables, t: Temps, s: Sinks, chunks: seq<Bytes>)
    requires t.elements == []
    ensures ReceiveAll(tables, t, s, chunks).temps == Receive(tables, t, s, Concat(chunks)).temps
    ensures Same(ReceiveAll(tables, t, s, chunks).sinks, Receive(tables, t, s, Concat(chunks)).sinks)
    decreases |chunks|
  {
    if |chunks| == 0 {
      assert Run(t, []) == t;
      MarkerAddsNoData(s);
    } else {
      var init := chunks[..|chunks| - 1];
      var last := chunks[|chunks| - 1];
      ChunkingIsInvisible(tables, t, s, init);
      var r := ReceiveAll(tables, t, s, init);
      var w := Receive(tables, t, s, Concat(init));
      ReceiveKeepsSame(tables, w.temps, r.sinks, w.sinks, last);
      ReceiveTwo(tables, t, s, Concat(init), last);
    }
  }

  lemma {:induction false} ConcatOfBytes(s: Bytes)
    ensures Concat(seq(|s|, i requires 0 <= i < |s| => [s[i]])) == s
    decreases |s|
  {
    var chunks := seq(|s|, i requires 0 <= i < |s| => [s[i]]);
    if |s| > 0 {
      var p := s[..|s| - 1];
      ConcatOfBytes(p);
      assert chunks[..|chunks| - 1] == seq(|p|, i requires 0 <= i < |p| => [p[i]]);
      assert s == p + [s[|s| - 1]];
    }
  }

  /** Delivering a stream one byte per chunk is indistinguishable from delivering it whole. */
  lemma ByteAtATime(tables: Tables, s: Sinks, stream: Bytes)
    ensures var single := Receive(tables, Fresh, s, stream);
            var bytewise := ReceiveAll(tables, Fresh, s, seq(|stream|, i requires 0 <= i < |stream| => [stream[i]]));
            bytewise.temps == single.temps && Same(bytewise.sinks, single.sinks)
  {
    ConcatOfBytes(stream);
    ChunkingIsInvisible(tables, Fresh, s, seq(|stream|, i requires 0 <= i < |stream| => [stream[i]]));
  }

  /** No data run in the list is empty. */
  predicate DataNonEmpty(es: seq<Element>)
  {
    forall i :: 0 <= i < |es| && es[i].Data? ==> |es[i].bytes| > 0
  }

  lemma StepKeepsDataNonEmpty(t: Temps, b: byte)
    requires DataNonEmpty(t.elements)
    ensures DataNonEmpty(Step(t, b).elements)
  {
    var es := t.elements;
    var r := Step(t, b).elements;
    if |es| > 0 && es[|es| - 1].Data? && |r| == |es| {
      assert r[|r| - 1].Data? ==> |r[|r| - 1].bytes| >= 1;
    }
  }

  lemma {:induction false} RunKeepsDataNonEmpty(t: Temps, s: Bytes)
    requires DataNonEmpty(t.elements)
    ensures DataNonEmpty(Run(t, s).elements)
    decreases |s|
  {
    if |s| > 0 {
      RunKeepsDataNonEmpty(t, s[..|s| - 1]);
      StepKeepsDataNonEmpty(Run(t, s[..|s| - 1]), s[|s| - 1]);
    }
  }

  lemma {:induction false} DataRunsNonEmpty(es: seq<Element>)
    requires DataNonEmpty(es)
    ensures forall i :: 0 <= i < |DataRuns(es)| ==> |DataRuns(es)[i]| > 0
    decreases |es|
  {
    if |es| > 0 {
      DataRunsNonEmpty(es[..|es| - 1]);
    }
  }

  /**
   * A chunk hands the read callback its data runs in arrival order, each
   * non-empty, and then exactly one empty run, the completion marker.
   */
  lemma CompletionMarker(tables: Tables, t: Temps, s: Sinks, chunk: Bytes)
    requires t.elements == []
    ensures Receive(tables, t, s, chunk).sinks.delivered == s.delivered + DataRuns(Run(t, chunk).elements) + [[]]
    ensures forall i :: 0 <= i < |DataRuns(Run(t, chunk).elements)| ==> DataRuns(Run(t, chunk).elements)[i] != []
  {
    var es := Run(t, chunk).elements;
    DispatchDelivers(tables, s, es);
    RunKeepsDataNonEmpty(t, chunk);
    DataRunsNonEmpty(es);
  }

  /** The session as it stands after installing one client option (slot 0) for `code`. */
  function ClientOnly(code: byte): Tables
  {
    Tables(map[], ClientRoutes(map[], code, 0), map[code := ContentToOption(0)])
  }

  /** A single negotiation reply is written as IAC, the verb and the code. */
  lemma OneReplyBytes(verb: byte, code: byte)
    ensures ReplyBytes([ClientOption.Neg(verb, code)]) == [IAC, verb, code]
  {
    var reply := [ClientOption.Neg(verb, code)];
    assert reply[..0] == [];
    assert DetailGenerator.ElementsOf(reply[..0]) == [];
    assert DetailGenerator.ElementsOf(reply) == [Negotiation(verb, code)];
    var es := [Negotiation(verb, code)];
    assert es[..0] == [];
    assert Generator.EncodeAll(es[..0]) == [];
    assert GenerateHelper.Encode(es[0]) == [IAC, verb, code];
    assert Generator.EncodeAll(es) == [] + [IAC, verb, code];
  }

  /**
   * With an activatable client option installed for `code`, IAC WILL code
   * activates it and writes IAC DO code back.
   */
  lemma InstalledClientAcceptsWill(code: byte)
    ensures var o := InstalledOption(ClientSide, code, Inactive, true, []);
            var r := Receive(ClientOnly(code), Fresh, Sinks([o], [], [], []), [IAC, WILL, code]);
            r.sinks.written == [IAC, DO, code] && r.sinks.options == [o.(state := Active)]
            && r.temps.state == Idle
  {
    var o := InstalledOption(ClientSide, code, Inactive, true, []);
    var s := Sinks([o], [], [], []);
    var tables := ClientOnly(code);
    RunThree(Fresh, IAC, WILL, code);
    assert Run(Fresh, [IAC, WILL, code]).elements == [Negotiation(WILL, code)];
    DispatchOne(tables, s, Negotiation(WILL, code));
    assert Select(tables.negotiations, Some(Refuse), KeyOfNegotiation(WILL, code)) == Some(ToOption(0, WILL));
    var reply := [ClientOption.Neg(DO, code)];
    assert NegotiateOption(o, WILL) == ClientOption.Reply(Active, reply, true) by {
      assert reply + [] == reply;
    }
    OneReplyBytes(DO, code);
    var d := Dispatch(tables, s, Negotiation(WILL, code));
    assert d == s.(options := [o.(state := Active)], written := [IAC, DO, code]);
  }

  /**
   * A DO for a code that only a client option has installed does not reach
   * the option: the session's default route answers IAC WONT code.
   */
  lemma DoForClientOnlyRefused(code: byte)
    ensures var o := InstalledOption(ClientSide, code, Inactive, true, []);
            var r := Receive(ClientOnly(code), Fresh, Sinks([o], [], [], []), [IAC, DO, code]);
            r.sinks.written == [IAC, WONT, code] && r.sinks.options == [o]
  {
    var o := InstalledOption(ClientSide, code, Inactive, true, []);
    RunThree(Fresh, IAC, DO, code);
    assert Run(Fresh, [IAC, DO, code]).elements == [Negotiation(DO, code)];
    DispatchOne(ClientOnly(code), Sinks([o], [], [], []), Negotiation(DO, code));
  }
}
