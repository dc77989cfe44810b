/**
 * The MSDP option (69), identical on the client and the server side: `send`
 * wraps the encoding of a list of variables in one subnegotiation, and a
 * subnegotiation received while the option is active is decoded and, when it
 * holds any variables, handed as one list to the slots connected to
 * `on_receive`, whose tokens are combined in connection order.
 */
module MsdpOption {
  import opened Protocol
  import opened MsdpVariable
  import opened MsdpEncoder
  import opened MsdpDecoder
  import opened TokenCombiner
  import MsdpRoundTrip

  /** `send`: nothing when the encoding is empty, otherwise one subnegotiation of option 69. */
  function SendVariables(vars: seq<Variable>): (r: seq<Token>)
    ensures |r| <= 1
    ensures r == [] <==> vars == []
    ensures r != [] ==> r[0].Elem? && r[0].element.Subnegotiation? && r[0].element.option == MSDP
  {
    EncodeListEmpty(vars);
    var encoded := EncodeList(vars);
    if |encoded| == 0 then [] else [Elem(Subnegotiation(MSDP, encoded))]
  }

  /**
   * What handling one subnegotiation does: the lists the signal was fired
   * with (at most one), and the tokens its slots returned.
   */
  datatype Received = Received(delivered: seq<seq<Variable>>, output: seq<Token>)

  /** The tokens of every connected slot, called with `vars`, in connection order. */
  function SlotResults(slots: seq<seq<Variable> -> seq<Token>>, vars: seq<Variable>): seq<seq<Token>>
  {
    seq(|slots|, i requires 0 <= i < |slots| => slots[i](vars))
  }

  /**
   * `handle_subnegotiation`: decode the content; nothing happens for an
   * empty list, otherwise the signal fires once with the whole list.  A
   * content the decoder has no defined behaviour for gives no outcome.
   */
  function Receive(content: Bytes, slots: seq<seq<Variable> -> seq<Token>>): (r: Option<Received>)
    ensures r.None? <==> Decoded(content).None?
    ensures r.Some? ==> |r.value.delivered| <= 1
    ensures r.Some? ==> (r.value.delivered == [] <==> Decoded(content).value == [])
    ensures r.Some? && r.value.delivered == [] ==> r.value.output == []
    ensures r.Some? && r.value.delivered != [] ==> r.value.delivered[0] == Decoded(content).value
  {
    match Decoded(content)
    case None => None
    case Some(vars) =>
      if |vars| == 0 then Some(Received([], []))
      else Some(Received([vars], Combine(SlotResults(slots, vars))))
  }

  /**
   * What one side sends, the other side's `on_receive` gets back whole, for
   * every list of named strings and arrays that contain no MSDP marks.
   */
  lemma SendThenReceive(vars: seq<Variable>, slots: seq<seq<Variable> -> seq<Token>>)
    requires |vars| > 0
    requires forall i :: 0 <= i < |vars| ==> MsdpRoundTrip.Plain(vars[i])
    requires vars[|vars| - 1].value.Str? ==> |vars[|vars| - 1].name| > 0
    ensures |SendVariables(vars)| == 1
    ensures Receive(SendVariables(vars)[0].element.content, slots)
            == Some(Received([vars], Combine(SlotResults(slots, vars))))
  {
    EncodeListEmpty(vars);
    MsdpRoundTrip.RoundTrip(vars);
  }

  /** An empty subnegotiation fires nothing and produces nothing. */
  lemma EmptySubnegotiationIsSilent(slots: seq<seq<Variable> -> seq<Token>>)
    ensures Receive([], slots) == Some(Received([], []))
  {
    EmptyPayload();
  }

  /**
   * A lone unnamed string is decoded to no variables at all, so receiving it
   * fires nothing.
   */
  lemma UnnamedStringFiresNothing(s: Bytes, slots: seq<seq<Variable> -> seq<Token>>)
    requires MsdpRoundTrip.NoMarks(s)
    ensures Receive(Encoding(Variable([], Str(s))), slots) == Some(Received([], []))
  {
    MsdpRoundTrip.UnnamedStringLost(s);
  }

  /** With no slot connected the signal still fires, and its result is empty. */
  lemma NoSlotsNoOutput(content: Bytes)
    requires Decoded(content).Some?
    ensures Receive(content, []).Some? && Receive(content, []).value.output == []
  {
    CombineEmpty();
    assert SlotResults([], Decoded(content).value) == [];
  }
}
