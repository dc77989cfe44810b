/**
 * The TERMINAL-TYPE client (RFC 1091, option 24): it asks for the terminal
 * type with the subnegotiation SEND, and reports the bytes after IS of a
 * subnegotiation that starts with IS to the slots connected to
 * `on_terminal_type`; any other payload is ignored.
 */
module TerminalType {
  import opened Protocol
  import opened TokenCombiner
  import GenerateHelper
  import Parser
  import opened ParseHelper

  const TERMINAL_TYPE: byte := 24
  const IS: byte := 0
  const SEND: byte := 1

  /** `request_terminal_type`. */
  function RequestTerminalType(): (r: seq<Token>)
    ensures |r| == 1 && r[0].Elem? && r[0].element.Subnegotiation?
    ensures r[0].element.option == TERMINAL_TYPE && r[0].element.content == [SEND]
  {
    [Elem(Subnegotiation(TERMINAL_TYPE, [SEND]))]
  }

  /** The payload a peer answers with for a terminal type. */
  function IsPayload(terminalType: Bytes): Bytes
  {
    [IS] + terminalType
  }

  /** The terminal type a payload reports, if it starts with IS. */
  function Reported(content: Bytes): (r: Option<Bytes>)
    ensures r.Some? <==> |content| > 0 && content[0] == IS
  {
    if |content| > 0 && content[0] == IS then Some(content[1..]) else None
  }

  /** What handling one subnegotiation does: the types the signal fired with, and the slots' tokens. */
  datatype Received = Received(reported: seq<Bytes>, output: seq<Token>)

  /** `handle_subnegotiation`: a payload starting with IS fires the signal once; anything else does nothing. */
  function HandleSubnegotiation(content: Bytes, slots: seq<Bytes -> seq<Token>>): (r: Received)
    ensures |r.reported| <= 1
    ensures r.reported != [] <==> |content| > 0 && content[0] == IS
    ensures r.reported != [] ==> Some(r.reported[0]) == Reported(content)
    ensures r.reported == [] ==> r.output == []
  {
    match Reported(content)
    case None => Received([], [])
    case Some(t) => Received([t], Combine(seq(|slots|, i requires 0 <= i < |slots| => slots[i](t))))
  }

  /** Every terminal type, the empty one included, is read back from the payload sent for it. */
  lemma IsPayloadReported(terminalType: Bytes)
    ensures Reported(IsPayload(terminalType)) == Some(terminalType)
  {
    assert IsPayload(terminalType)[1..] == terminalType;
  }

  /** Every payload that reports a type is the one sent for that type. */
  lemma ReportedIsPayload(content: Bytes)
    requires Reported(content).Some?
    ensures IsPayload(Reported(content).value) == content
  {
  }

  /** An empty payload, a SEND and any payload with another first byte report nothing. */
  lemma OthersIgnored(b: byte, rest: Bytes)
    requires b != IS
    ensures Reported([]) == None
    ensures Reported([b] + rest) == None
  {
  }

  /** The request goes on the wire as IAC SB 24 SEND IAC SE, and a parser reads it back as sent. */
  lemma RequestOnTheWire()
    ensures GenerateHelper.Encode(RequestTerminalType()[0].element) == [IAC, SB, TERMINAL_TYPE, SEND, IAC, SE]
    ensures Parser.Run(Fresh, [IAC, SB, TERMINAL_TYPE, SEND, IAC, SE]).elements == [RequestTerminalType()[0].element]
  {
    var e := RequestTerminalType()[0].element;
    assert [SEND][..0] == [];
    assert GenerateHelper.Escape([SEND]) == [SEND];
    GenerateHelper.RoundTrip(e);
  }
}
