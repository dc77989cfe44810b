/**
 * The NAWS client (RFC 1073, option 31): a subnegotiation of exactly four
 * bytes carries the window's width and height, each a 16-bit number sent
 * high byte first, and is reported to the slots connected to
 * `on_window_size_changed`; a payload of any other length is ignored.
 */
module Naws {
  import opened Protocol
  import opened TokenCombiner

  const NAWS: byte := 31

  /** The largest value a 16-bit width or height can take. */
  const MAX_DIMENSION: nat := 65535

  datatype WindowSize = WindowSize(width: nat, height: nat)

  predicate InRange(w: WindowSize)
  {
    w.width <= MAX_DIMENSION && w.height <= MAX_DIMENSION
  }

  /** A 16-bit number from its high and low byte. */
  function U16(high: byte, low: byte): nat
  {
    high as nat * 256 + low as nat
  }

  /** The two bytes of a 16-bit number, high byte first, as RFC 1073 sends it. */
  function U16Bytes(n: nat): Bytes
    requires n <= MAX_DIMENSION
  {
    [(n / 256) as byte, (n % 256) as byte]
  }

  /** The payload a peer sends for a window size. */
  function Payload(w: WindowSize): Bytes
    requires InRange(w)
  {
    U16Bytes(w.width) + U16Bytes(w.height)
  }

  /** The window size a payload carries, if it has the right length. */
  function Decoded(content: Bytes): (r: Option<WindowSize>)
    ensures r.Some? <==> |content| == 4
    ensures r.Some? ==> InRange(r.value)
  {
    if |content| == 4 then Some(WindowSize(U16(content[0], content[1]), U16(content[2], content[3])))
    else None
  }

  /** What handling one subnegotiation does: the sizes the signal fired with, and the slots' tokens. */
  datatype Received = Received(reported: seq<WindowSize>, output: seq<Token>)

  /** `handle_subnegotiation`: a four-byte payload fires the signal once; anything else does nothing. */
  function HandleSubnegotiation(content: Bytes, slots: seq<WindowSize -> seq<Token>>): (r: Received)
    ensures |r.reported| <= 1
    ensures r.reported != [] <==> |content| == 4
    ensures r.reported != [] ==> Some(r.reported[0]) == Decoded(content)
    ensures r.reported == [] ==> r.output == []
  {
    match Decoded(content)
    case None => Received([], [])
    case Some(w) => Received([w], Combine(seq(|slots|, i requires 0 <= i < |slots| => slots[i](w))))
  }

  /** Every window size in range is read back from the payload a peer sends for it. */
  lemma PayloadDecoded(w: WindowSize)
    requires InRange(w)
    ensures Decoded(Payload(w)) == Some(w)
  {
    var p := Payload(w);
    assert p == [(w.width / 256) as byte, (w.width % 256) as byte, (w.height / 256) as byte, (w.height % 256) as byte];
  }

  /** Every four-byte payload is the one sent for the size it is read as. */
  lemma DecodedPayload(content: Bytes)
    requires |content| == 4
    ensures Payload(Decoded(content).value) == content
  {
    var w := Decoded(content).value;
    assert U16Bytes(w.width) == content[..2];
    assert U16Bytes(w.height) == content[2..];
  }

  /** The width and height are read high byte first: [0, 80, 0, 24] is 80 by 24, and [1, 0, 0, 1] is 256 by 1. */
  lemma HighByteFirst()
    ensures Decoded([0, 80, 0, 24]) == Some(WindowSize(80, 24))
    ensures Decoded([1, 0, 0, 1]) == Some(WindowSize(256, 1))
    ensures Decoded([0, 80, 0]) == None && Decoded([0, 80, 0, 24, 0]) == None
  {
  }
}
