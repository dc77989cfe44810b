/**
 * The per-element wire encoding, the inverse of the parser: data with every
 * IAC doubled, [IAC, code] for a command, [IAC, verb, option] for a
 * negotiation and IAC SB option <escaped content> IAC SE for a
 * subnegotiation.
 */
module GenerateHelper {
  import opened Protocol
  import opened ParseHelper
  import opened Parser

  function EscapeByte(b: byte): Bytes
  {
    if b == IAC then [IAC, IAC] else [b]
  }

  /** The bytes of `s` with every IAC doubled. */
  function Escape(s: Bytes): Bytes
    decreases |s|
  {
    if |s| == 0 then [] else Escape(s[..|s| - 1]) + EscapeByte(s[|s| - 1])
  }

  /** The wire encoding of one element. */
  function Encode(e: Element): Bytes
  {
    match e
    case Data(bytes) => Escape(bytes)
    case Command(code) => [IAC, code]
    case Negotiation(request, option) => [IAC, request, option]
    case Subnegotiation(option, content) => [IAC, SB, option] + Escape(content) + [IAC, SE]
  }

  /** Appends the escaped `input` to `output`. */
  method AppendEscaped(output: Bytes, input: Bytes) returns (result: Bytes)
    ensures result == output + Escape(input)
  {
    result := output;
    var i := 0;
    while i < |input|
      invariant 0 <= i <= |input|
      invariant result == output + Escape(input[..i])
    {
      var value := input[i];
      assert input[..i + 1][..i] == input[..i];
      if value == IAC {
        result := result + [value];
      }
      result := result + [value];
      i := i + 1;
    }
    assert input[..i] == input;
  }

  /** Appends the encoding of `element` to `result`; bytes already there are untouched. */
  method Generate(result: Bytes, element: Element) returns (r: Bytes)
    ensures r == result + Encode(element)
  {
    match element
    case Data(text) =>
      r := AppendEscaped(result, text);
    case Command(code) =>
      r := result + [IAC] + [code];
    case Negotiation(request, option) =>
      r := result + [IAC] + [request] + [option];
    case Subnegotiation(option, content) =>
      r := result + [IAC] + [SB] + [option];
      r := AppendEscaped(r, content);
      r := r + [IAC] + [SE];
  }

  /** Escaping distributes over concatenation. */
  lemma {:induction false} EscapeAppend(a: Bytes, b: Bytes)
    ensures Escape(a + b) == Escape(a) + Escape(b)
    decreases |b|
  {
    if |b| == 0 {
      assert a + b == a;
    } else {
      AppendFront(a, b);
      EscapeAppend(a, b[..|b| - 1]);
      Regrouped(Escape(a), Escape(b[..|b| - 1]), EscapeByte(b[|b| - 1]));
    }
  }

  function CountIac(s: Bytes): nat
    decreases |s|
  {
    if |s| == 0 then 0 else CountIac(s[..|s| - 1]) + (if s[|s| - 1] == IAC then 1 else 0)
  }

  /** Escaping adds exactly one byte per IAC. */
  lemma {:induction false} EscapeLength(s: Bytes)
    ensures |Escape(s)| == |s| + CountIac(s)
    decreases |s|
  {
    if |s| > 0 {
      EscapeLength(s[..|s| - 1]);
    }
  }

  /**
   * Reads escaped data back: IAC IAC is one IAC; any other IAC (unpaired)
   * makes the data invalid.
   */
  function Unescape(o: Bytes): Option<Bytes>
    decreases |o|
  {
    if |o| == 0 then Some([])
    else if o[0] != IAC then
      (match Unescape(o[1..]) case Some(r) => Some([o[0]] + r) case None => None)
    else if |o| >= 2 && o[1] == IAC then
      (match Unescape(o[2..]) case Some(r) => Some([IAC] + r) case None => None)
    else None
  }

  lemma {:induction false} UnescapeAppend(a: Bytes, b: Bytes)
    requires Unescape(a).Some?
    ensures Unescape(a + Escape(b)) == Some(Unescape(a).value + b)
    decreases |a|, |b|
  {
    var ab := a + Escape(b);
    if |a| == 0 {
      assert ab == Escape(b);
      EscapeRoundTrip(b);
      assert Unescape(a).value + b == b;
    } else if a[0] != IAC {
      assert ab[0] == a[0];
      assert ab[1..] == a[1..] + Escape(b);
      UnescapeAppend(a[1..], b);
      Regrouped([a[0]], Unescape(a[1..]).value, b);
    } else {
      assert |a| >= 2 && a[1] == IAC;
      assert ab[0] == IAC && ab[1] == IAC;
      assert ab[2..] == a[2..] + Escape(b);
      UnescapeAppend(a[2..], b);
      Regrouped([IAC], Unescape(a[2..]).value, b);
    }
  }

  /** One escaped byte in front of readable data is read back as that byte. */
  lemma UnescapeFront(x: byte, rest: Bytes)
    requires Unescape(rest).Some?
    ensures Unescape(EscapeByte(x) + rest) == Some([x] + Unescape(rest).value)
  {
    var o := EscapeByte(x) + rest;
    if x == IAC {
      assert o[0] == IAC && o[1] == IAC && o[2..] == rest;
    } else {
      assert o[0] == x && o[1..] == rest;
    }
  }

  /** No IAC in escaped data is unpaired: unescaping gives the data back. */
  lemma {:induction false} EscapeRoundTrip(s: Bytes)
    ensures Unescape(Escape(s)) == Some(s)
    decreases |s|
  {
    if |s| > 0 {
      var rest := s[1..];
      assert [s[0]] + rest == s;
      EscapeAppend([s[0]], rest);
      assert Escape([s[0]]) == EscapeByte(s[0]) by { assert [s[0]][..0] == []; }
      EscapeRoundTrip(rest);
      UnescapeFront(s[0], Escape(rest));
    }
  }

  /** One escaped byte parsed from the idle state appends that byte as data. */
  lemma EscapedByteParses(u: Temps, x: byte)
    requires u.state == Idle
    ensures Run(u, EscapeByte(x)) == u.(elements := AppendParsed(u.elements, Data([x])))
  {
    if x == IAC {
      RunTwo(u, IAC, IAC);
    } else {
      RunOne(u, x);
    }
  }

  /** Escaped data parsed from the idle state adds exactly that data run. */
  lemma {:induction false} EscapedDataParses(t: Temps, d: Bytes)
    requires t.state == Idle
    ensures Run(t, Escape(d)) == t.(elements := if |d| == 0 then t.elements else AppendParsed(t.elements, Data(d)))
    decreases |d|
  {
    if |d| > 0 {
      var p := d[..|d| - 1];
      var x := d[|d| - 1];
      EscapedDataParses(t, p);
      RunAppend(t, Escape(p), EscapeByte(x));
      var u := Run(t, Escape(p));
      EscapedByteParses(u, x);
      FrontLast(d);
      if |p| > 0 {
        AppendParsedMergesData(t.elements, p, [x]);
      }
    }
  }

  /** One escaped byte inside subnegotiation content is collected verbatim. */
  lemma EscapedContentByteParses(u: Temps, x: byte)
    requires u.state == SubnegotiationContent
    ensures Run(u, EscapeByte(x)) == u.(content := u.content + [x])
  {
    if x == IAC {
      RunTwo(u, IAC, IAC);
    } else {
      RunOne(u, x);
    }
  }

  /** Escaped content inside a subnegotiation is collected verbatim. */
  lemma {:induction false} EscapedContentParses(t: Temps, c: Bytes)
    requires t.state == SubnegotiationContent
    ensures Run(t, Escape(c)) == t.(content := t.content + c)
    decreases |c|
  {
    if |c| == 0 {
      assert t.content + c == t.content;
    } else {
      var p := c[..|c| - 1];
      var x := c[|c| - 1];
      EscapedContentParses(t, p);
      RunAppend(t, Escape(p), EscapeByte(x));
      EscapedContentByteParses(Run(t, Escape(p)), x);
      assert t.content + p + [x] == t.content + c;
    }
  }

  /**
   * The elements that survive a round trip through the wire: non-empty data,
   * any negotiation, any subnegotiation, and a command that is not IAC, SB or
   * a verb (those codes would be read as the start of something else).
   */
  predicate Encodable(e: Element)
  {
    match e
    case Data(bytes) => |bytes| > 0
    case Command(code) => code != IAC && code != SB && !IsVerb(code)
    case Negotiation(request, _) => true
    case Subnegotiation(_, _) => true
  }

  /**
   * Parsing an element's encoding from the idle state appends exactly that
   * element and ends idle again.  For a negotiation the verb is whatever
   * byte the element holds: the parser reads it only if it is a verb.
   */
  lemma EncodedElementParses(t: Temps, e: Element)
    requires t.state == Idle
    requires Encodable(e)
    requires e.Negotiation? ==> IsVerb(e.request)
    ensures Run(t, Encode(e)).state == Idle
    ensures Run(t, Encode(e)).elements == AppendParsed(t.elements, e)
  {
    match e
    case Data(bytes) =>
      EscapedDataParses(t, bytes);
    case Command(code) =>
      RunTwo(t, IAC, code);
    case Negotiation(request, option) =>
      RunThree(t, IAC, request, option);
    case Subnegotiation(option, content) =>
      var head: Bytes := [IAC, SB, option];
      RunThree(t, IAC, SB, option);
      var u := Run(t, head);
      assert u == t.(id := option, content := [], state := SubnegotiationContent);
      RunAppend(t, head, Escape(content));
      EscapedContentParses(u, content);
      var v := Run(t, head + Escape(content));
      assert v == u.(content := content);
      RunAppend(t, head + Escape(content), [IAC, SE]);
      RunTwo(v, IAC, SE);
  }

  /** Round trip: a single encodable element parses back to exactly itself. */
  lemma RoundTrip(e: Element)
    requires Encodable(e)
    requires e.Negotiation? ==> IsVerb(e.request)
    ensures Run(Fresh, Encode(e)).elements == [e]
    ensures LastIdle(Encode(e)) == |Encode(e)|
  {
    EncodedElementParses(Fresh, e);
    ConsumedAllIffBoundary(Encode(e));
  }

  /** A command IAC cannot round trip: its encoding reads as one literal 0xFF byte of data. */
  lemma CommandIacReadsAsData()
    ensures Run(Fresh, Encode(Command(IAC))).elements == [Data([IAC])]
  {
    RunTwo(Fresh, IAC, IAC);
  }
}
