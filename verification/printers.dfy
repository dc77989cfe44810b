/**
 * The textual forms of the Telnet elements: `command[NAME]` or
 * `command[0xHH]`, `negotiation[VERB, 0xHH]` and
 * `subnegotiation[0xHH, [0xHH, 0xHH, ...]]`, every code printed as two
 * uppercase hexadecimal digits.
 */
module Printers {
  import opened Protocol

  /** The uppercase hexadecimal digit of a value below 16. */
  function HexDigit(k: nat): char
    requires k < 16
  {
    if k < 10 then ('0' as int + k) as char else ('A' as int + k - 10) as char
  }

  /** The value of an uppercase hexadecimal digit (0 for any other character). */
  function DigitValue(c: char): nat
  {
    if '0' <= c <= '9' then c as int - '0' as int
    else if 'A' <= c <= 'F' then c as int - 'A' as int + 10
    else 0
  }

  /** A byte as exactly two uppercase hexadecimal digits, zero-padded. */
  function Hex2(b: byte): string
  {
    [HexDigit(b as int / 16), HexDigit(b as int % 16)]
  }

  /** The value of two hexadecimal digits. */
  function ReadHex2(s: string): int
    requires |s| == 2
  {
    DigitValue(s[0]) * 16 + DigitValue(s[1])
  }

  /** Two hexadecimal digits are read back as the byte they print. */
  lemma Hex2RoundTrip(b: byte)
    ensures |Hex2(b)| == 2
    ensures ReadHex2(Hex2(b)) == b as int
  {
  }

  /** Different bytes print differently. */
  lemma Hex2Injective(a: byte, b: byte)
    requires Hex2(a) == Hex2(b)
    ensures a == b
  {
    Hex2RoundTrip(a);
    Hex2RoundTrip(b);
  }

  // ------------------------------------------------------------------------
  // Commands.

  /** The nine commands that print by name. */
  function CommandName(code: byte): (r: Option<string>)
    ensures r.Some? <==> NOP <= code <= GA
  {
    if code == NOP then Some("NOP")
    else if code == DM then Some("DM")
    else if code == BRK then Some("BRK")
    else if code == IP then Some("IP")
    else if code == AO then Some("AO")
    else if code == AYT then Some("AYT")
    else if code == EC then Some("EC")
    else if code == EL then Some("EL")
    else if code == GA then Some("GA")
    else None
  }

  /** The command a name stands for. */
  function NamedCommand(name: string): Option<byte>
  {
    if name == "NOP" then Some(NOP)
    else if name == "DM" then Some(DM)
    else if name == "BRK" then Some(BRK)
    else if name == "IP" then Some(IP)
    else if name == "AO" then Some(AO)
    else if name == "AYT" then Some(AYT)
    else if name == "EC" then Some(EC)
    else if name == "EL" then Some(EL)
    else if name == "GA" then Some(GA)
    else None
  }

  /** Reads a command back from its text. */
  function ReadCommand(s: string): Option<byte>
  {
    if |s| < 9 || s[..8] != "command[" || s[|s| - 1] != ']' then None
    else
      var middle := s[8..|s| - 1];
      if |middle| == 4 && middle[..2] == "0x" then
        var v := ReadHex2(middle[2..]);
        if 0 <= v < 256 then Some(v as byte) else None
      else NamedCommand(middle)
  }

  /**
   * `operator<<(ostream, command)`.  Every command is read back from its
   * text, so different commands print differently.
   */
  function ShowCommand(code: byte): (r: string)
    ensures ReadCommand(r) == Some(code)
  {
    match CommandName(code)
    case Some(name) =>
      var s := "command[" + name + "]";
      assert s[..8] == "command[" && s[8..|s| - 1] == name;
      s
    case None =>
      var s := "command[0x" + Hex2(code) + "]";
      assert s[..8] == "command[" && s[8..|s| - 1] == "0x" + Hex2(code);
      assert ("0x" + Hex2(code))[2..] == Hex2(code);
      Hex2RoundTrip(code);
      s
  }

  /** The nine named commands print as their names; every other code, SE, SB, EOR, the verbs and IAC among them, in hexadecimal. */
  lemma CommandForms(code: byte)
    ensures NOP <= code <= GA ==> ShowCommand(code) == "command[" + CommandName(code).value + "]"
    ensures !(NOP <= code <= GA) ==> ShowCommand(code) == "command[0x" + Hex2(code) + "]"
    ensures ShowCommand(AYT) == "command[AYT]" && ShowCommand(SE) == "command[0xF0]"
  {
  }

  // ------------------------------------------------------------------------
  // Negotiations.

  function VerbName(verb: byte): string
    requires IsVerb(verb)
  {
    if verb == WILL then "WILL" else if verb == WONT then "WONT" else if verb == DO then "DO" else "DONT"
  }

  /** The verb a name stands for. */
  function NamedVerb(name: string): Option<byte>
  {
    if name == "WILL" then Some(WILL)
    else if name == "WONT" then Some(WONT)
    else if name == "DO" then Some(DO)
    else if name == "DONT" then Some(DONT)
    else None
  }

  /** Reads a negotiation back from its text: its request and its option. */
  function ReadNegotiation(s: string): Option<(byte, byte)>
  {
    if |s| < 19 || s[..12] != "negotiation[" || s[|s| - 7..|s| - 3] != ", 0x" || s[|s| - 1] != ']' then None
    else
      var v := ReadHex2(s[|s| - 3..|s| - 1]);
      match NamedVerb(s[12..|s| - 7])
      case Some(verb) => if 0 <= v < 256 then Some((verb, v as byte)) else None
      case None => None
  }

  /**
   * `operator<<(ostream, negotiation)`; a request that is not a verb fails
   * an assertion in the source.  The request and the option are read back
   * from the text.
   */
  function ShowNegotiation(request: byte, option: byte): (r: string)
    requires IsVerb(request)
    ensures ReadNegotiation(r) == Some((request, option))
  {
    var name := VerbName(request);
    var s := "negotiation[" + name + (", 0x" + Hex2(option) + "]");
    assert s[..12] == "negotiation[" && s[12..|s| - 7] == name;
    assert s[|s| - 7..|s| - 3] == ", 0x" && s[|s| - 3..|s| - 1] == Hex2(option);
    Hex2RoundTrip(option);
    s
  }

  /** Different negotiations print differently. */
  lemma NegotiationInjective(r1: byte, o1: byte, r2: byte, o2: byte)
    requires IsVerb(r1) && IsVerb(r2)
    requires ShowNegotiation(r1, o1) == ShowNegotiation(r2, o2)
    ensures r1 == r2 && o1 == o2
  {
    var s := ShowNegotiation(r1, o1);
    var n1, n2 := VerbName(r1), VerbName(r2);
    assert s == "negotiation[" + n1 + (", 0x" + Hex2(o1) + "]");
    assert s == "negotiation[" + n2 + (", 0x" + Hex2(o2) + "]");
    assert Hex2(o1) == s[|s| - 3..|s| - 1] == Hex2(o2);
    Hex2Injective(o1, o2);
    assert n1 == s[12..|s| - 7] == n2;
  }

  // ------------------------------------------------------------------------
  // Subnegotiations.

  /** Each content byte as `0xHH`, separated by `, `. */
  function HexList(content: Bytes): string
    decreases |content|
  {
    if |content| == 0 then ""
    else if |content| == 1 then "0x" + Hex2(content[0])
    else HexList(content[..|content| - 1]) + ", 0x" + Hex2(content[|content| - 1])
  }

  /** The text `operator<<(ostream, subnegotiation)` writes. */
  function SubnegotiationText(option: byte, content: Bytes): string
  {
    "subnegotiation[0x" + Hex2(option) + ", [" + HexList(content) + "]]"
  }

  /** `0xHH` for byte `b` as the `i`-th item of a list. */
  predicate ItemAt(s: string, i: nat, b: byte)
  {
    6 * i + 4 <= |s| && s[6 * i..6 * i + 4] == "0x" + Hex2(b)
  }

  /** The separator before the `i`-th item of a list. */
  predicate SeparatorBefore(s: string, i: nat)
  {
    0 < i && 6 * i <= |s| && s[6 * i - 2..6 * i] == ", "
  }

  /** One more byte: the list grows by a separator, unless it was empty, and the byte's item. */
  lemma HexListStep(content: Bytes, i: nat)
    requires i < |content|
    ensures HexList(content[..i + 1]) == HexList(content[..i]) + (if i == 0 then "" else ", ") + "0x" + Hex2(content[i])
  {
    assert content[..i + 1][..i] == content[..i];
    if i == 0 {
      assert HexList(content[..0]) == "";
    } else {
      Regrouped(HexList(content[..i]), ", ", "0x" + Hex2(content[i]));
    }
  }

  /**
   * The list has six characters per byte less the two of the separator the
   * first item lacks; the `i`-th byte's item starts at 6 i, and a separator
   * stands before every item but the first.
   */
  lemma {:induction false} HexListLayout(content: Bytes)
    ensures |HexList(content)| == if |content| == 0 then 0 else 6 * |content| - 2
    ensures forall i :: 0 <= i < |content| ==> ItemAt(HexList(content), i, content[i])
    ensures forall i :: 0 < i < |content| ==> SeparatorBefore(HexList(content), i)
    decreases |content|
  {
    var n := |content|;
    if n == 1 {
      assert ItemAt(HexList(content), 0, content[0]);
    } else if n > 1 {
      var init := content[..n - 1];
      var h := HexList(init);
      HexListLayout(init);
      var s := HexList(content);
      assert s == h + (", 0x" + Hex2(content[n - 1]));
      forall i | 0 <= i < n
        ensures ItemAt(s, i, content[i])
      {
        if i < n - 1 {
          assert ItemAt(h, i, init[i]);
          assert s[6 * i..6 * i + 4] == h[6 * i..6 * i + 4];
        } else {
          assert s[6 * i..6 * i + 4] == "0x" + Hex2(content[n - 1]);
        }
      }
      forall i | 0 < i < n
        ensures SeparatorBefore(s, i)
      {
        if i < n - 1 {
          assert SeparatorBefore(h, i);
          assert s[6 * i - 2..6 * i] == h[6 * i - 2..6 * i];
        } else {
          assert s[6 * i - 2..6 * i] == ", ";
        }
      }
    }
  }

  /** Empty content prints as `[]`. */
  lemma EmptyContent(option: byte)
    ensures SubnegotiationText(option, []) == "subnegotiation[0x" + Hex2(option) + ", []]"
  {
  }

  /** Different subnegotiations print differently: the option and every content byte are recoverable. */
  lemma SubnegotiationInjective(o1: byte, c1: Bytes, o2: byte, c2: Bytes)
    requires SubnegotiationText(o1, c1) == SubnegotiationText(o2, c2)
    ensures o1 == o2 && c1 == c2
  {
    var s := SubnegotiationText(o1, c1);
    var h1, h2 := HexList(c1), HexList(c2);
    assert s == "subnegotiation[0x" + Hex2(o1) + ", [" + h1 + "]]";
    assert s == "subnegotiation[0x" + Hex2(o2) + ", [" + h2 + "]]";
    assert Hex2(o1) == s[17..19] == Hex2(o2);
    Hex2Injective(o1, o2);
    assert h1 == s[22..|s| - 2] == h2;
    HexListLayout(c1);
    HexListLayout(c2);
    assert |c1| == |c2|;
    forall i | 0 <= i < |c1|
      ensures c1[i] == c2[i]
    {
      assert ItemAt(h1, i, c1[i]) && ItemAt(h1, i, c2[i]);
      assert Hex2(c1[i]) == h1[6 * i + 2..6 * i + 4] == Hex2(c2[i]);
      Hex2Injective(c1[i], c2[i]);
    }
  }

  /**
   * `operator<<(ostream, subnegotiation)`: the option, then the content
   * bytes with a separator written before every one but the first.
   */
  method ShowSubnegotiation(option: byte, content: Bytes) returns (out: string)
    ensures out == SubnegotiationText(option, content)
  {
    var head := "subnegotiation[0x" + Hex2(option) + ", [";
    out := head;
    var first := true;
    for i := 0 to |content|
      invariant first <==> i == 0
      invariant out == head + HexList(content[..i])
    {
      HexListStep(content, i);
      if !first {
        out := out + ", ";
      }
      first := false;
      out := out + "0x" + Hex2(content[i]);
      Regrouped(head, HexList(content[..i]), (if i == 0 then "" else ", "));
      Regrouped(head, HexList(content[..i]) + (if i == 0 then "" else ", "), "0x" + Hex2(content[i]));
    }
    assert content[..|content|] == content;
    out := out + "]]";
  }
}
