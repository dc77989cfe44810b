/**
 * The parse loop: feeds a byte range to a fresh parser and reports the
 * elements it completed and how far the input was consumed (the position
 * just after the last byte that left the parser idle).
 */
module Parser {
  import opened Protocol
  import opened ParseHelper

  /** The temporaries after feeding every byte of `s`, in order, starting from `t`. */
  function Run(t: Temps, s: Bytes): Temps
    decreases |s|
  {
    if |s| == 0 then t else Step(Run(t, s[..|s| - 1]), s[|s| - 1])
  }

  /**
   * The length of the longest prefix of `s` after which a fresh parser is
   * idle (0 when there is none).
   */
  function LastIdle(s: Bytes): (k: nat)
    ensures k <= |s|
    ensures k == 0 || Run(Fresh, s[..k]).state == Idle
    decreases |s|
  {
    if |s| == 0 then 0
    else if Run(Fresh, s).state == Idle then
      assert s[..|s|] == s;
      |s|
    else
      var p := s[..|s| - 1];
      var k := LastIdle(p);
      assert p[..k] == s[..k];
      k
  }

  /** No longer prefix than `LastIdle(s)` leaves a fresh parser idle. */
  lemma {:induction false} LastIdleMaximal(s: Bytes)
    ensures forall j :: LastIdle(s) < j <= |s| ==> Run(Fresh, s[..j]).state != Idle
    decreases |s|
  {
    if |s| > 0 && Run(Fresh, s).state != Idle {
      var p := s[..|s| - 1];
      LastIdleMaximal(p);
      assert forall j :: 0 <= j <= |p| ==> p[..j] == s[..j];
      assert s[..|s|] == s;
    }
  }

  /** Splits the run of a concatenation into two runs. */
  lemma {:induction false} RunAppend(t: Temps, a: Bytes, b: Bytes)
    ensures Run(t, a + b) == Run(Run(t, a), b)
    decreases |b|
  {
    if |b| == 0 {
      assert a + b == a;
    } else {
      AppendFront(a, b);
      RunAppend(t, a, b[..|b| - 1]);
    }
  }

  lemma RunOne(t: Temps, b: byte)
    ensures Run(t, [b]) == Step(t, b)
  {
    assert [b][..0] == [];
  }

  lemma RunSnoc(t: Temps, s: Bytes, b: byte)
    ensures Run(t, s + [b]) == Step(Run(t, s), b)
  {
    assert (s + [b])[..|s|] == s;
  }

  lemma RunTwo(t: Temps, a: byte, b: byte)
    ensures Run(t, [a, b]) == Step(Step(t, a), b)
  {
    RunOne(t, a);
    RunSnoc(t, [a], b);
    assert [a] + [b] == [a, b];
  }

  lemma RunThree(t: Temps, a: byte, b: byte, c: byte)
    ensures Run(t, [a, b, c]) == Step(Step(Step(t, a), b), c)
  {
    RunTwo(t, a, b);
    RunSnoc(t, [a, b], c);
    assert [a, b] + [c] == [a, b, c];
  }

  // ------------------------------------------------------------------------
  // The framing sequences, from the idle state or inside subnegotiation content.

  /** Outside a subnegotiation, IAC IAC adds exactly one literal 0xFF to the data and ends idle. */
  lemma EscapedIacIsData(t: Temps)
    requires t.state == Idle
    ensures Run(t, [IAC, IAC]) == t.(elements := AppendParsed(t.elements, Data([IAC])))
  {
    RunTwo(t, IAC, IAC);
  }

  /** IAC, a verb and any option byte, 0xFF included, complete that negotiation and end idle. */
  lemma NegotiationTakesAnyOption(t: Temps, verb: byte, option: byte)
    requires t.state == Idle && IsVerb(verb)
    ensures Run(t, [IAC, verb, option]).elements == AppendParsed(t.elements, Negotiation(verb, option))
    ensures Run(t, [IAC, verb, option]).state == Idle
  {
    RunThree(t, IAC, verb, option);
  }

  /** IAC and any byte that is not IAC, SB or a verb is a command, unvalidated: SE and EOR included. */
  lemma AnyOtherByteIsCommand(t: Temps, code: byte)
    requires t.state == Idle && code != IAC && code != SB && !IsVerb(code)
    ensures Run(t, [IAC, code]) == t.(elements := AppendParsed(t.elements, Command(code)))
  {
    RunTwo(t, IAC, code);
  }

  /** After IAC SB the next byte, whatever it is, is the option, and the content starts empty. */
  lemma SubnegotiationOpens(t: Temps, option: byte)
    requires t.state == Idle
    ensures Run(t, [IAC, SB, option]) == t.(id := option, content := [], state := SubnegotiationContent)
  {
    RunThree(t, IAC, SB, option);
  }

  /**
   * Inside subnegotiation content IAC SE completes the subnegotiation; IAC
   * followed by any other byte keeps that byte (so IAC IAC gives one 0xFF);
   * any byte but IAC is kept as it is.
   */
  lemma SubnegotiationContentBytes(u: Temps, x: byte)
    requires u.state == SubnegotiationContent
    ensures Run(u, [IAC, SE]) == u.(elements := AppendParsed(u.elements, Subnegotiation(u.id, u.content)), state := Idle)
    ensures x != SE ==> Run(u, [IAC, x]) == u.(content := u.content + [x])
    ensures x != IAC ==> Run(u, [x]) == u.(content := u.content + [x])
  {
    RunTwo(u, IAC, SE);
    RunTwo(u, IAC, x);
    RunOne(u, x);
  }

  /** Element lists never lose neighbouring-data-run freedom along a run. */
  lemma {:induction false} RunKeepsNoAdjacentData(t: Temps, s: Bytes)
    requires NoAdjacentData(t.elements)
    ensures NoAdjacentData(Run(t, s).elements)
    decreases |s|
  {
    if |s| > 0 {
      RunKeepsNoAdjacentData(t, s[..|s| - 1]);
      StepKeepsNoAdjacentData(Run(t, s[..|s| - 1]), s[|s| - 1]);
    }
  }

  /**
   * Joins two element lists the way the parser would have produced them in
   * one go: a data run ending `a` and one starting `b` become one run.
   */
  function Join(a: seq<Element>, b: seq<Element>): seq<Element>
  {
    if |a| > 0 && |b| > 0 && a[|a| - 1].Data? && b[0].Data? then
      a[..|a| - 1] + [Data(a[|a| - 1].bytes + b[0].bytes)] + b[1..]
    else
      a + b
  }

  lemma AppendParsedJoin(a: seq<Element>, b: seq<Element>, e: Element)
    ensures AppendParsed(Join(a, b), e) == Join(a, AppendParsed(b, e))
  {
    if |b| == 0 {
      if !(e.Data? && |a| > 0 && a[|a| - 1].Data?) {
        assert Join(a, [e]) == a + [e];
      }
    } else if |a| > 0 && a[|a| - 1].Data? && b[0].Data? {
      if e.Data? && b[|b| - 1].Data? {
        JoinMergedMerging(a, b, e);
      } else {
        JoinMergedPlain(a, b, e);
      }
    } else if e.Data? && b[|b| - 1].Data? {
      JoinPlainMerging(a, b, e);
    }
  }

  /** Both joins merge at the seam, and `e` merges into the last data run of `b`. */
  lemma JoinMergedMerging(a: seq<Element>, b: seq<Element>, e: Element)
    requires |a| > 0 && |b| > 0 && a[|a| - 1].Data? && b[0].Data? && e.Data? && b[|b| - 1].Data?
    ensures AppendParsed(Join(a, b), e) == Join(a, AppendParsed(b, e))
  {
    var j := Join(a, b);
    var m := Data(a[|a| - 1].bytes + b[0].bytes);
    assert j == a[..|a| - 1] + [m] + b[1..];
    if |b| == 1 {
      Regrouped(a[|a| - 1].bytes, b[0].bytes, e.bytes);
      assert j[..|j| - 1] == a[..|a| - 1];
    } else {
      assert j[..|j| - 1] == a[..|a| - 1] + [m] + b[1..|b| - 1];
      assert AppendParsed(b, e)[1..] == b[1..|b| - 1] + [Data(b[|b| - 1].bytes + e.bytes)];
    }
  }

  /** Both joins merge at the seam, and `e` is appended after `b` as it is. */
  lemma JoinMergedPlain(a: seq<Element>, b: seq<Element>, e: Element)
    requires |a| > 0 && |b| > 0 && a[|a| - 1].Data? && b[0].Data? && !(e.Data? && b[|b| - 1].Data?)
    ensures AppendParsed(Join(a, b), e) == Join(a, AppendParsed(b, e))
  {
    var m := Data(a[|a| - 1].bytes + b[0].bytes);
    assert Join(a, b) == a[..|a| - 1] + [m] + b[1..];
    assert AppendParsed(b, e)[1..] == b[1..] + [e];
  }

  /** No merge at the seam, and `e` merges into the last data run of `b`. */
  lemma JoinPlainMerging(a: seq<Element>, b: seq<Element>, e: Element)
    requires |b| > 0 && !(|a| > 0 && a[|a| - 1].Data? && b[0].Data?) && e.Data? && b[|b| - 1].Data?
    ensures AppendParsed(Join(a, b), e) == Join(a, AppendParsed(b, e))
  {
    var j := Join(a, b);
    assert j == a + b;
    assert j[..|j| - 1] == a + b[..|b| - 1];
  }

  /** One byte applied below an existing element prefix only ever extends it. */
  lemma StepJoin(u: Temps, a: seq<Element>, b: byte)
    ensures Step(u.(elements := Join(a, u.elements)), b)
         == Step(u, b).(elements := Join(a, Step(u, b).elements))
  {
    match u.state
    case Idle => AppendParsedJoin(a, u.elements, Data([b]));
    case Iac =>
      AppendParsedJoin(a, u.elements, Data([b]));
      AppendParsedJoin(a, u.elements, Command(b));
    case Negotiating => AppendParsedJoin(a, u.elements, Negotiation(u.id, b));
    case SubnegotiationOption =>
    case SubnegotiationContent =>
    case SubnegotiationContentIac => AppendParsedJoin(a, u.elements, Subnegotiation(u.id, u.content));
  }

  /**
   * Elements are only ever appended (or merged into a final data run): the
   * elements after a run are the ones already there joined with the ones the
   * same run would produce from an empty list.
   */
  lemma {:induction false} RunJoin(t: Temps, s: Bytes)
    ensures Run(t, s)
         == Run(t.(elements := []), s).(elements := Join(t.elements, Run(t.(elements := []), s).elements))
    decreases |s|
  {
    var t0 := t.(elements := []);
    if |s| == 0 {
      assert Join(t.elements, []) == t.elements;
    } else {
      var p := s[..|s| - 1];
      RunJoin(t, p);
      var u := Run(t0, p);
      assert Run(t, p) == u.(elements := Join(t.elements, u.elements));
      StepJoin(u, t.elements, s[|s| - 1]);
    }
  }

  /** Two temporaries that will behave alike on every future byte. */
  predicate Agree(t: Temps, u: Temps)
  {
    && t.elements == u.elements
    && t.state == u.state
    && (t.state in {Negotiating, SubnegotiationContent, SubnegotiationContentIac} ==> t.id == u.id)
    && (t.state in {SubnegotiationContent, SubnegotiationContentIac} ==> t.content == u.content)
  }

  lemma {:induction false} AgreeRun(t: Temps, u: Temps, s: Bytes)
    requires Agree(t, u)
    ensures Agree(Run(t, s), Run(u, s))
    decreases |s|
  {
    if |s| > 0 {
      AgreeRun(t, u, s[..|s| - 1]);
    }
  }

  /** Bytes after the last idle point complete no element. */
  lemma {:induction false} ElementsCompleteAtLastIdle(s: Bytes)
    ensures Run(Fresh, s).elements == Run(Fresh, s[..LastIdle(s)]).elements
    decreases |s|
  {
    var k := LastIdle(s);
    if k < |s| {
      var p := s[..|s| - 1];
      LastIdleMaximal(s);
      assert Run(Fresh, s[..|s|]).state != Idle;
      assert s[..|s|] == s;
      NonIdleStepAddsNothing(Run(Fresh, p), s[|s| - 1]);
      ElementsCompleteAtLastIdle(p);
      assert forall j :: 0 <= j <= |p| ==> p[..j] == s[..j];
    } else {
      assert s[..k] == s;
    }
  }

  /**
   * Parses `input[begin..]` with a fresh parser.  Returns the completed
   * elements and the new value of `begin`: just after the last byte that
   * left the parser idle, or unchanged if none did.
   */
  method Parse(input: Bytes, begin: nat) returns (elements: seq<Element>, newBegin: nat)
    requires begin <= |input|
    ensures elements == Run(Fresh, input[begin..]).elements
    ensures newBegin == begin + LastIdle(input[begin..])
  {
    var temps := new ParseTemps();
    var s := input[begin..];
    newBegin := begin;
    var position := begin;
    while position != |input|
      invariant begin <= position <= |input|
      invariant temps.Snapshot() == Run(Fresh, s[..position - begin])
      invariant newBegin == begin + LastIdle(s[..position - begin])
      decreases |input| - position
    {
      ghost var i := position - begin;
      ParseStep(input, begin, position);
      temps.ParseByte(input[position]);
      assert temps.Snapshot() == Run(Fresh, s[..i + 1]);
      assert temps.state == Run(Fresh, s[..i + 1]).state;
      position := position + 1;
      if temps.state == Idle {
        newBegin := position;
      }
    }
    assert s[..position - begin] == s;
    elements := temps.elements;
  }

  /** One more byte of the input: one more step, and the last idle point moves up if it idles. */
  lemma ParseStep(input: Bytes, begin: nat, position: nat)
    requires begin <= position < |input|
    ensures var s := input[begin..];
            var i := position - begin;
            && Run(Fresh, s[..i + 1]) == Step(Run(Fresh, s[..i]), input[position])
            && LastIdle(s[..i + 1]) == if Run(Fresh, s[..i + 1]).state == Idle then i + 1 else LastIdle(s[..i])
  {
    var s := input[begin..];
    var i := position - begin;
    assert s[..i + 1][..i] == s[..i];
    assert s[i] == input[position];
  }

  /** Empty input completes nothing and consumes nothing. */
  lemma EmptyInput()
    ensures Run(Fresh, []).elements == [] && LastIdle([]) == 0
  {
  }

  /** The whole input is consumed exactly when it ends on a frame boundary. */
  lemma ConsumedAllIffBoundary(s: Bytes)
    ensures LastIdle(s) == |s| <==> (|s| == 0 || Run(Fresh, s).state == Idle)
  {
    assert s[..|s|] == s;
  }

  /** A trailing fragment that never brings the parser back to idle is left unconsumed. */
  lemma {:induction false} PartialFrameUnconsumed(s: Bytes, tail: Bytes)
    requires |s| == 0 || Run(Fresh, s).state == Idle
    requires forall j :: 0 < j <= |tail| ==> Run(Run(Fresh, s), tail[..j]).state != Idle
    ensures LastIdle(s + tail) == |s|
    ensures Run(Fresh, s + tail).elements == Run(Fresh, s).elements
  {
    var st := s + tail;
    assert st[..|s|] == s;
    forall j | |s| < j <= |st|
      ensures Run(Fresh, st[..j]).state != Idle
    {
      assert st[..j] == s + tail[..j - |s|];
      RunAppend(Fresh, s, tail[..j - |s|]);
    }
    LastIdleMaximal(st);
    ElementsCompleteAtLastIdle(st);
  }

  /** A lone IAC after a frame boundary is left unconsumed. */
  lemma LoneIacUnconsumed(s: Bytes)
    requires |s| == 0 || Run(Fresh, s).state == Idle
    ensures LastIdle(s + [IAC]) == |s|
  {
    var t := Run(Fresh, s);
    assert t.state == Idle by {
      if |s| == 0 { assert t == Fresh; }
    }
    assert [IAC][..1] == [IAC];
    PartialFrameUnconsumed(s, [IAC]);
  }

  /** IAC and a verb, with the option byte still missing, are left unconsumed. */
  lemma IacVerbUnconsumed(s: Bytes, verb: byte)
    requires |s| == 0 || Run(Fresh, s).state == Idle
    requires IsVerb(verb)
    ensures LastIdle(s + [IAC, verb]) == |s|
  {
    var t := Run(Fresh, s);
    assert t.state == Idle by {
      if |s| == 0 { assert t == Fresh; }
    }
    IacVerbPending(t, verb);
    PartialFrameUnconsumed(s, [IAC, verb]);
  }

  /** From idle, IAC and a verb leave the parser waiting for the option byte. */
  lemma IacVerbPending(t: Temps, verb: byte)
    requires t.state == Idle && IsVerb(verb)
    ensures forall j :: 0 < j <= |[IAC, verb]| ==> Run(t, [IAC, verb][..j]).state != Idle
  {
    var tail := [IAC, verb];
    RunOne(t, IAC);
    assert tail[..1] == [IAC];
    assert tail[..2] == tail;
    assert tail == [IAC] + [verb];
    RunSnoc(t, [IAC], verb);
    forall j | 0 < j <= |tail|
      ensures Run(t, tail[..j]).state != Idle
    {
    }
  }

  /**
   * Re-parsing what a parse left unconsumed, together with new bytes, gives
   * the elements of one parse of the whole input; only a data run that
   * straddles the cut comes back in two pieces, which `Join` puts together.
   */
  lemma ReparseTail(s: Bytes, more: Bytes)
    ensures Run(Fresh, s + more).elements
         == Join(Run(Fresh, s).elements, Run(Fresh, s[LastIdle(s)..] + more).elements)
  {
    var c := LastIdle(s);
    var y := s[c..] + more;
    SplitAt(s, c);
    Regrouped(s[..c], s[c..], more);
    RunAppend(Fresh, s[..c], y);
    var t := Run(Fresh, s[..c]);
    assert t.state == Idle by {
      if c == 0 { assert s[..c] == []; }
    }
    RunJoin(t, y);
    var t0 := t.(elements := []);
    AgreeRun(t0, Fresh, y);
    ElementsCompleteAtLastIdle(s);
  }
}
