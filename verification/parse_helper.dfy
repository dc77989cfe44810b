/**
 * The byte-at-a-time Telnet framing parser (IAC commands of RFC 854 and the
 * IAC SB ... IAC SE envelope of RFC 855).  `Step` is the specification of one
 * byte; the class `ParseTemps` holds the mutable parse state and its methods
 * are proved against `Step`.
 */
module ParseHelper {
  import opened Protocol

  datatype ParseState =
    | Idle
    | Iac
    | Negotiating
    | SubnegotiationOption
    | SubnegotiationContent
    | SubnegotiationContentIac

  /** A snapshot of the parse temporaries: finished elements, subnegotiation content, state, pending id. */
  datatype Temps = Temps(elements: seq<Element>, content: Bytes, state: ParseState, id: byte)

  /** The temporaries a fresh parser starts with (the pending id is not yet meaningful). */
  const Fresh: Temps := Temps([], [], Idle, 0)

  /** No two neighbouring elements are both data runs. */
  predicate NoAdjacentData(elements: seq<Element>)
  {
    forall i :: 0 <= i < |elements| - 1 ==> !(elements[i].Data? && elements[i + 1].Data?)
  }

  /** Appends an element, merging a data run into a data run that ends the list. */
  function AppendParsed(elements: seq<Element>, e: Element): seq<Element>
  {
    if e.Data? && |elements| > 0 && elements[|elements| - 1].Data? then
      elements[..|elements| - 1] + [Data(elements[|elements| - 1].bytes + e.bytes)]
    else
      elements + [e]
  }

  /** The effect of one byte on the temporaries. */
  function Step(t: Temps, b: byte): Temps
  {
    match t.state
    case Idle =>
      if b == IAC then t.(state := Iac)
      else t.(elements := AppendParsed(t.elements, Data([b])))
    case Iac =>
      if b == IAC then t.(elements := AppendParsed(t.elements, Data([b])), state := Idle)
      else if IsVerb(b) then t.(id := b, state := Negotiating)
      else if b == SB then t.(state := SubnegotiationOption)
      else t.(elements := AppendParsed(t.elements, Command(b)), state := Idle)
    case Negotiating =>
      t.(elements := AppendParsed(t.elements, Negotiation(t.id, b)), state := Idle)
    case SubnegotiationOption =>
      t.(id := b, content := [], state := SubnegotiationContent)
    case SubnegotiationContent =>
      if b == IAC then t.(state := SubnegotiationContentIac)
      else t.(content := t.content + [b], state := SubnegotiationContent)
    case SubnegotiationContentIac =>
      if b == SE then t.(elements := AppendParsed(t.elements, Subnegotiation(t.id, t.content)), state := Idle)
      else t.(content := t.content + [b], state := SubnegotiationContent)
  }

  /** Appending keeps the list free of neighbouring data runs. */
  lemma AppendParsedKeepsNoAdjacentData(elements: seq<Element>, e: Element)
    requires NoAdjacentData(elements)
    ensures NoAdjacentData(AppendParsed(elements, e))
    ensures |AppendParsed(elements, e)| >= 1
  {
  }

  /** Appending a data run after a data run is the same as appending their concatenation. */
  lemma AppendParsedMergesData(elements: seq<Element>, x: Bytes, y: Bytes)
    ensures AppendParsed(AppendParsed(elements, Data(x)), Data(y)) == AppendParsed(elements, Data(x + y))
  {
    var n := |elements|;
    if n > 0 && elements[n - 1].Data? {
      assert elements[n - 1].bytes + x + y == elements[n - 1].bytes + (x + y);
    }
  }

  /** One byte never breaks the no-neighbouring-data-runs property. */
  lemma StepKeepsNoAdjacentData(t: Temps, b: byte)
    requires NoAdjacentData(t.elements)
    ensures NoAdjacentData(Step(t, b).elements)
  {
    match t.state
    case Idle => AppendParsedKeepsNoAdjacentData(t.elements, Data([b]));
    case Iac =>
      AppendParsedKeepsNoAdjacentData(t.elements, Data([b]));
      AppendParsedKeepsNoAdjacentData(t.elements, Command(b));
    case Negotiating => AppendParsedKeepsNoAdjacentData(t.elements, Negotiation(t.id, b));
    case SubnegotiationOption =>
    case SubnegotiationContent =>
    case SubnegotiationContentIac => AppendParsedKeepsNoAdjacentData(t.elements, Subnegotiation(t.id, t.content));
  }

  /** A byte that leaves the parser outside the idle state completes no element. */
  lemma NonIdleStepAddsNothing(t: Temps, b: byte)
    requires Step(t, b).state != Idle
    ensures Step(t, b).elements == t.elements
  {
  }

  /** The parse temporaries, updated in place one byte at a time. */
  class ParseTemps {
    var elements: seq<Element>
    var subnegotiationContent: Bytes
    var state: ParseState
    var id: byte

    function Snapshot(): Temps
      reads this
    {
      Temps(elements, subnegotiationContent, state, id)
    }

    constructor ()
      ensures Snapshot() == Fresh
    {
      elements := [];
      subnegotiationContent := [];
      state := Idle;
      id := 0;
    }

    /** Appends or merges an element into `elements`. */
    method AppendParsedElement(e: Element)
      modifies this`elements
      ensures elements == AppendParsed(old(elements), e)
    {
      if e.Data? && |elements| > 0 && elements[|elements| - 1].Data? {
        var last := elements[|elements| - 1];
        elements := elements[..|elements| - 1] + [Data(last.bytes + e.bytes)];
      } else {
        elements := elements + [e];
      }
    }

    method ParseIdle(b: byte)
      requires state == Idle
      modifies this
      ensures Snapshot() == Step(old(Snapshot()), b)
    {
      if b == IAC {
        state := Iac;
      } else {
        AppendParsedElement(Data([b]));
      }
    }

    method ParseIac(b: byte)
      requires state == Iac
      modifies this
      ensures Snapshot() == Step(old(Snapshot()), b)
    {
      if b == IAC {
        AppendParsedElement(Data([b]));
        state := Idle;
      } else if IsVerb(b) {
        id := b;
        state := Negotiating;
      } else if b == SB {
        state := SubnegotiationOption;
      } else {
        AppendParsedElement(Command(b));
        state := Idle;
      }
    }

    method ParseNegotiation(b: byte)
      requires state == Negotiating
      modifies this
      ensures Snapshot() == Step(old(Snapshot()), b)
    {
      AppendParsedElement(Negotiation(id, b));
      state := Idle;
    }

    method ParseSubnegotiation(b: byte)
      requires state == SubnegotiationOption
      modifies this
      ensures Snapshot() == Step(old(Snapshot()), b)
    {
      id := b;
      subnegotiationContent := [];
      state := SubnegotiationContent;
    }

    method ParseSubnegotiationContent(b: byte)
      requires state == SubnegotiationContent
      modifies this
      ensures Snapshot() == Step(old(Snapshot()), b)
    {
      if b == IAC {
        state := SubnegotiationContentIac;
      } else {
        subnegotiationContent := subnegotiationContent + [b];
        state := SubnegotiationContent;
      }
    }

    method ParseSubnegotiationContentIac(b: byte)
      requires state == SubnegotiationContentIac
      modifies this
      ensures Snapshot() == Step(old(Snapshot()), b)
    {
      if b == SE {
        AppendParsedElement(Subnegotiation(id, subnegotiationContent));
        state := Idle;
      } else {
        subnegotiationContent := subnegotiationContent + [b];
        state := SubnegotiationContent;
      }
    }

    /** Feeds one byte to the parser, dispatching on the current state. */
    method ParseByte(b: byte)
      modifies this
      ensures Snapshot() == Step(old(Snapshot()), b)
    {
      match state
      case Idle => ParseIdle(b);
      case Iac => ParseIac(b);
      case Negotiating => ParseNegotiation(b);
      case SubnegotiationOption => ParseSubnegotiation(b);
      case SubnegotiationContent => ParseSubnegotiationContent(b);
      case SubnegotiationContentIac => ParseSubnegotiationContentIac(b);
    }
  }
}
