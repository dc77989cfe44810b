/** Encoding of a whole sequence of elements: the concatenation of their encodings. */
module Generator {
  import opened Protocol
  import opened ParseHelper
  import opened Parser
  import opened GenerateHelper

  /** The encodings of `es`, one per element, in order. */
  function EncodeAll(es: seq<Element>): Bytes
    decreases |es|
  {
    if |es| == 0 then [] else EncodeAll(es[..|es| - 1]) + Encode(es[|es| - 1])
  }

  /** Encodes every element, appending each encoding to one growing buffer. */
  method Generate(elements: seq<Element>) returns (result: Bytes)
    ensures result == EncodeAll(elements)
  {
    result := [];
    var i := 0;
    while i < |elements|
      invariant 0 <= i <= |elements|
      invariant result == EncodeAll(elements[..i])
    {
      assert elements[..i + 1][..i] == elements[..i];
      result := GenerateHelper.Generate(result, elements[i]);
      i := i + 1;
    }
    assert elements[..i] == elements;
  }

  /** The per-element encodings, as a list. */
  function Encodings(es: seq<Element>): seq<Bytes>
  {
    seq(|es|, i requires 0 <= i < |es| => Encode(es[i]))
  }

  /** The output is the concatenation of the per-element encodings, so its length is their sum. */
  lemma {:induction false} GeneratedIsConcatenation(es: seq<Element>)
    ensures EncodeAll(es) == Concat(Encodings(es))
    ensures |EncodeAll(es)| == SumLengths(Encodings(es))
    decreases |es|
  {
    if |es| > 0 {
      GeneratedIsConcatenation(es[..|es| - 1]);
      assert Encodings(es)[..|es| - 1] == Encodings(es[..|es| - 1]);
    }
    ConcatLength(Encodings(es));
  }

  /** The element list the parser builds when handed `es` one at a time: data runs merge. */
  function AppendAll(elements: seq<Element>, es: seq<Element>): seq<Element>
    decreases |es|
  {
    if |es| == 0 then elements else AppendParsed(AppendAll(elements, es[..|es| - 1]), es[|es| - 1])
  }

  predicate AllEncodable(es: seq<Element>)
  {
    forall i :: 0 <= i < |es| ==> Encodable(es[i]) && (es[i].Negotiation? ==> IsVerb(es[i].request))
  }

  /** Parsing a generated stream from the idle state appends the elements, merging neighbouring data. */
  lemma {:induction false} GeneratedParses(t: Temps, es: seq<Element>)
    requires t.state == Idle
    requires AllEncodable(es)
    ensures Run(t, EncodeAll(es)).state == Idle
    ensures Run(t, EncodeAll(es)).elements == AppendAll(t.elements, es)
    decreases |es|
  {
    if |es| > 0 {
      var p := es[..|es| - 1];
      GeneratedParses(t, p);
      RunAppend(t, EncodeAll(p), Encode(es[|es| - 1]));
      EncodedElementParses(Run(t, EncodeAll(p)), es[|es| - 1]);
    }
  }

  /** Without neighbouring data runs, handing the elements to the parser rebuilds exactly them. */
  lemma {:induction false} AppendAllIdentity(es: seq<Element>)
    requires NoAdjacentData(es)
    ensures AppendAll([], es) == es
    decreases |es|
  {
    if |es| > 0 {
      var p := es[..|es| - 1];
      assert NoAdjacentData(p);
      AppendAllIdentity(p);
    }
  }

  /**
   * Round trip of a whole stream: parsing the generated bytes gives back the
   * elements, and the whole input is consumed.
   */
  lemma GenerateThenParse(es: seq<Element>)
    requires AllEncodable(es)
    requires NoAdjacentData(es)
    ensures Run(Fresh, EncodeAll(es)).elements == es
    ensures LastIdle(EncodeAll(es)) == |EncodeAll(es)|
  {
    GeneratedParses(Fresh, es);
    AppendAllIdentity(es);
    ConsumedAllIffBoundary(EncodeAll(es));
  }
}
