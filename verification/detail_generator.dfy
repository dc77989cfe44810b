/**
 * The token generator: element tokens are encoded into one pending byte
 * stream, which is flushed as a stream token whenever a pass-through token
 * arrives and once more at the end.
 */
module DetailGenerator {
  import opened Protocol
  import GenerateHelper
  import opened Generator
  import opened ByteConverter

  /** Tokens emitted so far and the pending (not yet flushed) byte stream. */
  datatype Pending = Pending(results: seq<StreamToken>, stream: Bytes)

  function FlushPending(p: Pending): seq<StreamToken>
  {
    if p.stream == [] then p.results else p.results + [Stream(p.stream)]
  }

  function GenStep(p: Pending, t: Token): Pending
  {
    match t
    case Elem(e) => p.(stream := p.stream + GenerateHelper.Encode(e))
    case PassThrough(tag) => Pending(FlushPending(p) + [Opaque(tag)], [])
  }

  function Gen(tokens: seq<Token>): Pending
    decreases |tokens|
  {
    if |tokens| == 0 then Pending([], []) else GenStep(Gen(tokens[..|tokens| - 1]), tokens[|tokens| - 1])
  }

  /** The stream tokens generated for `tokens`. */
  function Generated(tokens: seq<Token>): seq<StreamToken>
  {
    FlushPending(Gen(tokens))
  }

  method Generate(tokens: seq<Token>) returns (results: seq<StreamToken>)
    ensures results == Generated(tokens)
  {
    results := [];
    var stream: Bytes := [];
    for i := 0 to |tokens|
      invariant Pending(results, stream) == Gen(tokens[..i])
    {
      assert tokens[..i + 1][..i] == tokens[..i];
      match tokens[i]
      case Elem(elem) =>
        stream := GenerateHelper.Generate(stream, elem);
      case PassThrough(any) =>
        if stream != [] {
          results := results + [Stream(stream)];
          stream := [];
        }
        results := results + [Opaque(any)];
    }
    assert tokens[..|tokens|] == tokens;
    if stream != [] {
      results := results + [Stream(stream)];
    }
  }

  /** The elements among the tokens, in order. */
  function ElementsOf(tokens: seq<Token>): seq<Element>
    decreases |tokens|
  {
    if |tokens| == 0 then []
    else ElementsOf(tokens[..|tokens| - 1])
           + (match tokens[|tokens| - 1] case Elem(e) => [e] case PassThrough(_) => [])
  }

  /** The pass-through tags among tokens, in order. */
  function Tags(tokens: seq<Token>): seq<nat>
    decreases |tokens|
  {
    if |tokens| == 0 then []
    else Tags(tokens[..|tokens| - 1])
           + (match tokens[|tokens| - 1] case Elem(_) => [] case PassThrough(x) => [x])
  }

  /** The pass-through tags among stream tokens, in order. */
  function OpaqueTags(results: seq<StreamToken>): seq<nat>
    decreases |results|
  {
    if |results| == 0 then []
    else OpaqueTags(results[..|results| - 1])
           + (match results[|results| - 1] case Stream(_) => [] case Opaque(x) => [x])
  }

  predicate NoEmptyStream(results: seq<StreamToken>)
  {
    forall i :: 0 <= i < |results| ==> (results[i].Stream? ==> results[i].bytes != [])
  }

  lemma {:induction false} OpaqueTagsAppend(a: seq<StreamToken>, b: seq<StreamToken>)
    ensures OpaqueTags(a + b) == OpaqueTags(a) + OpaqueTags(b)
    decreases |b|
  {
    if |b| == 0 {
      assert a + b == a;
    } else {
      assert (a + b)[..|a + b| - 1] == a + b[..|b| - 1];
      OpaqueTagsAppend(a, b[..|b| - 1]);
    }
  }

  /**
   * What the generator keeps: no empty byte stream is emitted, the emitted
   * bytes are the encoding of the element tokens in order, and the
   * pass-through values come out in their original order.
   */
  lemma {:induction false} GenInvariant(tokens: seq<Token>)
    ensures NoEmptyStream(Gen(tokens).results)
    ensures Flatten(Gen(tokens).results) + Gen(tokens).stream == EncodeAll(ElementsOf(tokens))
    ensures OpaqueTags(Gen(tokens).results) == Tags(tokens)
    decreases |tokens|
  {
    if |tokens| > 0 {
      var p := tokens[..|tokens| - 1];
      GenInvariant(p);
      match tokens[|tokens| - 1]
      case Elem(e) =>
        ElemKeepsSound(Gen(p), ElementsOf(p), Tags(p), e);
        assert Tags(tokens) == Tags(p) + [];
        assert Tags(p) + [] == Tags(p);
      case PassThrough(x) =>
        PassThroughKeepsSound(Gen(p), ElementsOf(p), Tags(p), x);
        assert ElementsOf(tokens) == ElementsOf(p) + [];
        assert ElementsOf(p) + [] == ElementsOf(p);
    }
  }

  /** The state the generator keeps after the elements `es` and the tags `tags`. */
  predicate Sound(g: Pending, es: seq<Element>, tags: seq<nat>)
  {
    && NoEmptyStream(g.results)
    && Flatten(g.results) + g.stream == EncodeAll(es)
    && OpaqueTags(g.results) == tags
  }

  lemma ElemKeepsSound(g: Pending, es: seq<Element>, tags: seq<nat>, e: Element)
    requires Sound(g, es, tags)
    ensures Sound(GenStep(g, Elem(e)), es + [e], tags)
  {
    assert (es + [e])[..|es|] == es;
    Regrouped(Flatten(g.results), g.stream, GenerateHelper.Encode(e));
  }

  lemma PassThroughKeepsSound(g: Pending, es: seq<Element>, tags: seq<nat>, x: nat)
    requires Sound(g, es, tags)
    ensures Sound(GenStep(g, PassThrough(x)), es, tags + [x])
  {
    var f := FlushPending(g);
    if g.stream != [] {
      FlattenAppend(g.results, [Stream(g.stream)]);
      assert Flatten([Stream(g.stream)]) == g.stream by { assert [Stream(g.stream)][..0] == []; }
      OpaqueTagsAppend(g.results, [Stream(g.stream)]);
      assert OpaqueTags([Stream(g.stream)]) == [] by { assert [Stream(g.stream)][..0] == []; }
    }
    assert Flatten(f) == EncodeAll(es);
    assert OpaqueTags(f) == tags;
    FlattenAppend(f, [Opaque(x)]);
    assert Flatten([Opaque(x)]) == [] by { assert [Opaque(x)][..0] == []; }
    OpaqueTagsAppend(f, [Opaque(x)]);
    assert OpaqueTags([Opaque(x)]) == [x] by { assert [Opaque(x)][..0] == []; }
  }

  /**
   * The generator's contract: no empty byte stream, the bytes are exactly
   * the encoding of the element tokens, and the pass-through values keep
   * their order.
   */
  lemma GeneratedContract(tokens: seq<Token>)
    ensures NoEmptyStream(Generated(tokens))
    ensures Flatten(Generated(tokens)) == EncodeAll(ElementsOf(tokens))
    ensures OpaqueTags(Generated(tokens)) == Tags(tokens)
  {
    GenInvariant(tokens);
    var g := Gen(tokens);
    if g.stream != [] {
      FlattenAppend(g.results, [Stream(g.stream)]);
      assert Flatten([Stream(g.stream)]) == g.stream by { assert [Stream(g.stream)][..0] == []; }
      OpaqueTagsAppend(g.results, [Stream(g.stream)]);
      assert OpaqueTags([Stream(g.stream)]) == [] by { assert [Stream(g.stream)][..0] == []; }
    } else {
      assert Flatten(g.results) + [] == Flatten(g.results);
    }
  }

  /** Generation restarts cleanly after every flush. */
  lemma {:induction false} GenAfterFlush(a: seq<Token>, b: seq<Token>)
    requires Gen(a).stream == []
    ensures Gen(a + b) == Pending(Gen(a).results + Gen(b).results, Gen(b).stream)
    decreases |b|
  {
    if |b| == 0 {
      assert a + b == a;
    } else {
      var p := b[..|b| - 1];
      assert (a + b)[..|a + b| - 1] == a + p;
      GenAfterFlush(a, p);
      StepAfterFlush(Gen(a).results, Gen(p), b[|b| - 1]);
    }
  }

  /** Earlier results do not change what one token does to the pending state. */
  lemma StepAfterFlush(done: seq<StreamToken>, g: Pending, t: Token)
    ensures GenStep(Pending(done + g.results, g.stream), t)
            == Pending(done + GenStep(g, t).results, GenStep(g, t).stream)
  {
    match t
    case Elem(e) =>
    case PassThrough(x) =>
      if g.stream == [] {
        Regrouped(done, g.results, [Opaque(x)]);
      } else {
        Regrouped(done, g.results, [Stream(g.stream)]);
        Regrouped(done, g.results + [Stream(g.stream)], [Opaque(x)]);
      }
  }

  /**
   * A pass-through token splits the output: everything generated for the
   * tokens before it, then the token, then everything generated for the
   * tokens after it.
   */
  lemma SplitAtPassThrough(a: seq<Token>, tag: nat, b: seq<Token>)
    ensures Generated(a + [PassThrough(tag)] + b) == Generated(a) + [Opaque(tag)] + Generated(b)
  {
    var ap := a + [PassThrough(tag)];
    assert ap[..|ap| - 1] == a;
    GenAfterFlush(ap, b);
    var g := Gen(b);
    if g.stream != [] {
      assert Gen(ap).results + g.results + [Stream(g.stream)] == Gen(ap).results + (g.results + [Stream(g.stream)]);
    }
  }

  /** Element tokens alone give one stream token holding their encoding, or nothing if it is empty. */
  lemma {:induction false} OnlyElements(tokens: seq<Token>)
    requires forall i :: 0 <= i < |tokens| ==> tokens[i].Elem?
    ensures Gen(tokens).results == []
    ensures Generated(tokens) == if EncodeAll(ElementsOf(tokens)) == [] then [] else [Stream(EncodeAll(ElementsOf(tokens)))]
    decreases |tokens|
  {
    GenInvariant(tokens);
    if |tokens| > 0 {
      OnlyElements(tokens[..|tokens| - 1]);
    }
  }

  /** Flattening the generator's output gives the same bytes as encoding the elements directly. */
  lemma ConvertedEqualsEncoded(tokens: seq<Token>)
    ensures Flatten(Generated(tokens)) == EncodeAll(ElementsOf(tokens))
  {
    GeneratedContract(tokens);
  }
}
