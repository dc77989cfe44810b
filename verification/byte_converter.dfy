/** Flattens the generator's stream tokens into one byte buffer, dropping pass-through values. */
module ByteConverter {
  import opened Protocol

  /** The bytes of every stream token, in order; pass-through tokens contribute nothing. */
  function Flatten(tokens: seq<StreamToken>): Bytes
    decreases |tokens|
  {
    if |tokens| == 0 then []
    else
      Flatten(tokens[..|tokens| - 1])
        + (match tokens[|tokens| - 1] case Stream(bytes) => bytes case Opaque(_) => [])
  }

  /** Total number of bytes carried by the stream tokens. */
  function StreamLength(tokens: seq<StreamToken>): nat
    decreases |tokens|
  {
    if |tokens| == 0 then 0
    else
      StreamLength(tokens[..|tokens| - 1])
        + (match tokens[|tokens| - 1] case Stream(bytes) => |bytes| case Opaque(_) => 0)
  }

  /** Appends the bytes of every stream token to one result buffer. */
  method Send(tokens: seq<StreamToken>) returns (result: Bytes)
    ensures result == Flatten(tokens)
  {
    result := [];
    for i := 0 to |tokens|
      invariant result == Flatten(tokens[..i])
    {
      assert tokens[..i + 1][..i] == tokens[..i];
      match tokens[i]
      case Stream(data) => result := result + data;
      case Opaque(_) =>
    }
    assert tokens[..|tokens|] == tokens;
  }

  /** The output length is the sum of the stream-token lengths. */
  lemma {:induction false} FlattenLength(tokens: seq<StreamToken>)
    ensures |Flatten(tokens)| == StreamLength(tokens)
    decreases |tokens|
  {
    if |tokens| > 0 {
      FlattenLength(tokens[..|tokens| - 1]);
    }
  }

  lemma {:induction false} FlattenAppend(a: seq<StreamToken>, b: seq<StreamToken>)
    ensures Flatten(a + b) == Flatten(a) + Flatten(b)
    decreases |b|
  {
    if |b| == 0 {
      assert a + b == a;
    } else {
      assert (a + b)[..|a + b| - 1] == a + b[..|b| - 1];
      FlattenAppend(a, b[..|b| - 1]);
    }
  }

  /** A pass-through token contributes nothing, wherever it sits. */
  lemma PassThroughContributesNothing(a: seq<StreamToken>, tag: nat, b: seq<StreamToken>)
    ensures Flatten(a + [Opaque(tag)] + b) == Flatten(a + b)
  {
    FlattenAppend(a + [Opaque(tag)], b);
    FlattenAppend(a, [Opaque(tag)]);
    FlattenAppend(a, b);
    assert Flatten([Opaque(tag)]) == [] by {
      assert [Opaque(tag)][..0] == [];
    }
  }
}
