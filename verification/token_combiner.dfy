/** Combines the results of all slots connected to a signal into one token list. */
module TokenCombiner {
  import opened Protocol

  /** The left fold that appends each slot's result to the accumulated list. */
  function Accumulate(acc: seq<Token>, results: seq<seq<Token>>): seq<Token>
    decreases |results|
  {
    if |results| == 0 then acc else Accumulate(acc + results[0], results[1..])
  }

  /** The slot results, one after another: as many tokens as all of them hold. */
  function Combine(results: seq<seq<Token>>): (r: seq<Token>)
    ensures |r| == TotalLength(results)
  {
    AccumulateLength([], results);
    Accumulate([], results)
  }

  /** Number of tokens across all slot results. */
  function TotalLength(results: seq<seq<Token>>): nat
    decreases |results|
  {
    if |results| == 0 then 0 else |results[0]| + TotalLength(results[1..])
  }

  /** Where slot `i`'s tokens start in the combined list. */
  function Offset(results: seq<seq<Token>>, i: nat): nat
    requires i <= |results|
  {
    TotalLength(results[..i])
  }

  lemma {:induction false} AccumulateLength(acc: seq<Token>, results: seq<seq<Token>>)
    ensures |Accumulate(acc, results)| == |acc| + TotalLength(results)
    decreases |results|
  {
    if |results| > 0 {
      AccumulateLength(acc + results[0], results[1..]);
    }
  }

  lemma {:induction false} AccumulateKeepsPrefix(acc: seq<Token>, results: seq<seq<Token>>)
    ensures |acc| <= |Accumulate(acc, results)|
    ensures Accumulate(acc, results)[..|acc|] == acc
    decreases |results|
  {
    if |results| > 0 {
      AccumulateKeepsPrefix(acc + results[0], results[1..]);
      assert (acc + results[0])[..|acc|] == acc;
    }
  }

  /**
   * No token is dropped or duplicated: token `j` of slot `i` sits at
   * position Offset(i) + j of the combined list, and nothing else is there.
   */
  lemma {:induction false} AccumulatePosition(acc: seq<Token>, results: seq<seq<Token>>, i: nat, j: nat)
    requires i < |results| && j < |results[i]|
    ensures |acc| + Offset(results, i) + j < |Accumulate(acc, results)|
    ensures Accumulate(acc, results)[|acc| + Offset(results, i) + j] == results[i][j]
    decreases |results|
  {
    AccumulateLength(acc, results);
    TotalLengthSplit(results, i);
    if i == 0 {
      assert results[..0] == [];
      AccumulateKeepsPrefix(acc + results[0], results[1..]);
      assert (acc + results[0])[|acc| + j] == results[0][j];
    } else {
      AccumulatePosition(acc + results[0], results[1..], i - 1, j);
      assert results[1..][..i - 1] == results[1..i];
      assert results[..i][1..] == results[1..i];
      assert TotalLength(results[..i]) == |results[0]| + TotalLength(results[1..i]);
    }
  }

  lemma {:induction false} TotalLengthSplit(results: seq<seq<Token>>, i: nat)
    requires i <= |results|
    ensures TotalLength(results) == TotalLength(results[..i]) + TotalLength(results[i..])
    decreases i
  {
    if i > 0 {
      TotalLengthSplit(results[1..], i - 1);
      assert results[1..][..i - 1] == results[..i][1..];
      assert results[1..][i - 1..] == results[i..];
    } else {
      assert results[..0] == [] && results[0..] == results;
    }
  }

  /** Token `j` of slot `i` is at position Offset(i) + j of `combined`. */
  predicate PlacedAt(combined: seq<Token>, results: seq<seq<Token>>, i: nat, j: nat)
    requires i < |results| && j < |results[i]|
  {
    Offset(results, i) + j < |combined| && combined[Offset(results, i) + j] == results[i][j]
  }

  /** The combined list holds every slot's tokens, in slot order, and nothing else. */
  lemma CombinedContents(results: seq<seq<Token>>)
    ensures |Combine(results)| == TotalLength(results)
    ensures forall i: nat, j: nat :: i < |results| && j < |results[i]| ==> PlacedAt(Combine(results), results, i, j)
  {
    AccumulateLength([], results);
    forall i: nat, j: nat | i < |results| && j < |results[i]|
      ensures PlacedAt(Combine(results), results, i, j)
    {
      AccumulatePosition([], results, i, j);
    }
  }

  /** An empty range of slot results combines to an empty list. */
  lemma CombineEmpty()
    ensures Combine([]) == []
  {
  }
}
