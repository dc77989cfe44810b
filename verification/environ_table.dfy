/**
 * The NEW-ENVIRON server's variable tables.  Each is an ordered map from
 * names to values; here it is an association list kept sorted by name in
 * the map's own order (byte-wise lexicographic, a proper prefix first), so
 * that walking the list visits the names as iterating the map does.
 */
module EnvironTable {
  import opened Protocol

  datatype Entry = Entry(name: Bytes, value: Bytes)

  /** Lexicographic order on byte strings, as the map compares its keys. */
  predicate Before(a: Bytes, b: Bytes)
    decreases |a|
  {
    |b| > 0 && (|a| == 0 || a[0] < b[0] || (a[0] == b[0] && Before(a[1..], b[1..])))
  }

  lemma {:induction false} BeforeIrreflexive(a: Bytes)
    ensures !Before(a, a)
    decreases |a|
  {
    if |a| > 0 {
      BeforeIrreflexive(a[1..]);
    }
  }

  lemma {:induction false} BeforeTransitive(a: Bytes, b: Bytes, c: Bytes)
    requires Before(a, b) && Before(b, c)
    ensures Before(a, c)
    decreases |a|
  {
    if |a| > 0 && a[0] == b[0] && b[0] == c[0] {
      BeforeTransitive(a[1..], b[1..], c[1..]);
    }
  }

  /** Any two different names are ordered one way or the other. */
  lemma {:induction false} BeforeTotal(a: Bytes, b: Bytes)
    ensures a == b || Before(a, b) || Before(b, a)
    decreases |a|
  {
    if |a| > 0 && |b| > 0 && a[0] == b[0] {
      BeforeTotal(a[1..], b[1..]);
      if a[1..] == b[1..] {
        assert a == [a[0]] + a[1..] && b == [b[0]] + b[1..];
      }
    }
  }

  /** Names strictly increasing: each name occurs once, in the map's order. */
  predicate Ordered(es: seq<Entry>)
  {
    forall i, j :: 0 <= i < j < |es| ==> Before(es[i].name, es[j].name)
  }

  /** Every name in `es` comes after `name`. */
  predicate AllAfter(name: Bytes, es: seq<Entry>)
  {
    forall i :: 0 <= i < |es| ==> Before(name, es[i].name)
  }

  /** `find`: the value stored under a name. */
  function Lookup(es: seq<Entry>, name: Bytes): Option<Bytes>
    decreases |es|
  {
    if |es| == 0 then None
    else if es[0].name == name then Some(es[0].value)
    else Lookup(es[1..], name)
  }

  /** `table[name] = value`: overwrite the entry of that name, or insert one in order. */
  function Assigned(es: seq<Entry>, name: Bytes, value: Bytes): seq<Entry>
    decreases |es|
  {
    if |es| == 0 then [Entry(name, value)]
    else if es[0].name == name then [Entry(name, value)] + es[1..]
    else if Before(name, es[0].name) then [Entry(name, value)] + es
    else [es[0]] + Assigned(es[1..], name, value)
  }

  /** `table.erase(name)`. */
  function Erased(es: seq<Entry>, name: Bytes): seq<Entry>
    decreases |es|
  {
    if |es| == 0 then []
    else if es[0].name == name then es[1..]
    else [es[0]] + Erased(es[1..], name)
  }

  /** A name before every name of the table is not in it. */
  lemma {:induction false} AbsentBefore(name: Bytes, es: seq<Entry>)
    requires AllAfter(name, es)
    ensures Lookup(es, name) == None
    decreases |es|
  {
    if |es| > 0 {
      BeforeIrreflexive(name);
      AbsentBefore(name, es[1..]);
    }
  }

  /** After an assignment the name holds the new value, and every other name what it held. */
  lemma {:induction false} AssignedLookup(es: seq<Entry>, name: Bytes, value: Bytes, other: Bytes)
    ensures Lookup(Assigned(es, name, value), name) == Some(value)
    ensures other != name ==> Lookup(Assigned(es, name, value), other) == Lookup(es, other)
    decreases |es|
  {
    if |es| > 0 && es[0].name != name && !Before(name, es[0].name) {
      AssignedLookup(es[1..], name, value, other);
    }
  }

  /** An assignment keeps the names in order, and adds only its own name. */
  lemma {:induction false} AssignedOrdered(es: seq<Entry>, name: Bytes, value: Bytes)
    requires Ordered(es)
    ensures Ordered(Assigned(es, name, value))
    ensures forall x :: AllAfter(x, es) && Before(x, name) ==> AllAfter(x, Assigned(es, name, value))
    decreases |es|
  {
    var r := Assigned(es, name, value);
    if |es| == 0 {
    } else if es[0].name == name {
      assert r[1..] == es[1..];
    } else if Before(name, es[0].name) {
      forall j | 1 <= j < |r|
        ensures Before(name, r[j].name)
      {
        if j > 1 {
          BeforeTransitive(name, es[0].name, es[j - 1].name);
        }
      }
    } else {
      BeforeTotal(name, es[0].name);
      var rest := Assigned(es[1..], name, value);
      AssignedOrdered(es[1..], name, value);
      assert AllAfter(es[0].name, es[1..]);
      assert AllAfter(es[0].name, rest);
      assert r == [es[0]] + rest;
      forall x | AllAfter(x, es) && Before(x, name)
        ensures AllAfter(x, r)
      {
        forall j | 0 <= j < |es[1..]|
          ensures Before(x, es[1..][j].name)
        {
          assert es[1..][j] == es[j + 1];
        }
      }
    }
  }

  /** An erasure leaves the name absent and every other name as it was. */
  lemma {:induction false} ErasedLookup(es: seq<Entry>, name: Bytes, other: Bytes)
    requires Ordered(es)
    ensures Lookup(Erased(es, name), name) == None
    ensures other != name ==> Lookup(Erased(es, name), other) == Lookup(es, other)
    decreases |es|
  {
    if |es| > 0 {
      if es[0].name == name {
        assert AllAfter(name, es[1..]);
        AbsentBefore(name, es[1..]);
      } else {
        ErasedLookup(es[1..], name, other);
      }
    }
  }

  /** An erasure keeps the names in order. */
  lemma {:induction false} ErasedOrdered(es: seq<Entry>, name: Bytes)
    requires Ordered(es)
    ensures Ordered(Erased(es, name))
    ensures forall x :: AllAfter(x, es) ==> AllAfter(x, Erased(es, name))
    decreases |es|
  {
    var r := Erased(es, name);
    if |es| > 0 && es[0].name != name {
      ErasedOrdered(es[1..], name);
      assert AllAfter(es[0].name, es[1..]);
      assert r == [es[0]] + Erased(es[1..], name);
      forall x | AllAfter(x, es)
        ensures AllAfter(x, r)
      {
        assert AllAfter(x, es[1..]);
      }
    } else if |es| > 0 {
      forall x | AllAfter(x, es)
        ensures AllAfter(x, r)
      {
        assert r == es[1..];
      }
    }
  }
}
