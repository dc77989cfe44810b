/**
 * MSDP (Mud Server Data Protocol, option 69) variables: a name and a value
 * that is a string, an array of strings or a table of variables, with the
 * structural equality of the library.
 */
module MsdpVariable {
  import opened Protocol

  /** The MSDP option code. */
  const MSDP: byte := 69

  const VAR: byte := 1
  const VAL: byte := 2
  const TABLE_OPEN: byte := 3
  const TABLE_CLOSE: byte := 4
  const ARRAY_OPEN: byte := 5
  const ARRAY_CLOSE: byte := 6

  datatype Value =
    | Str(text: Bytes)
    | Arr(items: seq<Bytes>)
    | Table(entries: seq<Variable>)

  datatype Variable = Variable(name: Bytes, value: Value)

  /** The default-constructed variable: empty name, empty string value. */
  const Unnamed: Variable := Variable([], Str([]))

  /**
   * The library's equality: equal names, and values of the same
   * alternative with equal contents (tables compared entry by entry with
   * this same equality).  It is exactly structural equality of the model.
   */
  function Equals(a: Variable, b: Variable): (r: bool)
    ensures r <==> a == b
    decreases a, 1
  {
    a.name == b.name && ValueEquals(a.value, b.value)
  }

  /** Two values are equal exactly when they are the same alternative with identical contents. */
  function ValueEquals(a: Value, b: Value): (r: bool)
    ensures r <==> a == b
    decreases a, 0
  {
    match a
    case Str(s) => b.Str? && b.text == s
    case Arr(xs) => b.Arr? && b.items == xs
    case Table(es) => b.Table? && EntriesEqual(es, b.entries)
  }

  /** Two entry lists are equal exactly when they have the same entries in the same order. */
  function EntriesEqual(xs: seq<Variable>, ys: seq<Variable>): (r: bool)
    ensures r <==> xs == ys
    decreases xs
  {
    if |xs| == 0 then |ys| == 0
    else if |ys| == 0 then false
    else
      assert xs == [xs[0]] + xs[1..] && ys == [ys[0]] + ys[1..];
      Equals(xs[0], ys[0]) && EntriesEqual(xs[1..], ys[1..])
  }

  function NotEquals(a: Variable, b: Variable): bool
  {
    !Equals(a, b)
  }

  /**
   * Values of different alternatives are never equal, whichever side holds
   * which, and `!=` is the negation of `==`.
   */
  lemma AlternativesDiffer(name: Bytes, s: Bytes, xs: seq<Bytes>, es: seq<Variable>)
    ensures !Equals(Variable(name, Str(s)), Variable(name, Arr(xs)))
    ensures !Equals(Variable(name, Arr(xs)), Variable(name, Str(s)))
    ensures !Equals(Variable(name, Str(s)), Variable(name, Table(es)))
    ensures !Equals(Variable(name, Table(es)), Variable(name, Str(s)))
    ensures !Equals(Variable(name, Arr(xs)), Variable(name, Table(es)))
    ensures !Equals(Variable(name, Table(es)), Variable(name, Arr(xs)))
    ensures NotEquals(Variable(name, Str(s)), Variable(name, Arr(xs)))
  {
  }

  /** Equality is reflexive and symmetric, and `!=` holds exactly when the variables differ. */
  lemma EqualityLaws(a: Variable, b: Variable)
    ensures Equals(a, a)
    ensures Equals(a, b) <==> Equals(b, a)
    ensures NotEquals(a, b) <==> a != b
  {
  }
}
