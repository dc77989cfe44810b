/**
 * The MSDP encoder: VAR, the name, VAL, then the value.  A string is
 * copied raw; an array is ARRAY_OPEN, VAL and each element, ARRAY_CLOSE;
 * a table wraps each of its entries in its own TABLE_OPEN ... TABLE_CLOSE.
 * Nothing is escaped.
 */
module MsdpEncoder {
  import opened Protocol
  import opened MsdpVariable

  /** The bytes `encode_variable` appends for a variable. */
  function Encoding(v: Variable): Bytes
    decreases v, 1
  {
    [VAR] + v.name + [VAL] + ValueEncoding(v.value)
  }

  function ValueEncoding(x: Value): Bytes
    decreases x, 0
  {
    match x
    case Str(s) => s
    case Arr(items) => [ARRAY_OPEN] + ItemsEncoding(items) + [ARRAY_CLOSE]
    case Table(es) => EntriesEncoding(es)
  }

  /** VAL and each array element, in order. */
  function ItemsEncoding(items: seq<Bytes>): Bytes
    decreases |items|
  {
    if |items| == 0 then [] else ItemsEncoding(items[..|items| - 1]) + [VAL] + items[|items| - 1]
  }

  /** Each table entry in its own TABLE_OPEN ... TABLE_CLOSE, in order. */
  function EntriesEncoding(es: seq<Variable>): Bytes
    decreases es
  {
    if |es| == 0 then []
    else EntriesEncoding(es[..|es| - 1]) + [TABLE_OPEN] + Encoding(es[|es| - 1]) + [TABLE_CLOSE]
  }

  /**
   * The encoding of a list of variables: their encodings end to end (the
   * list-level `encode` is declared but its definition is not part of this
   * model).
   */
  function EncodeList(vs: seq<Variable>): Bytes
    decreases |vs|
  {
    if |vs| == 0 then [] else EncodeList(vs[..|vs| - 1]) + Encoding(vs[|vs| - 1])
  }

  /** `encode_variable`: appends the encoding of `v` to `storage`. */
  method EncodeVariable(v: Variable, storage: Bytes) returns (r: Bytes)
    ensures r == storage + Encoding(v)
    decreases v, 1
  {
    r := storage + [VAR];
    r := r + v.name;
    r := r + [VAL];
    assert r == storage + ([VAR] + v.name + [VAL]);
    match v.value {
      case Str(s) =>
        r := r + s;
      case Arr(items) =>
        r := AppendArray(items, r);
      case Table(es) =>
        r := AppendTable(es, r);
    }
    Regrouped(storage, [VAR] + v.name + [VAL], ValueEncoding(v.value));
  }

  /** The array case of `encode_variable`. */
  method AppendArray(items: seq<Bytes>, storage: Bytes) returns (r: Bytes)
    ensures r == storage + ValueEncoding(Arr(items))
  {
    r := storage + [ARRAY_OPEN];
    for i := 0 to |items|
      invariant r == storage + [ARRAY_OPEN] + ItemsEncoding(items[..i])
    {
      assert items[..i + 1][..i] == items[..i];
      r := r + [VAL];
      r := r + items[i];
    }
    assert items[..|items|] == items;
    r := r + [ARRAY_CLOSE];
  }

  /** The table case of `encode_variable`: each entry framed and encoded in turn. */
  method AppendTable(es: seq<Variable>, storage: Bytes) returns (r: Bytes)
    ensures r == storage + EntriesEncoding(es)
    decreases es, 0
  {
    r := storage;
    for i := 0 to |es|
      invariant r == storage + EntriesEncoding(es[..i])
    {
      assert es[..i + 1][..i] == es[..i];
      r := r + [TABLE_OPEN];
      r := EncodeVariable(es[i], r);
      r := r + [TABLE_CLOSE];
    }
    assert es[..|es|] == es;
  }

  /** Every encoding starts VAR, the name copied unescaped, VAL, and is never empty. */
  lemma EncodingFraming(v: Variable)
    ensures |Encoding(v)| >= |v.name| + 2
    ensures Encoding(v)[..|v.name| + 2] == [VAR] + v.name + [VAL]
    ensures Encoding(v)[|v.name| + 2..] == ValueEncoding(v.value)
  {
  }

  /**
   * The empty array is ARRAY_OPEN ARRAY_CLOSE; an empty table emits nothing
   * after VAL, so it encodes exactly like the empty string.
   */
  lemma EmptyValues(name: Bytes)
    ensures Encoding(Variable(name, Arr([]))) == [VAR] + name + [VAL, ARRAY_OPEN, ARRAY_CLOSE]
    ensures Encoding(Variable(name, Table([]))) == [VAR] + name + [VAL]
    ensures Encoding(Variable(name, Table([]))) == Encoding(Variable(name, Str([])))
  {
  }

  /** An array of n elements takes two framing bytes plus one VAL per element. */
  lemma {:induction false} ItemsLength(items: seq<Bytes>)
    ensures |ItemsEncoding(items)| == |items| + SumSizes(items)
    decreases |items|
  {
    if |items| > 0 {
      ItemsLength(items[..|items| - 1]);
    }
  }

  function SumSizes(items: seq<Bytes>): nat
    decreases |items|
  {
    if |items| == 0 then 0 else SumSizes(items[..|items| - 1]) + |items[|items| - 1]|
  }

  /** A list's encoding is empty exactly when the list is. */
  lemma EncodeListEmpty(vs: seq<Variable>)
    ensures EncodeList(vs) == [] <==> vs == []
  {
    if |vs| > 0 {
      EncodingFraming(vs[|vs| - 1]);
    }
  }
}
