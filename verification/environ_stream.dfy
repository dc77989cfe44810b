/**
 * NEW-ENVIRON (option 39, RFC 1572): the command and type codes, the
 * request and response records, and the escaping of names and values: each
 * byte that collides with VAR, VALUE, ESC or USERVAR is sent behind an ESC.
 */
module EnvironStream {
  import opened Protocol

  /** The NEW-ENVIRON option code. */
  const NEW_ENVIRON: byte := 39

  // Subnegotiation commands (RFC 1572, "Command Names and Codes").
  const IS: byte := 0
  const SEND: byte := 1
  const INFO: byte := 2

  // Markers inside a subnegotiation (RFC 1572, "Command Names and Codes").
  const VAR: byte := 0
  const VALUE: byte := 1
  const ESC: byte := 2
  const USERVAR: byte := 3

  datatype VariableType = VarType | UserVarType

  /** A request made of the remote side: a variable type and a name. */
  datatype Request = Request(kind: VariableType, name: Bytes)

  /** A response from the remote side; a variable without a value is undefined there. */
  datatype Response = Response(kind: VariableType, name: Bytes, value: Option<Bytes>)

  /** The four bytes that must be escaped. */
  predicate Reserved(b: byte)
  {
    b == VAR || b == VALUE || b == ESC || b == USERVAR
  }

  /** The marker a type is sent as; it is read back as the same type. */
  function TypeToByte(t: VariableType): (b: byte)
    ensures b == VAR || b == USERVAR
    ensures ByteToType(b) == t
  {
    if t == VarType then VAR else assert ByteToType(USERVAR) == UserVarType; USERVAR
  }

  /** VAR is the well-known type; every other byte is read as USERVAR. */
  function ByteToType(b: byte): VariableType
  {
    if b == VAR then VarType else UserVarType
  }

  /** The bytes one content byte is sent as. */
  function EscapedByte(b: byte): Bytes
  {
    if Reserved(b) then [ESC, b] else [b]
  }

  /** The escaped form of a name or value. */
  function Escaped(content: Bytes): Bytes
    decreases |content|
  {
    if |content| == 0 then []
    else Escaped(content[..|content| - 1]) + EscapedByte(content[|content| - 1])
  }

  /** How many bytes of `content` are reserved. */
  function ReservedCount(content: Bytes): nat
    decreases |content|
  {
    if |content| == 0 then 0
    else ReservedCount(content[..|content| - 1]) + (if Reserved(content[|content| - 1]) then 1 else 0)
  }

  /** `append_escaped`: appends the escaped content to the storage, leaving the storage as it was. */
  method AppendEscaped(storage: Bytes, content: Bytes) returns (r: Bytes)
    ensures r == storage + Escaped(content)
  {
    r := storage;
    for i := 0 to |content|
      invariant r == storage + Escaped(content[..i])
    {
      assert content[..i + 1][..i] == content[..i];
      if Reserved(content[i]) {
        r := r + [ESC];
      }
      r := r + [content[i]];
    }
    assert content[..|content|] == content;
  }

  /** The escaped form grows by one ESC per reserved byte. */
  lemma {:induction false} EscapedLength(content: Bytes)
    ensures |Escaped(content)| == |content| + ReservedCount(content)
    decreases |content|
  {
    if |content| > 0 {
      EscapedLength(content[..|content| - 1]);
    }
  }

  /** Escaping works byte by byte, so it distributes over concatenation. */
  lemma {:induction false} EscapedAppend(a: Bytes, b: Bytes)
    ensures Escaped(a + b) == Escaped(a) + Escaped(b)
    decreases |b|
  {
    if |b| == 0 {
      assert a + b == a;
    } else {
      var init := b[..|b| - 1];
      EscapedAppend(a, init);
      AppendFront(a, b);
      Regrouped(Escaped(a), Escaped(init), EscapedByte(b[|b| - 1]));
    }
  }

  /** Content without reserved bytes is sent unchanged. */
  lemma {:induction false} PlainIsUnchanged(content: Bytes)
    requires forall i :: 0 <= i < |content| ==> !Reserved(content[i])
    ensures Escaped(content) == content
    decreases |content|
  {
    if |content| > 0 {
      PlainIsUnchanged(content[..|content| - 1]);
      assert content[..|content| - 1] + [content[|content| - 1]] == content;
    }
  }
}
