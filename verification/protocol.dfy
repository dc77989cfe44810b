/**
 * Wire-level vocabulary shared by every part of the library: bytes, the
 * Telnet command codes of RFC 854 ("TELNET COMMAND STRUCTURE"), the parsed
 * element kinds and the tokens that carry them.
 */
module Protocol {

  /** An octet on the wire. */
  newtype byte = x: int | 0 <= x < 256

  type Bytes = seq<byte>

  // Command codes (RFC 854, "TELNET COMMAND STRUCTURE"; EOR from RFC 885).
  const EOR: byte := 239
  const SE: byte := 240
  const NOP: byte := 241
  const DM: byte := 242
  const BRK: byte := 243
  const IP: byte := 244
  const AO: byte := 245
  const AYT: byte := 246
  const EC: byte := 247
  const EL: byte := 248
  const GA: byte := 249
  const SB: byte := 250
  const WILL: byte := 251
  const WONT: byte := 252
  const DO: byte := 253
  const DONT: byte := 254
  const IAC: byte := 255

  predicate IsVerb(b: byte) { b == WILL || b == WONT || b == DO || b == DONT }

  /**
   * One parsed unit of a Telnet stream: a run of data, a command, a
   * negotiation (verb plus option code) or a subnegotiation (option code
   * plus content).
   */
  datatype Element =
    | Data(bytes: Bytes)
    | Command(code: byte)
    | Negotiation(request: byte, option: byte)
    | Subnegotiation(option: byte, content: Bytes)

  /** An element or an opaque value that the stream passes through untouched. */
  datatype Token =
    | Elem(element: Element)
    | PassThrough(tag: nat)

  /** What the generator hands to the lower layer: raw bytes or a pass-through value. */
  datatype StreamToken =
    | Stream(bytes: Bytes)
    | Opaque(tag: nat)

  datatype Option<T> = None | Some(value: T)

  /** A nonempty sequence is its front followed by its last byte, after any prefix. */
  lemma SnocSplit<T>(a: seq<T>, s: seq<T>)
    requires |s| > 0
    ensures a + s[..|s| - 1] + [s[|s| - 1]] == a + s
  {
  }

  /** A nonempty sequence is its front followed by its last element. */
  lemma FrontLast<T>(s: seq<T>)
    requires |s| > 0
    ensures s[..|s| - 1] + [s[|s| - 1]] == s
  {
  }

  /** A sequence is its part before `k` followed by its part from `k`. */
  lemma SplitAt<T>(s: seq<T>, k: nat)
    requires k <= |s|
    ensures s[..k] + s[k..] == s
  {
  }

  /** The front and the last byte of a concatenation whose second part is nonempty. */
  lemma AppendFront<T>(a: seq<T>, b: seq<T>)
    requires |b| > 0
    ensures (a + b)[..|a + b| - 1] == a + b[..|b| - 1]
    ensures (a + b)[|a + b| - 1] == b[|b| - 1]
  {
  }

  /** Concatenation regroups freely. */
  lemma Regrouped<T>(a: seq<T>, b: seq<T>, c: seq<T>)
    ensures a + b + c == a + (b + c)
  {
  }

  /** Concatenation of a sequence of byte sequences. */
  function Concat(chunks: seq<Bytes>): (r: Bytes)
  {
    if |chunks| == 0 then [] else Concat(chunks[..|chunks| - 1]) + chunks[|chunks| - 1]
  }

  function SumLengths(chunks: seq<Bytes>): nat
  {
    if |chunks| == 0 then 0 else SumLengths(chunks[..|chunks| - 1]) + |chunks[|chunks| - 1]|
  }

  lemma {:induction false} ConcatLength(chunks: seq<Bytes>)
    ensures |Concat(chunks)| == SumLengths(chunks)
  {
    if |chunks| > 0 {
      ConcatLength(chunks[..|chunks| - 1]);
    }
  }

  lemma {:induction false} ConcatAppend(a: seq<Bytes>, b: seq<Bytes>)
    ensures Concat(a + b) == Concat(a) + Concat(b)
  {
    if |b| == 0 {
      assert a + b == a;
    } else {
      AppendFront(a, b);
      ConcatAppend(a, b[..|b| - 1]);
      Regrouped(Concat(a), Concat(b[..|b| - 1]), b[|b| - 1]);
    }
  }
}
