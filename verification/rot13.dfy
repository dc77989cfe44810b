/**
 * `rot13_encode` of the example server: every letter moves 13 places round
 * its alphabet and keeps its case, a NUL byte becomes a newline, and every
 * other byte is copied.
 */
module Rot13 {
  import opened Protocol

  const UPPER_A: byte := 65
  const UPPER_Z: byte := 90
  const LOWER_A: byte := 97
  const LOWER_Z: byte := 122
  const NUL: byte := 0
  const NEWLINE: byte := 10

  predicate IsUpper(b: byte) { UPPER_A <= b <= UPPER_Z }
  predicate IsLower(b: byte) { LOWER_A <= b <= LOWER_Z }

  /**
   * The transformation applied to each byte: letters stay letters of the
   * same case, 13 places on round the alphabet; NUL becomes a newline;
   * nothing else changes.
   */
  function EncodeByte(datum: byte): (r: byte)
    ensures IsUpper(r) <==> IsUpper(datum)
    ensures IsLower(r) <==> IsLower(datum)
    ensures IsUpper(datum) ==> (r - UPPER_A) as int == ((datum - UPPER_A) as int + 13) % 26
    ensures IsLower(datum) ==> (r - LOWER_A) as int == ((datum - LOWER_A) as int + 13) % 26
    ensures datum == NUL ==> r == NEWLINE
    ensures !IsUpper(datum) && !IsLower(datum) && datum != NUL ==> r == datum
  {
    if IsUpper(datum) then (UPPER_A as int + (datum - UPPER_A + 13) as int % 26) as byte
    else if IsLower(datum) then (LOWER_A as int + (datum - LOWER_A + 13) as int % 26) as byte
    else if datum == NUL then NEWLINE
    else datum
  }

  /** `rot13_encode`: the bytes transformed one by one, in order. */
  function Encode(data: Bytes): (r: Bytes)
    ensures |r| == |data|
    decreases |data|
  {
    if |data| == 0 then [] else Encode(data[..|data| - 1]) + [EncodeByte(data[|data| - 1])]
  }

  /** Each output byte is the transformation of the input byte at the same place. */
  lemma {:induction false} EncodePointwise(data: Bytes)
    ensures forall i :: 0 <= i < |data| ==> Encode(data)[i] == EncodeByte(data[i])
    decreases |data|
  {
    if |data| > 0 {
      EncodePointwise(data[..|data| - 1]);
    }
  }

  /** Applying the transformation twice gives every byte but NUL back; NUL comes back as a newline. */
  lemma ByteInvolution(datum: byte)
    ensures datum != NUL ==> EncodeByte(EncodeByte(datum)) == datum
    ensures EncodeByte(EncodeByte(NUL)) == NEWLINE
  {
    if IsUpper(datum) {
      RotateTwice((datum - UPPER_A) as int);
    } else if IsLower(datum) {
      RotateTwice((datum - LOWER_A) as int);
    }
  }

  /** Thirteen places on, twice, round an alphabet of 26. */
  lemma RotateTwice(k: int)
    requires 0 <= k < 26
    ensures ((k + 13) % 26 + 13) % 26 == k
  {
  }

  /** Encoding twice is the identity on any data without NUL bytes. */
  lemma {:induction false} EncodeTwice(data: Bytes)
    requires forall i :: 0 <= i < |data| ==> data[i] != NUL
    ensures Encode(Encode(data)) == data
  {
    var once := Encode(data);
    EncodePointwise(data);
    EncodePointwise(once);
    forall i | 0 <= i < |data|
      ensures Encode(once)[i] == data[i]
    {
      ByteInvolution(data[i]);
    }
  }
}
