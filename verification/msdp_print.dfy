/**
 * The textual form of an MSDP variable: `name=` and then the value, a
 * string in double quotes, an array as `[a,b]`, a table as `{x=...,y=...}`
 * with each entry printed the same way.  Every byte string is read as a C
 * string, so it stops at its first NUL byte.
 */
module MsdpPrint {
  import opened Protocol
  import opened MsdpVariable

  function Char(b: byte): char
  {
    (b as int) as char
  }

  /** A byte string read as a C string: its bytes as characters up to the first NUL. */
  function CText(s: Bytes): (r: string)
    ensures |r| <= |s|
    ensures forall i :: 0 <= i < |r| ==> s[i] != 0 && r[i] == Char(s[i])
    ensures |r| < |s| ==> s[|r|] == 0
    decreases |s|
  {
    if |s| == 0 || s[0] == 0 then "" else [Char(s[0])] + CText(s[1..])
  }

  /**
   * `operator<<(ostream, variable)`: every variable prints as its name,
   * `=`, and the value framed by the delimiters of its alternative.
   */
  function Show(v: Variable): (r: string)
    ensures var n := |CText(v.name)|;
            && |r| >= n + 3 && r[..n] == CText(v.name) && r[n] == '='
            && (v.value.Str? ==> r[n + 1] == '"' && r[|r| - 1] == '"')
            && (v.value.Arr? ==> r[n + 1] == '[' && r[|r| - 1] == ']')
            && (v.value.Table? ==> r[n + 1] == '{' && r[|r| - 1] == '}')
    decreases v, 1
  {
    CText(v.name) + "=" + ShowValue(v.value)
  }

  /** A string is quoted, an array bracketed and a table braced. */
  function ShowValue(x: Value): (r: string)
    ensures |r| >= 2
    ensures x.Str? <==> r[0] == '"'
    ensures x.Arr? <==> r[0] == '['
    ensures x.Table? <==> r[0] == '{'
    ensures r[|r| - 1] == (if x.Str? then '"' else if x.Arr? then ']' else '}')
    decreases x, 0
  {
    match x
    case Str(s) => "\"" + CText(s) + "\""
    case Arr(items) => "[" + JoinTexts(items) + "]"
    case Table(es) => "{" + JoinShown(es) + "}"
  }

  /** The array elements as text, separated by commas. */
  function JoinTexts(items: seq<Bytes>): string
    decreases |items|
  {
    if |items| == 0 then ""
    else if |items| == 1 then CText(items[0])
    else CText(items[0]) + "," + JoinTexts(items[1..])
  }

  /** The table entries, each printed as a variable, separated by commas. */
  function JoinShown(es: seq<Variable>): string
    decreases es
  {
    if |es| == 0 then ""
    else if |es| == 1 then Show(es[0])
    else Show(es[0]) + "," + JoinShown(es[1..])
  }

  /** The bytes of a string whose characters all fit in a byte. */
  function Ascii(s: string): (r: Bytes)
    requires forall i :: 0 <= i < |s| ==> s[i] < 256 as char
    ensures |r| == |s|
    ensures forall i :: 0 <= i < |r| ==> Char(r[i]) == s[i]
  {
    seq(|s|, i requires 0 <= i < |s| => s[i] as int as byte)
  }

  /** The number of times `c` occurs in `s`. */
  function Occurrences(c: char, s: string): nat
    decreases |s|
  {
    if |s| == 0 then 0 else (if s[0] == c then 1 else 0) + Occurrences(c, s[1..])
  }

  /**
   * Everything after the first NUL is dropped, and a byte string without
   * NUL is printed whole.
   */
  lemma {:induction false} CTextStopsAtNul(s: Bytes, t: Bytes)
    requires forall i :: 0 <= i < |s| ==> s[i] != 0
    ensures CText(s) == seq(|s|, i requires 0 <= i < |s| => Char(s[i]))
    ensures CText(s + [0] + t) == CText(s)
    decreases |s|
  {
    if |s| > 0 {
      CTextStopsAtNul(s[1..], t);
      assert (s + [0] + t)[1..] == s[1..] + [0] + t;
    } else {
      assert s + [0] + t == [0] + t;
    }
  }

  /** Text that fits in bytes and holds no NUL prints as itself. */
  lemma AsciiPrintsItself(s: string)
    requires forall i :: 0 <= i < |s| ==> '\0' < s[i] < 256 as char
    ensures CText(Ascii(s)) == s
  {
    var b := Ascii(s);
    forall i | 0 <= i < |b|
      ensures b[i] != 0
    {
      assert Char(b[i]) == s[i];
    }
    CTextStopsAtNul(b, []);
  }

  /** Joining one more element appends a comma and its text. */
  lemma {:induction false} JoinTextsSnoc(items: seq<Bytes>, x: Bytes)
    requires |items| > 0
    ensures JoinTexts(items + [x]) == JoinTexts(items) + "," + CText(x)
    decreases |items|
  {
    var first := CText(items[0]);
    var last := CText(x);
    assert (items + [x])[0] == items[0];
    assert (items + [x])[1..] == items[1..] + [x];
    if |items| == 1 {
      assert JoinTexts([x]) == last;
      assert JoinTexts(items) == first;
    } else {
      JoinTextsSnoc(items[1..], x);
      var middle := JoinTexts(items[1..]);
      assert JoinTexts(items) == first + "," + middle;
      assert JoinTexts(items + [x]) == first + "," + (middle + "," + last);
      Regrouped(first + ",", middle, ",");
      Regrouped(first + "," + middle, ",", last);
      Regrouped(first, ",", middle + "," + last);
      Regrouped(first + ",", middle + ",", last);
    }
  }

  lemma {:induction false} OccurrencesAppend(c: char, s: string, t: string)
    ensures Occurrences(c, s + t) == Occurrences(c, s) + Occurrences(c, t)
    decreases |s|
  {
    if |s| == 0 {
      assert s + t == t;
    } else {
      OccurrencesAppend(c, s[1..], t);
      assert (s + t)[1..] == s[1..] + t;
    }
  }

  /** A C string never contains a comma its bytes did not. */
  lemma {:induction false} CommaFree(s: Bytes)
    requires forall i :: 0 <= i < |s| ==> s[i] != 44
    ensures Occurrences(',', CText(s)) == 0
    decreases |s|
  {
    if |s| > 0 && s[0] != 0 {
      CommaFree(s[1..]);
      assert CText(s)[1..] == CText(s[1..]);
    }
  }

  /**
   * An array of n elements none of which holds a comma prints with exactly
   * n - 1 commas, so its elements can be told apart again.
   */
  lemma {:induction false} ArrayCommas(items: seq<Bytes>)
    requires |items| > 0
    requires forall k, i :: 0 <= k < |items| && 0 <= i < |items[k]| ==> items[k][i] != 44
    ensures Occurrences(',', JoinTexts(items)) == |items| - 1
    decreases |items|
  {
    CommaFree(items[0]);
    if |items| > 1 {
      ArrayCommas(items[1..]);
      OccurrencesAppend(',', CText(items[0]) + ",", JoinTexts(items[1..]));
      OccurrencesAppend(',', CText(items[0]), ",");
    }
  }

  /** Printing one more table entry appends a comma and that entry's own text. */
  lemma {:induction false} JoinShownSnoc(es: seq<Variable>, e: Variable)
    requires |es| > 0
    ensures JoinShown(es + [e]) == JoinShown(es) + "," + Show(e)
    decreases |es|
  {
    var first := Show(es[0]);
    var last := Show(e);
    assert (es + [e])[0] == es[0];
    assert (es + [e])[1..] == es[1..] + [e];
    if |es| == 1 {
      assert JoinShown([e]) == last;
      assert JoinShown(es) == first;
    } else {
      JoinShownSnoc(es[1..], e);
      var middle := JoinShown(es[1..]);
      assert JoinShown(es) == first + "," + middle;
      assert JoinShown(es + [e]) == first + "," + (middle + "," + last);
      Regrouped(first + ",", middle, ",");
      Regrouped(first + "," + middle, ",", last);
      Regrouped(first, ",", middle + "," + last);
      Regrouped(first + ",", middle + ",", last);
    }
  }
}
