/**
 * Decoding what the encoder produced.  For string- and array-valued
 * variables whose bytes avoid the six MSDP marks, decoding the encoding of
 * a list gives the list back, provided a trailing string variable has a
 * name (the decoder reports a variable left open at the end only when it
 * is named).  Tables do not survive: the encoder wraps each entry in its
 * own TABLE_OPEN ... TABLE_CLOSE, while the decoder takes TABLE_CLOSE as
 * the end of the table.
 */
module MsdpRoundTrip {
  import opened Protocol
  import opened MsdpVariable
  import opened MsdpEncoder
  import opened MsdpDecoder

  /** No byte of `s` is one of the MSDP marks VAR .. ARRAY_CLOSE. */
  predicate NoMarks(s: Bytes)
  {
    forall i :: 0 <= i < |s| ==> s[i] < VAR || s[i] > ARRAY_CLOSE
  }

  /** A string- or array-valued variable whose bytes avoid the marks. */
  predicate Plain(v: Variable)
  {
    && NoMarks(v.name)
    && !v.value.Table?
    && (v.value.Str? ==> NoMarks(v.value.text))
    && (v.value.Arr? ==> forall i :: 0 <= i < |v.value.items| ==> NoMarks(v.value.items[i]))
  }

  /** Idle with nothing open, `rep` reported. */
  function Resting(rep: seq<Variable>): Parser
  {
    Parser(Unnamed, 0, Idle, rep)
  }

  /** Reading the string value of the open root `v`, `rep` reported. */
  function Holding(rep: seq<Variable>, v: Variable): Parser
  {
    Parser(v, 1, ReadingValue, rep)
  }

  /** A state in which a VAR starts a new top-level variable after `rep`. */
  predicate ReadyFor(q: Parser, rep: seq<Variable>)
  {
    q == Resting(rep) || (q.depth == 1 && q.state == ReadingValue && rep == q.reported + [q.root])
  }

  lemma VarStarts(q: Parser, rep: seq<Variable>)
    requires ReadyFor(q, rep)
    ensures Feed(q, VAR) == Some(Parser(Unnamed, 1, ReadingName, rep))
  {
  }

  lemma {:induction false} NameRun(n0: Bytes, x: Value, rep: seq<Variable>, name: Bytes)
    requires NoMarks(name)
    ensures Run(Parser(Variable(n0, x), 1, ReadingName, rep), name)
         == Some(Parser(Variable(n0 + name, x), 1, ReadingName, rep))
    decreases |name|
  {
    if |name| > 0 {
      var p := Parser(Variable(n0, x), 1, ReadingName, rep);
      assert Feed(p, name[0]) == Some(Parser(Variable(n0 + [name[0]], x), 1, ReadingName, rep));
      NameRun(n0 + [name[0]], x, rep, name[1..]);
      assert n0 + [name[0]] + name[1..] == n0 + name;
    } else {
      assert n0 + name == n0;
    }
  }

  lemma {:induction false} TextRun(n: Bytes, t0: Bytes, rep: seq<Variable>, s: Bytes)
    requires NoMarks(s)
    ensures Run(Parser(Variable(n, Str(t0)), 1, ReadingValue, rep), s)
         == Some(Parser(Variable(n, Str(t0 + s)), 1, ReadingValue, rep))
    decreases |s|
  {
    if |s| > 0 {
      var p := Parser(Variable(n, Str(t0)), 1, ReadingValue, rep);
      assert Feed(p, s[0]) == Some(Parser(Variable(n, Str(t0 + [s[0]])), 1, ReadingValue, rep));
      TextRun(n, t0 + [s[0]], rep, s[1..]);
      assert t0 + [s[0]] + s[1..] == t0 + s;
    } else {
      assert t0 + s == t0;
    }
  }

  lemma {:induction false} ElementRun(n: Bytes, xs: seq<Bytes>, x: Bytes, rep: seq<Variable>, bs: Bytes)
    requires NoMarks(bs)
    ensures Run(Parser(Variable(n, Arr(xs + [x])), 1, ReadingArray, rep), bs)
         == Some(Parser(Variable(n, Arr(xs + [x + bs])), 1, ReadingArray, rep))
    decreases |bs|
  {
    if |bs| > 0 {
      var p := Parser(Variable(n, Arr(xs + [x])), 1, ReadingArray, rep);
      var ys := xs + [x];
      assert ys[..|ys| - 1] == xs && ys[|ys| - 1] == x;
      assert Feed(p, bs[0]) == Some(Parser(Variable(n, Arr(xs + [x + [bs[0]]])), 1, ReadingArray, rep));
      ElementRun(n, xs, x + [bs[0]], rep, bs[1..]);
      assert x + [bs[0]] + bs[1..] == x + bs;
    } else {
      assert x + bs == x;
    }
  }

  lemma {:induction false} ItemsRun(n: Bytes, xs: seq<Bytes>, rep: seq<Variable>, items: seq<Bytes>)
    requires forall i :: 0 <= i < |items| ==> NoMarks(items[i])
    ensures Run(Parser(Variable(n, Arr(xs)), 1, ReadingArray, rep), ItemsEncoding(items))
         == Some(Parser(Variable(n, Arr(xs + items)), 1, ReadingArray, rep))
    decreases |items|
  {
    var p := Parser(Variable(n, Arr(xs)), 1, ReadingArray, rep);
    if |items| == 0 {
      assert xs + items == xs;
    } else {
      var init := items[..|items| - 1];
      var last := items[|items| - 1];
      ItemsRun(n, xs, rep, init);
      var mid := Parser(Variable(n, Arr(xs + init)), 1, ReadingArray, rep);
      RunAppend(p, ItemsEncoding(init), [VAL] + last);
      var started := Parser(Variable(n, Arr(xs + init + [[]])), 1, ReadingArray, rep);
      assert Feed(mid, VAL) == Some(started);
      assert ItemsEncoding(items) == ItemsEncoding(init) + ([VAL] + last);
      assert ([VAL] + last)[0] == VAL && ([VAL] + last)[1..] == last;
      assert Run(mid, [VAL] + last) == Run(started, last);
      ElementRun(n, xs + init, [], rep, last);
      assert [] + last == last;
      assert xs + init + [last] == xs + items;
    }
  }

  /**
   * From a state ready for a new variable, the encoding of a plain variable
   * leaves a string variable open (reported later) and reports an array
   * variable at once.
   */
  lemma VariableRun(q: Parser, rep: seq<Variable>, v: Variable)
    requires ReadyFor(q, rep) && Plain(v)
    ensures Run(q, Encoding(v)) == Some(if v.value.Str? then Holding(rep, v) else Resting(rep + [v]))
  {
    var ve := ValueEncoding(v.value);
    var e := Encoding(v);
    var afterVar := Parser(Unnamed, 1, ReadingName, rep);
    VarStarts(q, rep);
    assert e[0] == VAR && e[1..] == v.name + ([VAL] + ve);
    assert Run(q, e) == Run(afterVar, v.name + ([VAL] + ve));
    NameRun([], Str([]), rep, v.name);
    assert [] + v.name == v.name;
    var named := Parser(Variable(v.name, Str([])), 1, ReadingName, rep);
    RunAppend(afterVar, v.name, [VAL] + ve);
    var reading := Parser(Variable(v.name, Str([])), 1, ReadingValue, rep);
    assert Feed(named, VAL) == Some(reading);
    assert ([VAL] + ve)[1..] == ve;
    assert Run(q, e) == Run(reading, ve);
    if v.value.Str? {
      TextRun(v.name, [], rep, v.value.text);
      assert [] + v.value.text == v.value.text;
    } else {
      var items := v.value.items;
      var arr := Parser(Variable(v.name, Arr([])), 1, ReadingArray, rep);
      assert Feed(reading, ARRAY_OPEN) == Some(arr);
      assert ve == [ARRAY_OPEN] + (ItemsEncoding(items) + [ARRAY_CLOSE]);
      assert ve[1..] == ItemsEncoding(items) + [ARRAY_CLOSE];
      ItemsRun(v.name, [], rep, items);
      assert [] + items == items;
      RunAppend(arr, ItemsEncoding(items), [ARRAY_CLOSE]);
      var full := Parser(Variable(v.name, Arr(items)), 1, ReadingArray, rep);
      assert Feed(full, ARRAY_CLOSE) == Some(Resting(rep + [v]));
    }
  }

  /** The parser state after the encoding of a list of plain variables. */
  function AfterList(vs: seq<Variable>): Parser
  {
    if |vs| == 0 then Start
    else
      var last := vs[|vs| - 1];
      if last.value.Str? then Holding(vs[..|vs| - 1], last) else Resting(vs)
  }

  lemma {:induction false} ListRun(vs: seq<Variable>)
    requires forall i :: 0 <= i < |vs| ==> Plain(vs[i])
    ensures Run(Start, EncodeList(vs)) == Some(AfterList(vs))
    ensures ReadyFor(AfterList(vs), vs)
    decreases |vs|
  {
    if |vs| > 0 {
      var init := vs[..|vs| - 1];
      var last := vs[|vs| - 1];
      ListRun(init);
      RunAppend(Start, EncodeList(init), Encoding(last));
      VariableRun(AfterList(init), init, last);
      assert init + [last] == vs;
    }
  }

  /**
   * Decoding the encoding of plain variables gives them back, in order,
   * when a trailing string variable is named.
   */
  lemma RoundTrip(vs: seq<Variable>)
    requires forall i :: 0 <= i < |vs| ==> Plain(vs[i])
    requires |vs| > 0 && vs[|vs| - 1].value.Str? ==> |vs[|vs| - 1].name| > 0
    ensures Decoded(EncodeList(vs)) == Some(vs)
  {
    ListRun(vs);
    if |vs| > 0 {
      assert vs[..|vs| - 1] + [vs[|vs| - 1]] == vs;
    }
  }

  /** A trailing string variable without a name is never reported. */
  lemma UnnamedStringLost(s: Bytes)
    requires NoMarks(s)
    ensures Decoded(Encoding(Variable([], Str(s)))) == Some([])
  {
    VariableRun(Start, [], Variable([], Str(s)));
  }

  /** An empty table comes back as an empty string. */
  lemma EmptyTableComesBackAsString(name: Bytes)
    requires NoMarks(name) && |name| > 0
    ensures Decoded(Encoding(Variable(name, Table([])))) == Some([Variable(name, Str([]))])
  {
    EmptyValues(name);
    VariableRun(Start, [], Variable(name, Str([])));
    assert [] + [Variable(name, Str([]))] == [Variable(name, Str([]))];
  }

  /**
   * A table followed by another variable: the entry's TABLE_CLOSE closes
   * only the entry and leaves the table open, so the following variable
   * becomes a second entry of the table instead of a variable of its own.
   */
  lemma TableSwallowsNextVariable()
    ensures var a := Variable([97], Table([Variable([98], Str([]))]));
            var c := Variable([99], Str([]));
            Decoded(EncodeList([a, c])) == Some([Variable([97], Table([Variable([98], Str([])), c]))])
  {
    var b := Variable([98], Str([]));
    var c := Variable([99], Str([]));
    var data := TableThenVariable();
    var mid := Parser(Variable([97], Table([Variable([98], Str([]))])), 2, ReadingName, []);
    OpenTableRun();
    TableEntryRun();
    RunAppend(Start, [VAR, 97, VAL, TABLE_OPEN, VAR, 98], [VAL, TABLE_CLOSE, VAR, 99, VAL]);
    assert [VAR, 97, VAL, TABLE_OPEN, VAR, 98] + [VAL, TABLE_CLOSE, VAR, 99, VAL] == data;
    var last := Parser(Variable([97], Table([b, c])), 2, ReadingValue, []);
    assert Run(Start, data) == Some(last);
    assert Finished(last) == [] + [Variable([97], Table([b, c]))];
    assert [] + [Variable([97], Table([b, c]))] == [Variable([97], Table([b, c]))];
    assert Decoded(data) == Some([Variable([97], Table([b, c]))]);
  }

  /** The encoding of a table holding one entry, followed by a string variable. */
  lemma TableThenVariable() returns (data: Bytes)
    ensures var a := Variable([97], Table([Variable([98], Str([]))]));
            var c := Variable([99], Str([]));
            data == EncodeList([a, c])
    ensures data == [VAR, 97, VAL, TABLE_OPEN, VAR, 98, VAL, TABLE_CLOSE, VAR, 99, VAL]
  {
    var b := Variable([98], Str([]));
    var a := Variable([97], Table([b]));
    var c := Variable([99], Str([]));
    data := EncodeList([a, c]);
    assert [a, c][..1] == [a];
    assert [a][..0] == [];
    assert [b][..0] == [];
    assert EncodeList([a]) == Encoding(a);
    assert Encoding(b) == [VAR, 98, VAL];
    assert EntriesEncoding([b]) == [TABLE_OPEN] + Encoding(b) + [TABLE_CLOSE];
    assert Encoding(a) == [VAR, 97, VAL, TABLE_OPEN, VAR, 98, VAL, TABLE_CLOSE];
  }

  lemma OpenTableRun()
    ensures Run(Start, [VAR, 97, VAL, TABLE_OPEN, VAR, 98])
         == Some(Parser(Variable([97], Table([Variable([98], Str([]))])), 2, ReadingName, []))
  {
    var p1 := Parser(Unnamed, 1, ReadingName, []);
    var p2 := Parser(Variable([97], Str([])), 1, ReadingName, []);
    var p3 := Parser(Variable([97], Str([])), 1, ReadingValue, []);
    var p4 := Parser(Variable([97], Table([])), 1, Idle, []);
    var p5 := Parser(Variable([97], Table([Unnamed])), 2, ReadingName, []);
    var p6 := Parser(Variable([97], Table([Variable([98], Str([]))])), 2, ReadingName, []);
    assert Feed(Start, VAR) == Some(p1);
    assert Top(p1) == Unnamed;
    assert Unnamed.name + [97] == [97];
    assert Feed(p1, 97) == Some(p2);
    assert Feed(p2, VAL) == Some(p3);
    assert Feed(p3, TABLE_OPEN) == Some(p4);
    assert [] + [Unnamed] == [Unnamed];
    assert Feed(p4, VAR) == Some(p5);
    assert Top(p5) == Unnamed;
    assert [Unnamed][..0] == [];
    assert Unnamed.name + [98] == [98];
    assert [] + [Variable([98], Str([]))] == [Variable([98], Str([]))];
    assert Feed(p5, 98) == Some(p6);
    assert Run(p5, [98]) == Some(p6);
    assert Run(p4, [VAR, 98]) == Some(p6);
    assert Run(p3, [TABLE_OPEN, VAR, 98]) == Some(p6);
    assert Run(p2, [VAL, TABLE_OPEN, VAR, 98]) == Some(p6);
    assert Run(p1, [97, VAL, TABLE_OPEN, VAR, 98]) == Some(p6);
  }

  lemma TableEntryRun()
    ensures var b := Variable([98], Str([]));
            var c := Variable([99], Str([]));
            Run(Parser(Variable([97], Table([b])), 2, ReadingName, []), [VAL, TABLE_CLOSE, VAR, 99, VAL])
            == Some(Parser(Variable([97], Table([b, c])), 2, ReadingValue, []))
  {
    var b := Variable([98], Str([]));
    var c := Variable([99], Str([]));
    var p6 := Parser(Variable([97], Table([b])), 2, ReadingName, []);
    var p7 := Parser(Variable([97], Table([b])), 2, ReadingValue, []);
    var p8 := Parser(Variable([97], Table([b])), 1, Idle, []);
    var p9 := Parser(Variable([97], Table([b, Unnamed])), 2, ReadingName, []);
    var p10 := Parser(Variable([97], Table([b, c])), 2, ReadingName, []);
    var p11 := Parser(Variable([97], Table([b, c])), 2, ReadingValue, []);
    assert [b][..0] == [];
    assert Top(p6) == b;
    assert [] + [b] == [b];
    assert Feed(p6, VAL) == Some(p7);
    assert Feed(p7, TABLE_CLOSE) == Some(p8);
    assert [b] + [Unnamed] == [b, Unnamed];
    assert Feed(p8, VAR) == Some(p9);
    assert [b, Unnamed][..1] == [b];
    assert Top(p9) == Unnamed;
    assert Unnamed.name + [99] == [99];
    assert [b] + [c] == [b, c];
    assert Feed(p9, 99) == Some(p10);
    assert [b, c][..1] == [b];
    assert Feed(p10, VAL) == Some(p11);
    assert Run(p10, [VAL]) == Some(p11);
    assert Run(p9, [99, VAL]) == Some(p11);
    assert Run(p8, [VAR, 99, VAL]) == Some(p11);
    assert Run(p7, [TABLE_CLOSE, VAR, 99, VAL]) == Some(p11);
  }
}
