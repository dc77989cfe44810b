/**
 * The MSDP decoder: a byte-at-a-time parser that builds the variable being
 * decoded in place and keeps a stack of references into it.  The first
 * reference is the root variable; every further one was pushed referring to
 * the entry just appended to the table of the one below it, and only the
 * top is ever written, so the stack always follows the chain of last table
 * entries down from the root.  The stack is therefore modelled by its
 * depth, and `At`/`Put` read and write the variable it refers to.
 *
 * Two byte sequences make the parser do something undefined (pop an empty
 * stack; extend the last element of an empty array), and reading the top's
 * value as the wrong alternative throws; all of these make the decode fail
 * (`None`).
 */
module MsdpDecoder {
  import opened Protocol
  import opened MsdpVariable

  datatype DecodeState = Idle | ReadingName | ReadingValue | ReadingArray

  datatype Parser = Parser(root: Variable, depth: nat, state: DecodeState, reported: seq<Variable>)

  /** A fresh parser: default root, empty stack, idle, nothing reported. */
  const Start: Parser := Parser(Unnamed, 0, Idle, [])

  /** The variable `d` steps down the chain of last table entries from `v`. */
  function At(v: Variable, d: nat): Variable
    decreases d
  {
    if d > 0 && v.value.Table? && |v.value.entries| > 0 then
      At(v.value.entries[|v.value.entries| - 1], d - 1)
    else v
  }

  /** `v` with the variable `d` steps down the chain replaced by `w`. */
  function Put(v: Variable, d: nat, w: Variable): (r: Variable)
    ensures d > 0 ==> r.name == v.name
    decreases d
  {
    if d == 0 then w
    else if v.value.Table? && |v.value.entries| > 0 then
      var es := v.value.entries;
      Variable(v.name, Table(es[..|es| - 1] + [Put(es[|es| - 1], d - 1, w)]))
    else v
  }

  /** The variable on top of the stack. */
  function Top(p: Parser): Variable
  {
    At(p.root, if p.depth > 0 then p.depth - 1 else 0)
  }

  function WithTop(p: Parser, w: Variable): Parser
  {
    p.(root := Put(p.root, if p.depth > 0 then p.depth - 1 else 0, w))
  }

  function Then(r: Option<Parser>, s: DecodeState): Option<Parser>
  {
    if r.None? then None else Some(r.value.(state := s))
  }

  /** `open_variable`: a new root on an empty stack, else a new entry of the top's table. */
  function Opened(p: Parser): Option<Parser>
  {
    if p.depth == 0 then Some(p.(root := Unnamed, depth := 1))
    else
      var t := Top(p);
      if t.value.Table? then Some(WithTop(p, t.(value := Table(t.value.entries + [Unnamed]))).(depth := p.depth + 1))
      else None
  }

  /** `close_variable`: pop; emptying the stack reports the root and resets it. */
  function Closed(p: Parser): Option<Parser>
  {
    if p.depth == 0 then None
    else if p.depth == 1 then Some(p.(depth := 0, reported := p.reported + [p.root], root := Unnamed))
    else Some(p.(depth := p.depth - 1))
  }

  function IdleStep(p: Parser, b: byte): Option<Parser>
  {
    if b == VAR then Then(Opened(p), ReadingName)
    else if b == TABLE_CLOSE then Then(Closed(p), Idle)
    else Some(p)
  }

  function NameStep(p: Parser, b: byte): Option<Parser>
  {
    if p.depth == 0 then None
    else
      var t := Top(p);
      if b == VAL then Some(WithTop(p, t.(value := Str([]))).(state := ReadingValue))
      else Some(WithTop(p, t.(name := t.name + [b])))
  }

  function ValueStep(p: Parser, b: byte): Option<Parser>
  {
    if p.depth == 0 then None
    else
      var t := Top(p);
      if b == ARRAY_OPEN then Some(WithTop(p, t.(value := Arr([]))).(state := ReadingArray))
      else if b == TABLE_OPEN then Some(WithTop(p, t.(value := Table([]))).(state := Idle))
      else if b == TABLE_CLOSE then Then(Closed(p), Idle)
      else if b == VAR then
        var c := Closed(p);
        if c.None? then None else Then(Opened(c.value), ReadingName)
      else if t.value.Str? then Some(WithTop(p, t.(value := Str(t.value.text + [b]))))
      else None
  }

  function ArrayStep(p: Parser, b: byte): Option<Parser>
  {
    if b == ARRAY_CLOSE then Then(Closed(p), Idle)
    else if p.depth == 0 || !Top(p).value.Arr? then None
    else
      var t := Top(p);
      var xs := t.value.items;
      if b == VAL then Some(WithTop(p, t.(value := Arr(xs + [[]]))))
      else if |xs| == 0 then None
      else Some(WithTop(p, t.(value := Arr(xs[..|xs| - 1] + [xs[|xs| - 1] + [b]]))))
  }

  /** One byte, dispatched on the state. */
  function Feed(p: Parser, b: byte): Option<Parser>
  {
    match p.state
    case Idle => IdleStep(p, b)
    case ReadingName => NameStep(p, b)
    case ReadingValue => ValueStep(p, b)
    case ReadingArray => ArrayStep(p, b)
  }

  function Run(p: Parser, data: Bytes): Option<Parser>
    decreases |data|
  {
    if |data| == 0 then Some(p)
    else
      var q := Feed(p, data[0]);
      if q.None? then None else Run(q.value, data[1..])
  }

  /** `finish`: a root with a non-empty name is reported. */
  function Finished(p: Parser): seq<Variable>
  {
    if |p.root.name| > 0 then p.reported + [p.root] else p.reported
  }

  /** What `decode` reports for a payload, or `None` where the parser misbehaves. */
  function Decoded(data: Bytes): Option<seq<Variable>>
  {
    var p := Run(Start, data);
    if p.None? then None else Some(Finished(p.value))
  }

  class MsdpParser {
    var root: Variable
    var depth: nat
    var state: DecodeState
    /** The variables handed to the continuation, oldest first. */
    var reported: seq<Variable>

    constructor ()
      ensures Snapshot() == Start
    {
      root := Unnamed;
      depth := 0;
      state := Idle;
      reported := [];
    }

    function Snapshot(): Parser
      reads this
    {
      Parser(root, depth, state, reported)
    }

    method OpenVariable() returns (ok: bool)
      modifies this
      ensures var r := Opened(old(Snapshot())); ok == r.Some? && (ok ==> Snapshot() == r.value)
    {
      if depth == 0 {
        root := Unnamed;
        depth := 1;
        return true;
      }
      var top := At(root, depth - 1);
      if !top.value.Table? {
        return false;
      }
      root := Put(root, depth - 1, top.(value := Table(top.value.entries + [Unnamed])));
      depth := depth + 1;
      ok := true;
    }

    method CloseVariable() returns (ok: bool)
      modifies this
      ensures var r := Closed(old(Snapshot())); ok == r.Some? && (ok ==> Snapshot() == r.value)
    {
      if depth == 0 {
        return false;
      }
      depth := depth - 1;
      if depth == 0 {
        reported := reported + [root];
        root := Unnamed;
      }
      ok := true;
    }

    method ParseIdle(b: byte) returns (ok: bool)
      modifies this
      ensures var r := IdleStep(old(Snapshot()), b); ok == r.Some? && (ok ==> Snapshot() == r.value)
    {
      ok := true;
      if b == VAR {
        ok := OpenVariable();
        state := ReadingName;
      } else if b == TABLE_CLOSE {
        ok := CloseVariable();
        state := Idle;
      }
    }

    method ParseName(b: byte) returns (ok: bool)
      modifies this
      ensures var r := NameStep(old(Snapshot()), b); ok == r.Some? && (ok ==> Snapshot() == r.value)
    {
      if depth == 0 {
        return false;
      }
      var top := At(root, depth - 1);
      if b == VAL {
        state := ReadingValue;
        root := Put(root, depth - 1, top.(value := Str([])));
      } else {
        root := Put(root, depth - 1, top.(name := top.name + [b]));
      }
      ok := true;
    }

    method ParseValue(b: byte) returns (ok: bool)
      modifies this
      ensures var r := ValueStep(old(Snapshot()), b); ok == r.Some? && (ok ==> Snapshot() == r.value)
    {
      if depth == 0 {
        return false;
      }
      var top := At(root, depth - 1);
      ok := true;
      if b == ARRAY_OPEN {
        root := Put(root, depth - 1, top.(value := Arr([])));
        state := ReadingArray;
      } else if b == TABLE_OPEN {
        root := Put(root, depth - 1, top.(value := Table([])));
        state := Idle;
      } else if b == TABLE_CLOSE {
        ok := CloseVariable();
        state := Idle;
      } else if b == VAR {
        ok := CloseVariable();
        if ok {
          ok := OpenVariable();
          state := ReadingName;
        }
      } else if top.value.Str? {
        root := Put(root, depth - 1, top.(value := Str(top.value.text + [b])));
      } else {
        ok := false;
      }
    }

    method ParseArray(b: byte) returns (ok: bool)
      modifies this
      ensures var r := ArrayStep(old(Snapshot()), b); ok == r.Some? && (ok ==> Snapshot() == r.value)
    {
      if b == ARRAY_CLOSE {
        ok := CloseVariable();
        state := Idle;
        return;
      }
      if depth == 0 {
        return false;
      }
      var top := At(root, depth - 1);
      if !top.value.Arr? {
        return false;
      }
      var xs := top.value.items;
      if b == VAL {
        root := Put(root, depth - 1, top.(value := Arr(xs + [[]])));
        return true;
      }
      if |xs| == 0 {
        return false;
      }
      root := Put(root, depth - 1, top.(value := Arr(xs[..|xs| - 1] + [xs[|xs| - 1] + [b]])));
      ok := true;
    }

    /** `operator()`: one byte, dispatched on the state. */
    method Parse(b: byte) returns (ok: bool)
      modifies this
      ensures var r := Feed(old(Snapshot()), b); ok == r.Some? && (ok ==> Snapshot() == r.value)
    {
      match state {
        case Idle => ok := ParseIdle(b);
        case ReadingName => ok := ParseName(b);
        case ReadingValue => ok := ParseValue(b);
        case ReadingArray => ok := ParseArray(b);
      }
    }

    method Finish()
      modifies this`reported
      ensures reported == Finished(old(Snapshot()))
    {
      if |root.name| > 0 {
        reported := reported + [root];
      }
    }
  }

  /** `decode`: a fresh parser per payload, fed every byte, then finished. */
  method Decode(data: Bytes) returns (r: Option<seq<Variable>>)
    ensures r == Decoded(data)
  {
    var parser := new MsdpParser();
    var i := 0;
    while i < |data|
      invariant 0 <= i <= |data|
      invariant Run(Start, data) == Run(parser.Snapshot(), data[i..])
    {
      assert data[i..][1..] == data[i + 1..];
      var ok := parser.Parse(data[i]);
      if !ok {
        return None;
      }
      i := i + 1;
    }
    assert data[i..] == [];
    parser.Finish();
    r := Some(parser.reported);
  }

  /** An empty payload reports nothing. */
  lemma EmptyPayload()
    ensures Decoded([]) == Some([])
  {
  }

  /** In idle, every byte other than VAR and TABLE_CLOSE is ignored. */
  lemma IdleIgnores(p: Parser, b: byte)
    requires p.state == Idle && b != VAR && b != TABLE_CLOSE
    ensures Feed(p, b) == Some(p)
  {
  }

  /**
   * Both hazards are reachable: a payload starting with TABLE_CLOSE pops
   * the empty stack, and a byte other than VAL right after ARRAY_OPEN
   * extends an element that does not exist.
   */
  lemma HazardsReachable()
    ensures Decoded([TABLE_CLOSE]) == None
    ensures Decoded([VAR, 97, VAL, ARRAY_OPEN, 120]) == None
  {
    var p1 := Parser(Unnamed, 1, ReadingName, []);
    assert Feed(Start, VAR) == Some(p1);
    var p2 := Parser(Variable([97], Str([])), 1, ReadingName, []);
    assert Top(p1) == Unnamed;
    assert Unnamed.name + [97] == [97];
    assert Feed(p1, 97) == Some(p2);
    var p3 := Parser(Variable([97], Str([])), 1, ReadingValue, []);
    assert Feed(p2, VAL) == Some(p3);
    var p4 := Parser(Variable([97], Arr([])), 1, ReadingArray, []);
    assert Feed(p3, ARRAY_OPEN) == Some(p4);
    assert Feed(p4, 120) == None;
    var data: Bytes := [VAR, 97, VAL, ARRAY_OPEN, 120];
    assert data[1..][1..][1..][1..] == [120];
    assert Run(p4, [120]) == None;
    assert Run(p3, data[1..][1..][1..]) == None;
    assert Run(p2, data[1..][1..]) == None;
    assert Run(p1, data[1..]) == None;
    assert Run(Start, data) == None;
  }

  /**
   * Each byte reports at most one variable, keeping everything reported
   * before; a report happens only when a one-deep stack is closed, and it
   * is the root.
   */
  lemma FeedReportsAtMostOne(p: Parser, b: byte)
    requires Feed(p, b).Some?
    ensures var q := Feed(p, b).value;
            && |p.reported| <= |q.reported| <= |p.reported| + 1
            && q.reported[..|p.reported|] == p.reported
            && (|q.reported| == |p.reported| + 1 ==> p.depth == 1 && q.reported[|p.reported|] == p.root)
  {
  }

  /** Running two pieces one after the other is running their concatenation. */
  lemma {:induction false} RunAppend(p: Parser, a: Bytes, b: Bytes)
    ensures Run(p, a + b) == (if Run(p, a).None? then None else Run(Run(p, a).value, b))
    decreases |a|
  {
    if |a| > 0 {
      assert (a + b)[0] == a[0];
      assert (a + b)[1..] == a[1..] + b;
      var q := Feed(p, a[0]);
      assert Run(p, a + b) == (if q.None? then None else Run(q.value, a[1..] + b));
      assert Run(p, a) == (if q.None? then None else Run(q.value, a[1..]));
      if q.Some? {
        RunAppend(q.value, a[1..], b);
      }
    } else {
      assert a + b == b;
    }
  }
}
