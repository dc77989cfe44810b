/**
 * The NEW-ENVIRON response parser: the first byte (IS or INFO) is skipped,
 * the next gives the type of the first variable, then comes its name.  In a
 * name, VALUE starts an empty value; in a value a further VALUE is just a
 * byte.  In both, ESC makes the next byte literal and VAR or USERVAR ends
 * the variable so far and opens a new one.  The variable still open at the
 * end is kept only if it has a name.
 */
module EnvironResponses {
  import opened Protocol
  import opened EnvironStream

  datatype ResponsePhase = AtIsOrInfo | AtKind | InVarName | InVarNameEsc | InValue | InValueEsc

  /** The parser's state: its phase and the variable being read. */
  datatype ResponseParsing = ResponseParsing(phase: ResponsePhase, rsp: Response)

  /**
   * A fresh parser.  The type of its variable is never observed: a variable
   * is only ever emitted after a type byte has been read.
   */
  const ResponseStart: ResponseParsing := ResponseParsing(AtIsOrInfo, Response(VarType, [], None))

  datatype ResponsesRead = ResponsesRead(next: ResponseParsing, emitted: seq<Response>)

  /**
   * A byte appended to the value.  The value is always present in the two
   * value phases (`ValueAlwaysOpen`); an absent one is taken as empty.
   */
  function Pushed(value: Option<Bytes>, b: byte): Option<Bytes>
  {
    match value
    case Some(v) => Some(v + [b])
    case None => Some([b])
  }

  /** One byte. */
  function ResponseStep(p: ResponseParsing, b: byte): ResponsesRead
  {
    match p.phase
    case AtIsOrInfo => ResponsesRead(p.(phase := AtKind), [])
    case AtKind => ResponsesRead(ResponseParsing(InVarName, p.rsp.(kind := ByteToType(b))), [])
    case InVarName =>
      if b == VAR || b == USERVAR then ResponsesRead(ResponseParsing(InVarName, Response(ByteToType(b), [], None)), [p.rsp])
      else if b == ESC then ResponsesRead(p.(phase := InVarNameEsc), [])
      else if b == VALUE then ResponsesRead(ResponseParsing(InValue, p.rsp.(value := Some([]))), [])
      else ResponsesRead(p.(rsp := p.rsp.(name := p.rsp.name + [b])), [])
    case InVarNameEsc => ResponsesRead(ResponseParsing(InVarName, p.rsp.(name := p.rsp.name + [b])), [])
    case InValue =>
      if b == VAR || b == USERVAR then ResponsesRead(ResponseParsing(InVarName, Response(ByteToType(b), [], None)), [p.rsp])
      else if b == ESC then ResponsesRead(p.(phase := InValueEsc), [])
      else ResponsesRead(p.(rsp := p.rsp.(value := Pushed(p.rsp.value, b))), [])
    case InValueEsc => ResponsesRead(ResponseParsing(InValue, p.rsp.(value := Pushed(p.rsp.value, b))), [])
  }

  /** The end of the payload: the open variable, if it has a name. */
  function ResponseEnd(p: ResponseParsing): seq<Response>
  {
    if |p.rsp.name| > 0 then [p.rsp] else []
  }

  function ResponseRun(p: ResponseParsing, data: Bytes): ResponsesRead
    decreases |data|
  {
    if |data| == 0 then ResponsesRead(p, [])
    else
      var r := ResponseRun(p, data[..|data| - 1]);
      var s := ResponseStep(r.next, data[|data| - 1]);
      ResponsesRead(s.next, r.emitted + s.emitted)
  }

  /** Every variable of one payload, in wire order, parsed from a fresh state. */
  function Responses(data: Bytes): seq<Response>
  {
    var r := ResponseRun(ResponseStart, data);
    r.emitted + ResponseEnd(r.next)
  }

  /** `parsing_state`, stepped one byte at a time. */
  class ResponseParser {
    var phase: ResponsePhase
    var rsp: Response

    constructor ()
      ensures Snapshot() == ResponseStart
    {
      phase := AtIsOrInfo;
      rsp := Response(VarType, [], None);
    }

    function Snapshot(): ResponseParsing
      reads this
    {
      ResponseParsing(phase, rsp)
    }

    /** `parse_byte`: the variables handed to the continuation, and the new state. */
    method ParseByte(b: byte) returns (emitted: seq<Response>)
      modifies this
      ensures ResponsesRead(Snapshot(), emitted) == ResponseStep(old(Snapshot()), b)
    {
      emitted := [];
      match phase {
        case AtIsOrInfo =>
          phase := AtKind;
        case AtKind =>
          rsp := rsp.(kind := ByteToType(b));
          phase := InVarName;
        case InVarName =>
          if b == VAR || b == USERVAR {
            emitted := [rsp];
            rsp := Response(ByteToType(b), [], None);
          } else if b == ESC {
            phase := InVarNameEsc;
          } else if b == VALUE {
            rsp := rsp.(value := Some([]));
            phase := InValue;
          } else {
            rsp := rsp.(name := rsp.name + [b]);
          }
        case InVarNameEsc =>
          rsp := rsp.(name := rsp.name + [b]);
          phase := InVarName;
        case InValue =>
          if b == VAR || b == USERVAR {
            emitted := [rsp];
            rsp := Response(ByteToType(b), [], None);
            phase := InVarName;
          } else if b == ESC {
            phase := InValueEsc;
          } else {
            rsp := rsp.(value := Pushed(rsp.value, b));
          }
        case InValueEsc =>
          rsp := rsp.(value := Pushed(rsp.value, b));
          phase := InValue;
      }
    }

    /** `parse_end`. */
    method ParseEnd() returns (emitted: seq<Response>)
      ensures emitted == ResponseEnd(Snapshot())
    {
      emitted := if |rsp.name| > 0 then [rsp] else [];
    }
  }

  /** `for_each_response`: a fresh state, every byte, then the end. */
  method ForEachResponse(content: Bytes) returns (rsps: seq<Response>)
    ensures rsps == Responses(content)
  {
    var parser := new ResponseParser();
    rsps := [];
    var i := 0;
    while i != |content|
      invariant 0 <= i <= |content|
      invariant parser.Snapshot() == ResponseRun(ResponseStart, content[..i]).next
      invariant rsps == ResponseRun(ResponseStart, content[..i]).emitted
    {
      assert content[..i + 1][..i] == content[..i];
      var out := parser.ParseByte(content[i]);
      rsps := rsps + out;
      i := i + 1;
    }
    assert content[..|content|] == content;
    var last := parser.ParseEnd();
    rsps := rsps + last;
  }

  /** Running two pieces one after the other is running their concatenation. */
  lemma {:induction false} ResponseRunAppend(p: ResponseParsing, a: Bytes, b: Bytes)
    ensures var first := ResponseRun(p, a);
            var second := ResponseRun(first.next, b);
            ResponseRun(p, a + b) == ResponsesRead(second.next, first.emitted + second.emitted)
    decreases |b|
  {
    if |b| == 0 {
      assert a + b == a;
    } else {
      var first := ResponseRun(p, a);
      var second := ResponseRun(first.next, b[..|b| - 1]);
      ResponseRunAppend(p, a, b[..|b| - 1]);
      AppendFront(a, b);
      Regrouped(first.emitted, second.emitted, ResponseStep(second.next, b[|b| - 1]).emitted);
    }
  }

  /** The parser never reaches a value phase without a value to append to. */
  predicate ValueOpen(p: ResponseParsing)
  {
    (p.phase == InValue || p.phase == InValueEsc) ==> p.rsp.value.Some?
  }

  lemma {:induction false} ValueAlwaysOpen(data: Bytes)
    ensures ValueOpen(ResponseRun(ResponseStart, data).next)
    decreases |data|
  {
    if |data| > 0 {
      ValueAlwaysOpen(data[..|data| - 1]);
    }
  }

  /** The first byte is skipped whatever its value. */
  lemma FirstByteSkipped(a: byte, b: byte, rest: Bytes)
    ensures Responses([a] + rest) == Responses([b] + rest)
  {
    ResponseRunAppend(ResponseStart, [a], rest);
    ResponseRunAppend(ResponseStart, [b], rest);
    assert ResponseRun(ResponseStart, [a]) == ResponseRun(ResponseStart, [b]);
  }

  /**
   * Nothing, or IS alone, yields no variable; a name without VALUE has no
   * value, and VALUE followed by nothing gives an empty one.
   */
  lemma ValuePresence(lead: byte)
    ensures Responses([]) == [] && Responses([lead]) == []
    ensures Responses([lead, VAR, 120]) == [Response(VarType, [120], None)]
    ensures Responses([lead, USERVAR, 120, VALUE]) == [Response(UserVarType, [120], Some([]))]
  {
    var kinded := ResponseParsing(InVarName, Response(VarType, [], None));
    assert ResponseRun(ResponseStart, [lead]) == ResponsesRead(ResponseStart.(phase := AtKind), []);
    assert [lead, VAR, 120][..2] == [lead, VAR];
    assert [lead, VAR][..1] == [lead];
    assert ResponseRun(ResponseStart, [lead, VAR]) == ResponsesRead(kinded, []);
    assert ResponseRun(ResponseStart, [lead, VAR, 120]) == ResponsesRead(kinded.(rsp := Response(VarType, [120], None)), []);
    var user := ResponseParsing(InVarName, Response(UserVarType, [], None));
    assert [lead, USERVAR, 120, VALUE][..3] == [lead, USERVAR, 120];
    assert [lead, USERVAR, 120][..2] == [lead, USERVAR];
    assert [lead, USERVAR][..1] == [lead];
    assert ResponseRun(ResponseStart, [lead, USERVAR]) == ResponsesRead(user, []);
    assert ResponseRun(ResponseStart, [lead, USERVAR, 120]) == ResponsesRead(user.(rsp := Response(UserVarType, [120], None)), []);
    assert ResponseRun(ResponseStart, [lead, USERVAR, 120, VALUE])
           == ResponsesRead(ResponseParsing(InValue, Response(UserVarType, [120], Some([]))), []);
  }

  // ------------------------------------------------------------------------
  // The older parser, whose responses carry the type as the raw byte.

  datatype RawResponse = RawResponse(kind: byte, name: Bytes, value: Option<Bytes>)

  datatype RawParsing = RawParsing(phase: ResponsePhase, temp: RawResponse)

  const RawStart: RawParsing := RawParsing(AtIsOrInfo, RawResponse(VAR, [], None))

  datatype RawRead = RawRead(next: RawParsing, emitted: seq<RawResponse>)

  /** The older per-state functions: the same machine, keeping the type byte as received. */
  function RawStep(p: RawParsing, b: byte): RawRead
  {
    match p.phase
    case AtIsOrInfo => RawRead(p.(phase := AtKind), [])
    case AtKind => RawRead(RawParsing(InVarName, p.temp.(kind := b)), [])
    case InVarName =>
      if b == ESC then RawRead(p.(phase := InVarNameEsc), [])
      else if b == VAR || b == USERVAR then RawRead(RawParsing(InVarName, RawResponse(b, [], None)), [p.temp])
      else if b == VALUE then RawRead(RawParsing(InValue, p.temp.(value := Some([]))), [])
      else RawRead(p.(temp := p.temp.(name := p.temp.name + [b])), [])
    case InVarNameEsc => RawRead(RawParsing(InVarName, p.temp.(name := p.temp.name + [b])), [])
    case InValue =>
      if b == ESC then RawRead(p.(phase := InValueEsc), [])
      else if b == VAR || b == USERVAR then RawRead(RawParsing(InVarName, RawResponse(b, [], None)), [p.temp])
      else RawRead(p.(temp := p.temp.(value := Pushed(p.temp.value, b))), [])
    case InValueEsc => RawRead(RawParsing(InValue, p.temp.(value := Pushed(p.temp.value, b))), [])
  }

  function RawRun(p: RawParsing, data: Bytes): RawRead
    decreases |data|
  {
    if |data| == 0 then RawRead(p, [])
    else
      var r := RawRun(p, data[..|data| - 1]);
      var s := RawStep(r.next, data[|data| - 1]);
      RawRead(s.next, r.emitted + s.emitted)
  }

  function RawResponses(data: Bytes): seq<RawResponse>
  {
    var r := RawRun(RawStart, data);
    r.emitted + (if |r.next.temp.name| > 0 then [r.next.temp] else [])
  }

  /** The older `parse_data`: one byte, the state and the open variable passed in and out. */
  method ParseData(state: ResponsePhase, temp: RawResponse, data: byte)
    returns (state': ResponsePhase, temp': RawResponse, resp: Option<RawResponse>)
    ensures RawRead(RawParsing(state', temp'), if resp.Some? then [resp.value] else [])
            == RawStep(RawParsing(state, temp), data)
  {
    state', temp', resp := state, temp, None;
    match state {
      case AtIsOrInfo =>
        state' := AtKind;
      case AtKind =>
        temp' := temp.(kind := data);
        state' := InVarName;
      case InVarName =>
        if data == ESC {
          state' := InVarNameEsc;
        } else if data == VAR || data == USERVAR {
          resp := Some(temp);
          temp' := RawResponse(data, [], None);
        } else if data == VALUE {
          temp' := temp.(value := Some([]));
          state' := InValue;
        } else {
          temp' := temp.(name := temp.name + [data]);
        }
      case InVarNameEsc =>
        temp' := temp.(name := temp.name + [data]);
        state' := InVarName;
      case InValue =>
        if data == ESC {
          state' := InValueEsc;
        } else if data == VAR || data == USERVAR {
          resp := Some(temp);
          temp' := RawResponse(data, [], None);
          state' := InVarName;
        } else {
          temp' := temp.(value := Pushed(temp.value, data));
        }
      case InValueEsc =>
        temp' := temp.(value := Pushed(temp.value, data));
        state' := InValue;
    }
  }

  /** The older `parse_responses`. */
  method ParseResponses(stream: Bytes) returns (responses: seq<RawResponse>)
    ensures responses == RawResponses(stream)
  {
    responses := [];
    var state := AtIsOrInfo;
    var temp := RawResponse(VAR, [], None);
    for i := 0 to |stream|
      invariant RawParsing(state, temp) == RawRun(RawStart, stream[..i]).next
      invariant responses == RawRun(RawStart, stream[..i]).emitted
    {
      assert stream[..i + 1][..i] == stream[..i];
      var resp;
      state, temp, resp := ParseData(state, temp, stream[i]);
      if resp.Some? {
        responses := responses + [resp.value];
      }
    }
    assert stream[..|stream|] == stream;
    if |temp.name| > 0 {
      responses := responses + [temp];
    }
  }

  /** A raw response read as the library's: its type byte read as a type. */
  function Modern(r: RawResponse): Response
  {
    Response(ByteToType(r.kind), r.name, r.value)
  }

  /** Every older response converted, in order. */
  function AllModern(rs: seq<RawResponse>): seq<Response>
  {
    seq(|rs|, i requires 0 <= i < |rs| => Modern(rs[i]))
  }

  /** Converting the types distributes over concatenation. */
  lemma AllModernAppend(a: seq<RawResponse>, b: seq<RawResponse>)
    ensures AllModern(a + b) == AllModern(a) + AllModern(b)
  {
  }

  /** One byte moves both parsers alike from states that agree. */
  lemma RawStepAgrees(q: RawParsing, n: ResponseParsing, b: byte)
    requires q.phase == n.phase && Modern(q.temp) == n.rsp
    ensures var rs := RawStep(q, b);
            var ns := ResponseStep(n, b);
            && rs.next.phase == ns.next.phase
            && Modern(rs.next.temp) == ns.next.rsp
            && AllModern(rs.emitted) == ns.emitted
  {
  }

  /** The older parser and the current one read every payload alike, up to the type's representation. */
  lemma {:induction false} RawRunAgrees(data: Bytes)
    ensures var raw := RawRun(RawStart, data);
            var now := ResponseRun(ResponseStart, data);
            && raw.next.phase == now.next.phase
            && Modern(raw.next.temp) == now.next.rsp
            && AllModern(raw.emitted) == now.emitted
    decreases |data|
  {
    if |data| > 0 {
      var init := data[..|data| - 1];
      RawRunAgrees(init);
      var raw := RawRun(RawStart, init);
      var now := ResponseRun(ResponseStart, init);
      RawStepAgrees(raw.next, now.next, data[|data| - 1]);
      AllModernAppend(raw.emitted, RawStep(raw.next, data[|data| - 1]).emitted);
    }
  }

  lemma OlderParserAgrees(data: Bytes)
    ensures AllModern(RawResponses(data)) == Responses(data)
  {
    RawRunAgrees(data);
    var raw := RawRun(RawStart, data);
    var tail := if |raw.next.temp.name| > 0 then [raw.next.temp] else [];
    AllModernAppend(raw.emitted, tail);
  }

  // ------------------------------------------------------------------------
  // Escaped names and values, and whole variables, read back by the parser.

  /** One escaped byte read while in a name is appended to it. */
  lemma VarNameByte(q: ResponseParsing, b: byte)
    requires q.phase == InVarName
    ensures ResponseRun(q, EscapedByte(b)) == ResponsesRead(q.(rsp := q.rsp.(name := q.rsp.name + [b])), [])
  {
    if Reserved(b) {
      var esc := q.(phase := InVarNameEsc);
      assert [ESC, b][..1] == [ESC];
      RunOne(q, ESC);
      assert ResponseStep(esc, b) == ResponsesRead(q.(rsp := q.rsp.(name := q.rsp.name + [b])), []);
    } else {
      RunOne(q, b);
    }
  }

  /** An escaped name read while in a name is appended to it whole. */
  lemma {:induction false} VarNameRun(p: ResponseParsing, name: Bytes)
    requires p.phase == InVarName
    ensures ResponseRun(p, Escaped(name)) == ResponsesRead(p.(rsp := p.rsp.(name := p.rsp.name + name)), [])
    decreases |name|
  {
    if |name| > 0 {
      var init := name[..|name| - 1];
      var b := name[|name| - 1];
      VarNameRun(p, init);
      ResponseRunAppend(p, Escaped(init), EscapedByte(b));
      VarNameByte(p.(rsp := p.rsp.(name := p.rsp.name + init)), b);
      SnocSplit(p.rsp.name, name);
    } else {
      assert p.rsp.name + name == p.rsp.name;
    }
  }

  /** One escaped byte read while in a value is appended to it. */
  lemma ValueByte(q: ResponseParsing, held: Bytes, b: byte)
    requires q.phase == InValue && q.rsp.value == Some(held)
    ensures ResponseRun(q, EscapedByte(b)) == ResponsesRead(q.(rsp := q.rsp.(value := Some(held + [b]))), [])
  {
    if Reserved(b) {
      var esc := q.(phase := InValueEsc);
      assert [ESC, b][..1] == [ESC];
      assert ResponseRun(q, [ESC]) == ResponsesRead(esc, []);
      assert ResponseStep(esc, b) == ResponsesRead(q.(rsp := q.rsp.(value := Some(held + [b]))), []);
    } else {
      assert ResponseStep(q, b) == ResponsesRead(q.(rsp := q.rsp.(value := Some(held + [b]))), []);
    }
  }

  /** An escaped value read while in a value is appended to it whole. */
  lemma {:induction false} ValueRun(p: ResponseParsing, v: Bytes, held: Bytes)
    requires p.phase == InValue && p.rsp.value == Some(held)
    ensures ResponseRun(p, Escaped(v)) == ResponsesRead(p.(rsp := p.rsp.(value := Some(held + v))), [])
    decreases |v|
  {
    if |v| > 0 {
      var init := v[..|v| - 1];
      var b := v[|v| - 1];
      ValueRun(p, init, held);
      ResponseRunAppend(p, Escaped(init), EscapedByte(b));
      ValueByte(p.(rsp := p.rsp.(value := Some(held + init))), held + init, b);
      SnocSplit(held, v);
    } else {
      assert held + v == held;
    }
  }

  /** Where the parser rests after reading one variable `r`. */
  function Settled(r: Response): ResponseParsing
  {
    ResponseParsing(if r.value.Some? then InValue else InVarName, r)
  }

  /** What follows the type marker of one variable. */
  function BodyBytes(r: Response): Bytes
  {
    match r.value
    case Some(v) => Escaped(r.name) + [VALUE] + Escaped(v)
    case None => Escaped(r.name)
  }

  lemma RunOne(p: ResponseParsing, b: byte)
    ensures ResponseRun(p, [b]) == ResponseStep(p, b)
  {
    assert [b][..0] == [];
  }

  /** A type marker after the lead byte opens a blank variable of that type. */
  lemma FirstKind(t: VariableType)
    ensures ResponseRun(ResponseParsing(AtKind, Response(VarType, [], None)), [TypeToByte(t)])
            == ResponsesRead(ResponseParsing(InVarName, Response(t, [], None)), [])
  {
    RunOne(ResponseParsing(AtKind, Response(VarType, [], None)), TypeToByte(t));
  }

  /** A type marker after a variable emits it and opens a blank one. */
  lemma NextKind(r: Response, t: VariableType)
    ensures ResponseRun(Settled(r), [TypeToByte(t)])
            == ResponsesRead(ResponseParsing(InVarName, Response(t, [], None)), [r])
  {
    RunOne(Settled(r), TypeToByte(t));
  }

  /** Everything of one variable after its type marker, read from a blank variable of its type. */
  lemma BodyRun(r: Response)
    ensures ResponseRun(ResponseParsing(InVarName, Response(r.kind, [], None)), BodyBytes(r)) == ResponsesRead(Settled(r), [])
  {
    var blank := ResponseParsing(InVarName, Response(r.kind, [], None));
    VarNameRun(blank, r.name);
    var named := ResponseParsing(InVarName, Response(r.kind, r.name, None));
    assert [] + r.name == r.name;
    assert ResponseRun(blank, Escaped(r.name)) == ResponsesRead(named, []);
    match r.value {
      case None =>
      case Some(v) =>
        var valued := ResponseParsing(InValue, Response(r.kind, r.name, Some([])));
        RunOne(named, VALUE);
        ResponseRunAppend(blank, Escaped(r.name), [VALUE]);
        assert ResponseRun(blank, Escaped(r.name) + [VALUE]) == ResponsesRead(valued, []);
        ValueRun(valued, v, []);
        assert [] + v == v;
        ResponseRunAppend(blank, Escaped(r.name) + [VALUE], Escaped(v));
    }
  }

  /** The lead byte only moves the parser on to the first type marker. */
  lemma LeadSkipped(lead: byte, body: Bytes)
    ensures ResponseRun(ResponseStart, [lead] + body) == ResponseRun(ResponseParsing(AtKind, Response(VarType, [], None)), body)
  {
    RunOne(ResponseStart, lead);
    ResponseRunAppend(ResponseStart, [lead], body);
  }
}
