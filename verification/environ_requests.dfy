/**
 * The NEW-ENVIRON request parser: the first byte (SEND) is skipped, the
 * next one gives the type of the first request, and then the name follows,
 * with ESC making the next byte literal.  Every further VAR or USERVAR ends
 * the request so far, even an unnamed one, and opens a new one of that type.
 * The request still open at the end is kept only if it has a name.  The
 * parser of the library and its older free-standing variant are both proved
 * to compute `Requests`.
 */
module EnvironRequests {
  import opened Protocol
  import opened EnvironStream

  datatype RequestPhase = AtSend | AtType | InName | InNameEsc

  /** The parser's state: its phase and the request being read. */
  datatype RequestParsing = RequestParsing(phase: RequestPhase, req: Request)

  /**
   * A fresh parser.  The type of its request is never observed: a request
   * is only ever emitted after a type byte has been read.
   */
  const RequestStart: RequestParsing := RequestParsing(AtSend, Request(VarType, []))

  /** A parser state and the requests handed to the continuation on the way to it. */
  datatype RequestsRead = RequestsRead(next: RequestParsing, emitted: seq<Request>)

  /** One byte. */
  function RequestStep(p: RequestParsing, b: byte): RequestsRead
  {
    match p.phase
    case AtSend => RequestsRead(p.(phase := AtType), [])
    case AtType => RequestsRead(RequestParsing(InName, p.req.(kind := ByteToType(b))), [])
    case InName =>
      if b == ESC then RequestsRead(p.(phase := InNameEsc), [])
      else if b == VAR || b == USERVAR then RequestsRead(RequestParsing(InName, Request(ByteToType(b), [])), [p.req])
      else RequestsRead(p.(req := p.req.(name := p.req.name + [b])), [])
    case InNameEsc => RequestsRead(RequestParsing(InName, p.req.(name := p.req.name + [b])), [])
  }

  /** The end of the payload: the open request, if it has a name. */
  function RequestEnd(p: RequestParsing): seq<Request>
  {
    if |p.req.name| > 0 then [p.req] else []
  }

  /** A run of bytes, in order. */
  function RequestRun(p: RequestParsing, data: Bytes): RequestsRead
    decreases |data|
  {
    if |data| == 0 then RequestsRead(p, [])
    else
      var r := RequestRun(p, data[..|data| - 1]);
      var s := RequestStep(r.next, data[|data| - 1]);
      RequestsRead(s.next, r.emitted + s.emitted)
  }

  /** Every request of one payload, in wire order, parsed from a fresh state. */
  function Requests(data: Bytes): seq<Request>
  {
    var r := RequestRun(RequestStart, data);
    r.emitted + RequestEnd(r.next)
  }

  /** `request_parsing_state`, stepped one byte at a time. */
  class RequestParser {
    var phase: RequestPhase
    var req: Request

    constructor ()
      ensures Snapshot() == RequestStart
    {
      phase := AtSend;
      req := Request(VarType, []);
    }

    function Snapshot(): RequestParsing
      reads this
    {
      RequestParsing(phase, req)
    }

    /** `parse_request_byte`: the requests handed to the continuation, and the new state. */
    method ParseByte(b: byte) returns (emitted: seq<Request>)
      modifies this
      ensures RequestsRead(Snapshot(), emitted) == RequestStep(old(Snapshot()), b)
    {
      emitted := [];
      match phase {
        case AtSend =>
          phase := AtType;
        case AtType =>
          req := req.(kind := ByteToType(b));
          phase := InName;
        case InName =>
          if b == ESC {
            phase := InNameEsc;
          } else if b == VAR || b == USERVAR {
            emitted := [req];
            req := Request(ByteToType(b), []);
          } else {
            req := req.(name := req.name + [b]);
          }
        case InNameEsc =>
          req := req.(name := req.name + [b]);
          phase := InName;
      }
    }

    /** `parse_request_end`. */
    method ParseEnd() returns (emitted: seq<Request>)
      ensures emitted == RequestEnd(Snapshot())
    {
      emitted := if |req.name| > 0 then [req] else [];
    }
  }

  /** `for_each_request`: a fresh state, every byte, then the end. */
  method ForEachRequest(data: Bytes) returns (reqs: seq<Request>)
    ensures reqs == Requests(data)
  {
    var parser := new RequestParser();
    reqs := [];
    for i := 0 to |data|
      invariant parser.Snapshot() == RequestRun(RequestStart, data[..i]).next
      invariant reqs == RequestRun(RequestStart, data[..i]).emitted
    {
      assert data[..i + 1][..i] == data[..i];
      var out := parser.ParseByte(data[i]);
      reqs := reqs + out;
    }
    assert data[..|data|] == data;
    var last := parser.ParseEnd();
    reqs := reqs + last;
  }

  /** The older `parse_data`: one byte, the state and the open request passed in and out. */
  method ParseData(state: RequestPhase, temp: Request, data: byte)
    returns (state': RequestPhase, temp': Request, resp: Option<Request>)
    ensures RequestsRead(RequestParsing(state', temp'), if resp.Some? then [resp.value] else [])
            == RequestStep(RequestParsing(state, temp), data)
  {
    state', temp', resp := state, temp, None;
    if state == AtSend {
      state' := AtType;
    } else if state == AtType {
      temp' := temp.(kind := ByteToType(data));
      state' := InName;
    } else if state == InName {
      if data == ESC {
        state' := InNameEsc;
      } else if data == VAR || data == USERVAR {
        resp := Some(temp);
        temp' := Request(ByteToType(data), []);
      } else {
        temp' := temp.(name := temp.name + [data]);
      }
    } else {
      temp' := temp.(name := temp.name + [data]);
      state' := InName;
    }
  }

  /** The older `parse_requests`: it computes the same requests as the parser above. */
  method ParseRequests(stream: Bytes) returns (requests: seq<Request>)
    ensures requests == Requests(stream)
  {
    requests := [];
    var state := AtSend;
    var temp := Request(VarType, []);
    for i := 0 to |stream|
      invariant RequestParsing(state, temp) == RequestRun(RequestStart, stream[..i]).next
      invariant requests == RequestRun(RequestStart, stream[..i]).emitted
    {
      assert stream[..i + 1][..i] == stream[..i];
      var resp;
      state, temp, resp := ParseData(state, temp, stream[i]);
      if resp.Some? {
        requests := requests + [resp.value];
      }
    }
    assert stream[..|stream|] == stream;
    if |temp.name| > 0 {
      requests := requests + [temp];
    }
  }

  /** Running two pieces one after the other is running their concatenation. */
  lemma {:induction false} RequestRunAppend(p: RequestParsing, a: Bytes, b: Bytes)
    ensures var first := RequestRun(p, a);
            var second := RequestRun(first.next, b);
            RequestRun(p, a + b) == RequestsRead(second.next, first.emitted + second.emitted)
    decreases |b|
  {
    if |b| == 0 {
      assert a + b == a;
    } else {
      var first := RequestRun(p, a);
      var second := RequestRun(first.next, b[..|b| - 1]);
      RequestRunAppend(p, a, b[..|b| - 1]);
      AppendFront(a, b);
      Regrouped(first.emitted, second.emitted, RequestStep(second.next, b[|b| - 1]).emitted);
    }
  }

  /** The first byte is skipped whatever its value. */
  lemma FirstByteSkipped(a: byte, b: byte, rest: Bytes)
    ensures Requests([a] + rest) == Requests([b] + rest)
  {
    RequestRunAppend(RequestStart, [a], rest);
    RequestRunAppend(RequestStart, [b], rest);
    assert RequestRun(RequestStart, [a]) == RequestRun(RequestStart, [b]);
  }

  /** One escaped byte read while in a name is appended to it. */
  lemma NameByte(q: RequestParsing, b: byte)
    requires q.phase == InName
    ensures RequestRun(q, EscapedByte(b)) == RequestsRead(q.(req := q.req.(name := q.req.name + [b])), [])
  {
    var after := q.(req := q.req.(name := q.req.name + [b]));
    if Reserved(b) {
      var esc := q.(phase := InNameEsc);
      assert [ESC, b][..1] == [ESC];
      assert [ESC][..0] == [];
      assert RequestRun(q, [ESC]) == RequestsRead(esc, []);
      assert RequestStep(esc, b) == RequestsRead(after, []);
    } else {
      assert [b][..0] == [];
      assert RequestStep(q, b) == RequestsRead(after, []);
    }
  }

  /** An escaped name read while in a name is appended to it whole, and ends nothing. */
  lemma {:induction false} NameRun(p: RequestParsing, name: Bytes)
    requires p.phase == InName
    ensures RequestRun(p, Escaped(name)) == RequestsRead(p.(req := p.req.(name := p.req.name + name)), [])
    decreases |name|
  {
    if |name| > 0 {
      var init := name[..|name| - 1];
      var b := name[|name| - 1];
      var mid := p.(req := p.req.(name := p.req.name + init));
      NameRun(p, init);
      NameByte(mid, b);
      RequestRunAppend(p, Escaped(init), EscapedByte(b));
      SnocSplit(p.req.name, name);
    } else {
      assert p.req.name + name == p.req.name;
    }
  }

  /**
   * A payload that ends before any named request, whatever it holds,
   * yields nothing; an unnamed request is only emitted when another type
   * byte follows it.
   */
  lemma NothingWithoutAName(t: byte)
    ensures Requests([]) == [] && Requests([SEND]) == [] && Requests([SEND, t]) == []
    ensures Requests([SEND, VAR, USERVAR, 120]) == [Request(VarType, []), Request(UserVarType, [120])]
    ensures Requests([SEND, VAR, VALUE]) == [Request(VarType, [VALUE])]
  {
    var afterSend := RequestParsing(AtType, Request(VarType, []));
    var named := RequestParsing(InName, Request(VarType, []));
    assert [SEND, t][..1] == [SEND];
    assert RequestRun(RequestStart, [SEND]) == RequestsRead(afterSend, []);
    assert [SEND, VAR][..1] == [SEND];
    assert RequestRun(RequestStart, [SEND, VAR]) == RequestsRead(named, []);
    assert [SEND, VAR, USERVAR][..2] == [SEND, VAR];
    var user := RequestParsing(InName, Request(UserVarType, []));
    assert RequestRun(RequestStart, [SEND, VAR, USERVAR]) == RequestsRead(user, [Request(VarType, [])]);
    assert [SEND, VAR, USERVAR, 120][..3] == [SEND, VAR, USERVAR];
    assert RequestRun(RequestStart, [SEND, VAR, USERVAR, 120])
           == RequestsRead(RequestParsing(InName, Request(UserVarType, [120])), [Request(VarType, [])]);
    assert [SEND, VAR, VALUE][..2] == [SEND, VAR];
    assert RequestRun(RequestStart, [SEND, VAR, VALUE]) == RequestsRead(named.(req := Request(VarType, [VALUE])), []);
  }
}
