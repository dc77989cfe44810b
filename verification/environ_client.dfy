/**
 * The NEW-ENVIRON client: it asks the server for variables with SEND and a
 * list of typed, escaped names, and reports every variable of an IS or INFO
 * payload, in order, as changed.  The request it writes is read back by the
 * server's request parser as the same list, and a server holding the
 * requested variables answers with exactly those that exist.
 */
module EnvironClient {
  import opened Protocol
  import opened EnvironStream
  import opened EnvironTable
  import Req = EnvironRequests
  import Rsp = EnvironResponses
  import Srv = EnvironServer

  /** One request as sent: its type marker and its escaped name. */
  function RequestBytes(q: Request): Bytes
  {
    [TypeToByte(q.kind)] + Escaped(q.name)
  }

  function RequestChunks(reqs: seq<Request>): seq<Bytes>
  {
    seq(|reqs|, i requires 0 <= i < |reqs| => RequestBytes(reqs[i]))
  }

  /** The requests one after the other. */
  function RequestList(reqs: seq<Request>): Bytes
  {
    Concat(RequestChunks(reqs))
  }

  /** The content of the subnegotiation `request_variables` writes. */
  function RequestContent(reqs: seq<Request>): Bytes
  {
    [SEND] + RequestList(reqs)
  }

  lemma RequestListAppend(a: seq<Request>, b: seq<Request>)
    ensures RequestList(a + b) == RequestList(a) + RequestList(b)
  {
    assert RequestChunks(a + b) == RequestChunks(a) + RequestChunks(b);
    ConcatAppend(RequestChunks(a), RequestChunks(b));
  }

  lemma RequestListOne(q: Request)
    ensures RequestList([q]) == RequestBytes(q)
  {
    assert RequestChunks([q]) == [RequestBytes(q)];
    assert Concat([RequestBytes(q)]) == Concat([]) + RequestBytes(q);
  }

  /** The request content is SEND alone exactly when nothing is requested. */
  lemma {:induction false} ContentIsBareSend(reqs: seq<Request>)
    ensures RequestContent(reqs)[0] == SEND
    ensures |RequestContent(reqs)| == 1 <==> reqs == []
  {
    if reqs != [] {
      var init := reqs[..|reqs| - 1];
      assert init + [reqs[|reqs| - 1]] == reqs;
      RequestListAppend(init, [reqs[|reqs| - 1]]);
      RequestListOne(reqs[|reqs| - 1]);
    } else {
      assert RequestChunks(reqs) == [];
    }
  }

  class NewEnvironClient {
    /** `request_variables`: the subnegotiation content written. */
    static method RequestVariables(reqs: seq<Request>) returns (content: Bytes)
      ensures content == RequestContent(reqs)
    {
      content := [SEND];
      for i := 0 to |reqs|
        invariant content == [SEND] + RequestList(reqs[..i])
      {
        var q := reqs[i];
        assert reqs[..i + 1] == reqs[..i] + [q];
        RequestListAppend(reqs[..i], [q]);
        RequestListOne(q);
        Regrouped([SEND], RequestList(reqs[..i]), RequestBytes(q));
        content := content + [TypeToByte(q.kind)];
        content := AppendEscaped(content, q.name);
        Regrouped([SEND] + RequestList(reqs[..i]), [TypeToByte(q.kind)], Escaped(q.name));
      }
      assert reqs[..|reqs|] == reqs;
    }

    /** `handle_subnegotiation`: the variables reported as changed, in order. */
    static method HandleSubnegotiation(data: Bytes) returns (changed: seq<Response>)
      ensures changed == Rsp.Responses(data)
    {
      changed := Rsp.ForEachResponse(data);
    }
  }

  // ------------------------------------------------------------------------
  // What the client sends is what the server's request parser reads back.

  lemma RunOne(p: Req.RequestParsing, b: byte)
    ensures Req.RequestRun(p, [b]) == Req.RequestStep(p, b)
  {
    assert [b][..0] == [];
  }

  /** Where the request parser rests after reading request `q`. */
  function Settled(q: Request): Req.RequestParsing
  {
    Req.RequestParsing(Req.InName, q)
  }

  /** The first request after SEND is open once read. */
  lemma FirstRequest(q: Request)
    ensures Req.RequestRun(Req.RequestParsing(Req.AtType, Request(VarType, [])), RequestBytes(q))
            == Req.RequestsRead(Settled(q), [])
  {
    var start := Req.RequestParsing(Req.AtType, Request(VarType, []));
    var blank := Req.RequestParsing(Req.InName, Request(q.kind, []));
    RunOne(start, TypeToByte(q.kind));
    Req.NameRun(blank, q.name);
    assert [] + q.name == q.name;
    Req.RequestRunAppend(start, [TypeToByte(q.kind)], Escaped(q.name));
  }

  /** One more request after an open one: the open one is emitted, the new one is open. */
  lemma NextRequest(before: Bytes, emitted: seq<Request>, prev: Request, q: Request)
    requires Req.RequestRun(Req.RequestParsing(Req.AtType, Request(VarType, [])), before) == Req.RequestsRead(Settled(prev), emitted)
    ensures Req.RequestRun(Req.RequestParsing(Req.AtType, Request(VarType, [])), before + RequestBytes(q))
            == Req.RequestsRead(Settled(q), emitted + [prev])
  {
    var start := Req.RequestParsing(Req.AtType, Request(VarType, []));
    var blank := Req.RequestParsing(Req.InName, Request(q.kind, []));
    RunOne(Settled(prev), TypeToByte(q.kind));
    Req.NameRun(blank, q.name);
    assert [] + q.name == q.name;
    Req.RequestRunAppend(Settled(prev), [TypeToByte(q.kind)], Escaped(q.name));
    Req.RequestRunAppend(start, before, RequestBytes(q));
  }

  /** A list of requests after SEND: all but the last are emitted, the last is open. */
  lemma {:induction false} RequestListRun(init: seq<Request>, last: Request)
    ensures Req.RequestRun(Req.RequestParsing(Req.AtType, Request(VarType, [])), RequestList(init + [last]))
            == Req.RequestsRead(Settled(last), init)
    decreases |init|
  {
    RequestListAppend(init, [last]);
    RequestListOne(last);
    if |init| == 0 {
      assert RequestList(init) == [] by {
        assert RequestChunks(init) == [];
      }
      assert RequestList(init + [last]) == RequestBytes(last);
      FirstRequest(last);
    } else {
      var front := init[..|init| - 1];
      var prev := init[|init| - 1];
      assert front + [prev] == init;
      RequestListRun(front, prev);
      NextRequest(RequestList(init), front, prev, last);
    }
  }

  /** SEND only moves the parser on to the first type marker. */
  lemma SendSkipped(body: Bytes)
    ensures Req.RequestRun(Req.RequestStart, [SEND] + body)
            == Req.RequestRun(Req.RequestParsing(Req.AtType, Request(VarType, [])), body)
  {
    RunOne(Req.RequestStart, SEND);
    Req.RequestRunAppend(Req.RequestStart, [SEND], body);
  }

  /**
   * A request list whose last name is not empty is read back exactly.
   * Unnamed requests before it survive, since the next type marker ends
   * them; an unnamed last one is dropped at the end of the payload.
   */
  lemma RequestRoundTrip(reqs: seq<Request>)
    requires |reqs| > 0 ==> |reqs[|reqs| - 1].name| > 0
    ensures Req.Requests(RequestContent(reqs)) == reqs
  {
    SendSkipped(RequestList(reqs));
    if |reqs| > 0 {
      var init := reqs[..|reqs| - 1];
      var last := reqs[|reqs| - 1];
      assert init + [last] == reqs;
      RequestListRun(init, last);
    } else {
      assert RequestChunks(reqs) == [];
      assert RequestContent(reqs) == [SEND];
      assert [SEND][..0] == [];
    }
  }

  /** An unnamed request sent last is lost. */
  lemma UnnamedLastDropped(t: VariableType)
    ensures Req.Requests(RequestContent([Request(t, [])])) == []
  {
    RequestListRun([], Request(t, []));
    SendSkipped(RequestList([Request(t, [])]));
  }

  /**
   * A request from the client, answered by a server whose variables all
   * have names, is read by the client as exactly the requested variables
   * that exist, with their values, in the order asked; asking for nothing
   * gets every variable and then every user variable.
   */
  lemma Exchange(vars: seq<Entry>, users: seq<Entry>, reqs: seq<Request>)
    requires forall i :: 0 <= i < |vars| ==> |vars[i].name| > 0
    requires forall i :: 0 <= i < |users| ==> |users[i].name| > 0
    requires |reqs| > 0 ==> |reqs[|reqs| - 1].name| > 0
    ensures reqs == [] ==> Rsp.Responses(Srv.Reply(vars, users, RequestContent(reqs)))
                           == Srv.Listed(VarType, vars) + Srv.Listed(UserVarType, users)
    ensures reqs != [] ==> Rsp.Responses(Srv.Reply(vars, users, RequestContent(reqs)))
                           == Srv.Found(vars, users, reqs)
  {
    var content := RequestContent(reqs);
    ContentIsBareSend(reqs);
    if reqs == [] {
      Srv.BareSendListsEverything(vars, users, SEND);
      assert content == [SEND];
    } else {
      RequestRoundTrip(reqs);
      Srv.RequestsAnsweredInOrder(vars, users, content);
    }
  }
}
