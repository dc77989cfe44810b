/**
 * The NEW-ENVIRON server: two tables, of well-known variables (VAR) and of
 * user variables (USERVAR).  Setting or deleting one is broadcast as an
 * INFO subnegotiation while the option is active.  A request is always
 * answered with IS: a bare SEND gets every variable and then every user
 * variable, anything else gets the requested variables that exist, in the
 * order asked.
 */
module EnvironServer {
  import opened Protocol
  import opened EnvironStream
  import opened EnvironTable
  import opened EnvironRequests
  import opened EnvironResponses

  /** The three-argument `append_variable`: the type marker and the escaped name. */
  function NameBytes(t: VariableType, name: Bytes): Bytes
  {
    [TypeToByte(t)] + Escaped(name)
  }

  /** The four-argument `append_variable`: then VALUE and the escaped value, even an empty one. */
  function ValuedBytes(t: VariableType, name: Bytes, value: Bytes): Bytes
  {
    NameBytes(t, name) + [VALUE] + Escaped(value)
  }

  /** How one variable is sent: with VALUE and its value when it has one. */
  function ResponseBytes(r: Response): Bytes
  {
    match r.value
    case Some(v) => ValuedBytes(r.kind, r.name, v)
    case None => NameBytes(r.kind, r.name)
  }

  function Chunks(rs: seq<Response>): seq<Bytes>
  {
    seq(|rs|, i requires 0 <= i < |rs| => ResponseBytes(rs[i]))
  }

  /** Several variables, one after the other. */
  function ResponseList(rs: seq<Response>): Bytes
  {
    Concat(Chunks(rs))
  }

  /** Every entry of a table, in the table's order, as a variable of type `t`. */
  function Listed(t: VariableType, es: seq<Entry>): (r: seq<Response>)
    ensures |r| == |es|
    ensures forall i :: 0 <= i < |es| ==> r[i] == Response(t, es[i].name, Some(es[i].value))
    decreases |es|
  {
    if |es| == 0 then [] else Listed(t, es[..|es| - 1]) + [Response(t, es[|es| - 1].name, Some(es[|es| - 1].value))]
  }

  /** The table a request of type `t` is looked up in. */
  function TableFor(t: VariableType, vars: seq<Entry>, users: seq<Entry>): seq<Entry>
  {
    if t == VarType then vars else users
  }

  /** The requested variables that exist, in the order requested, with their values. */
  function Found(vars: seq<Entry>, users: seq<Entry>, reqs: seq<Request>): (r: seq<Response>)
    ensures |r| <= |reqs|
    decreases |reqs|
  {
    if |reqs| == 0 then []
    else
      var q := reqs[|reqs| - 1];
      var init := Found(vars, users, reqs[..|reqs| - 1]);
      match Lookup(TableFor(q.kind, vars, users), q.name)
      case Some(v) => init + [Response(q.kind, q.name, Some(v))]
      case None => init
  }

  /** What `handle_subnegotiation` writes for a payload. */
  function Reply(vars: seq<Entry>, users: seq<Entry>, data: Bytes): Bytes
  {
    if |data| == 1 then [IS] + ResponseList(Listed(VarType, vars) + Listed(UserVarType, users))
    else [IS] + ResponseList(Found(vars, users, Requests(data)))
  }

  class NewEnvironServer {
    var variables: seq<Entry>
    var userVariables: seq<Entry>

    predicate Valid()
      reads this
    {
      Ordered(variables) && Ordered(userVariables)
    }

    constructor ()
      ensures Valid() && variables == [] && userVariables == []
    {
      variables := [];
      userVariables := [];
    }

    /** `append_variable` without a value. */
    static method AppendName(storage: Bytes, t: VariableType, name: Bytes) returns (r: Bytes)
      ensures r == storage + NameBytes(t, name)
    {
      r := storage + [TypeToByte(t)];
      r := AppendEscaped(r, name);
    }

    /** `append_variable` with a value. */
    static method AppendValued(storage: Bytes, t: VariableType, name: Bytes, value: Bytes) returns (r: Bytes)
      ensures r == storage + ValuedBytes(t, name, value)
    {
      r := AppendName(storage, t, name);
      r := r + [VALUE];
      r := AppendEscaped(r, value);
    }

    /** `broadcast_variable_update`: INFO and the variable with its value. */
    static method BroadcastUpdate(t: VariableType, name: Bytes, value: Bytes) returns (storage: Bytes)
      ensures storage == [INFO] + ResponseBytes(Response(t, name, Some(value)))
    {
      storage := AppendValued([INFO], t, name, value);
    }

    /** `broadcast_variable_deletion`: INFO and the variable without a value. */
    static method BroadcastDeletion(t: VariableType, name: Bytes) returns (storage: Bytes)
      ensures storage == [INFO] + ResponseBytes(Response(t, name, None))
    {
      storage := AppendName([INFO], t, name);
    }

    /**
     * `set_variable`; `active` is whether the option is active.  The
     * subnegotiation written, if any, is returned.
     */
    method SetVariable(name: Bytes, value: Bytes, active: bool) returns (written: Option<Bytes>)
      requires Valid()
      modifies this`variables
      ensures Valid()
      ensures variables == Assigned(old(variables), name, value)
      ensures written == if active then Some([INFO] + ResponseBytes(Response(VarType, name, Some(value)))) else None
    {
      AssignedOrdered(variables, name, value);
      variables := Assigned(variables, name, value);
      written := None;
      if active {
        var storage := BroadcastUpdate(VarType, name, value);
        written := Some(storage);
      }
    }

    method DeleteVariable(name: Bytes, active: bool) returns (written: Option<Bytes>)
      requires Valid()
      modifies this`variables
      ensures Valid()
      ensures variables == Erased(old(variables), name)
      ensures written == if active then Some([INFO] + ResponseBytes(Response(VarType, name, None))) else None
    {
      ErasedOrdered(variables, name);
      variables := Erased(variables, name);
      written := None;
      if active {
        var storage := BroadcastDeletion(VarType, name);
        written := Some(storage);
      }
    }

    method SetUserVariable(name: Bytes, value: Bytes, active: bool) returns (written: Option<Bytes>)
      requires Valid()
      modifies this`userVariables
      ensures Valid()
      ensures userVariables == Assigned(old(userVariables), name, value)
      ensures written == if active then Some([INFO] + ResponseBytes(Response(UserVarType, name, Some(value)))) else None
    {
      AssignedOrdered(userVariables, name, value);
      userVariables := Assigned(userVariables, name, value);
      written := None;
      if active {
        var storage := BroadcastUpdate(UserVarType, name, value);
        written := Some(storage);
      }
    }

    method DeleteUserVariable(name: Bytes, active: bool) returns (written: Option<Bytes>)
      requires Valid()
      modifies this`userVariables
      ensures Valid()
      ensures userVariables == Erased(old(userVariables), name)
      ensures written == if active then Some([INFO] + ResponseBytes(Response(UserVarType, name, None))) else None
    {
      ErasedOrdered(userVariables, name);
      userVariables := Erased(userVariables, name);
      written := None;
      if active {
        var storage := BroadcastDeletion(UserVarType, name);
        written := Some(storage);
      }
    }

    /** `handle_subnegotiation`: the reply written, which always starts with IS. */
    method HandleSubnegotiation(data: Bytes) returns (response: Bytes)
      ensures response == Reply(variables, userVariables, data)
    {
      if |data| == 1 {
        response := ListEverything(variables, userVariables);
      } else {
        var reqs := ForEachRequest(data);
        response := AppendFound([IS], variables, userVariables, reqs);
      }
    }

    static method ListEverything(vars: seq<Entry>, users: seq<Entry>) returns (response: Bytes)
      ensures response == [IS] + ResponseList(Listed(VarType, vars) + Listed(UserVarType, users))
    {
        response := AppendListed([IS], VarType, vars);
        response := AppendListed(response, UserVarType, users);
        ResponseListAppend(Listed(VarType, vars), Listed(UserVarType, users));
    }
    /** Every entry of one table, in order, each with its value. */
    static method AppendListed(storage: Bytes, t: VariableType, es: seq<Entry>) returns (r: Bytes)
      ensures r == storage + ResponseList(Listed(t, es))
    {
      r := storage;
      for i := 0 to |es|
        invariant r == storage + ResponseList(Listed(t, es[..i]))
      {
        ListedStep(t, es, i);
        Regrouped(storage, ResponseList(Listed(t, es[..i])), ValuedBytes(t, es[i].name, es[i].value));
        r := AppendValued(r, t, es[i].name, es[i].value);
      }
      assert es[..|es|] == es;
    }

    /** Each request whose variable exists, in order, with its value. */
    static method AppendFound(storage: Bytes, vars: seq<Entry>, users: seq<Entry>, reqs: seq<Request>) returns (r: Bytes)
      ensures r == storage + ResponseList(Found(vars, users, reqs))
    {
      r := storage;
      for i := 0 to |reqs|
        invariant r == storage + ResponseList(Found(vars, users, reqs[..i]))
      {
        var req := reqs[i];
        var table := if req.kind == VarType then vars else users;
        var found := Lookup(table, req.name);
        FoundStep(vars, users, reqs, i);
        if found.Some? {
          Regrouped(storage, ResponseList(Found(vars, users, reqs[..i])), ValuedBytes(req.kind, req.name, found.value));
          r := AppendValued(r, req.kind, req.name, found.value);
        }
      }
      assert reqs[..|reqs|] == reqs;
    }
  }

  lemma ListedStep(t: VariableType, es: seq<Entry>, i: nat)
    requires i < |es|
    ensures ResponseList(Listed(t, es[..i + 1])) == ResponseList(Listed(t, es[..i])) + ValuedBytes(t, es[i].name, es[i].value)
  {
    var item := Response(t, es[i].name, Some(es[i].value));
    assert es[..i + 1][..i] == es[..i];
    assert Listed(t, es[..i + 1]) == Listed(t, es[..i]) + [item];
    ResponseListAppend(Listed(t, es[..i]), [item]);
    ResponseListOne(item);
  }

  lemma FoundStep(vars: seq<Entry>, users: seq<Entry>, reqs: seq<Request>, i: nat)
    requires i < |reqs|
    ensures var q := reqs[i];
            match Lookup(TableFor(q.kind, vars, users), q.name)
            case Some(v) => ResponseList(Found(vars, users, reqs[..i + 1])) == ResponseList(Found(vars, users, reqs[..i])) + ValuedBytes(q.kind, q.name, v)
            case None => ResponseList(Found(vars, users, reqs[..i + 1])) == ResponseList(Found(vars, users, reqs[..i]))
  {
    var q := reqs[i];
    assert reqs[..i + 1][..i] == reqs[..i];
    match Lookup(TableFor(q.kind, vars, users), q.name) {
      case Some(v) =>
        var item := Response(q.kind, q.name, Some(v));
        assert Found(vars, users, reqs[..i + 1]) == Found(vars, users, reqs[..i]) + [item];
        ResponseListAppend(Found(vars, users, reqs[..i]), [item]);
        ResponseListOne(item);
      case None =>
    }
  }

  lemma ResponseListAppend(a: seq<Response>, b: seq<Response>)
    ensures ResponseList(a + b) == ResponseList(a) + ResponseList(b)
  {
    assert Chunks(a + b) == Chunks(a) + Chunks(b);
    ConcatAppend(Chunks(a), Chunks(b));
  }

  lemma ResponseListOne(r: Response)
    ensures ResponseList([r]) == ResponseBytes(r)
  {
    assert Chunks([r]) == [ResponseBytes(r)];
    assert Concat([ResponseBytes(r)]) == Concat([]) + ResponseBytes(r);
  }

  // ------------------------------------------------------------------------
  // What the server sends is what a client's response parser reads back.

  lemma ResponseBytesSplit(r: Response)
    ensures ResponseBytes(r) == [TypeToByte(r.kind)] + BodyBytes(r)
  {
    match r.value {
      case Some(v) =>
        assert ResponseBytes(r) == [TypeToByte(r.kind)] + Escaped(r.name) + [VALUE] + Escaped(v);
      case None =>
    }
  }

  /** One more variable after a settled one: the settled one is emitted, the new one is open. */
  lemma ListStep(before: Bytes, emitted: seq<Response>, prev: Response, r: Response)
    requires ResponseRun(ResponseParsing(AtKind, Response(VarType, [], None)), before) == ResponsesRead(Settled(prev), emitted)
    ensures ResponseRun(ResponseParsing(AtKind, Response(VarType, [], None)), before + ResponseBytes(r))
            == ResponsesRead(Settled(r), emitted + [prev])
  {
    var lead := ResponseParsing(AtKind, Response(VarType, [], None));
    var marker := [TypeToByte(r.kind)];
    ResponseBytesSplit(r);
    BodyRun(r);
    NextKind(prev, r.kind);
    ResponseRunAppend(Settled(prev), marker, BodyBytes(r));
    ResponseRunAppend(lead, before, ResponseBytes(r));
  }

  /** The first variable after the lead byte is open once read. */
  lemma FirstRun(r: Response)
    ensures ResponseRun(ResponseParsing(AtKind, Response(VarType, [], None)), ResponseBytes(r)) == ResponsesRead(Settled(r), [])
  {
    var lead := ResponseParsing(AtKind, Response(VarType, [], None));
    ResponseBytesSplit(r);
    BodyRun(r);
    FirstKind(r.kind);
    ResponseRunAppend(lead, [TypeToByte(r.kind)], BodyBytes(r));
  }

  /** A list of variables read after the lead byte: all but the last are emitted, the last is open. */
  lemma {:induction false} ListRun(init: seq<Response>, last: Response)
    ensures ResponseRun(ResponseParsing(AtKind, Response(VarType, [], None)), ResponseList(init + [last]))
            == ResponsesRead(Settled(last), init)
    decreases |init|
  {
    ResponseListAppend(init, [last]);
    ResponseListOne(last);
    if |init| == 0 {
      assert ResponseList(init) == [] by {
        assert Chunks(init) == [];
      }
      assert ResponseList(init + [last]) == ResponseBytes(last);
      FirstRun(last);
    } else {
      var front := init[..|init| - 1];
      var prev := init[|init| - 1];
      assert front + [prev] == init;
      ListRun(front, prev);
      ListStep(ResponseList(init), front, prev, last);
    }
  }

  /**
   * Whatever the lead byte, a list of variables whose last one is named is
   * read back exactly, values and absent values included.
   */
  lemma ResponseRoundTrip(lead: byte, rs: seq<Response>)
    requires |rs| > 0 ==> |rs[|rs| - 1].name| > 0
    ensures Responses([lead] + ResponseList(rs)) == rs
  {
    if |rs| > 0 {
      var init := rs[..|rs| - 1];
      var last := rs[|rs| - 1];
      assert init + [last] == rs;
      ListRun(init, last);
      SettledRead(lead, ResponseList(rs), init, last);
    } else {
      assert Chunks(rs) == [];
      assert ResponseList(rs) == [];
      LeadSkipped(lead, []);
      assert [lead] + [] == [lead];
    }
  }

  /** A body that leaves a named variable open after some others is read as those, then it. */
  lemma SettledRead(lead: byte, body: Bytes, init: seq<Response>, last: Response)
    requires |last.name| > 0
    requires ResponseRun(ResponseParsing(AtKind, Response(VarType, [], None)), body) == ResponsesRead(Settled(last), init)
    ensures Responses([lead] + body) == init + [last]
  {
    LeadSkipped(lead, body);
  }

  /** A broadcast update or deletion is read as that one variable, with or without its value. */
  lemma BroadcastsReadBack(t: VariableType, name: Bytes, value: Bytes)
    requires |name| > 0
    ensures Responses([INFO] + ResponseBytes(Response(t, name, Some(value)))) == [Response(t, name, Some(value))]
    ensures Responses([INFO] + ResponseBytes(Response(t, name, None))) == [Response(t, name, None)]
  {
    ResponseListOne(Response(t, name, Some(value)));
    ResponseListOne(Response(t, name, None));
    ResponseRoundTrip(INFO, [Response(t, name, Some(value))]);
    ResponseRoundTrip(INFO, [Response(t, name, None)]);
  }

  /**
   * A bare SEND is answered with every variable and then every user
   * variable, each with its value, in the tables' order.
   */
  lemma BareSendListsEverything(vars: seq<Entry>, users: seq<Entry>, send: byte)
    requires forall i :: 0 <= i < |vars| ==> |vars[i].name| > 0
    requires forall i :: 0 <= i < |users| ==> |users[i].name| > 0
    ensures Responses(Reply(vars, users, [send])) == Listed(VarType, vars) + Listed(UserVarType, users)
  {
    ResponseRoundTrip(IS, Listed(VarType, vars) + Listed(UserVarType, users));
  }

  /**
   * Any other request is answered with exactly the requested variables that
   * exist, in the order requested; the answer starts with IS even when none
   * does.
   */
  lemma RequestsAnsweredInOrder(vars: seq<Entry>, users: seq<Entry>, data: Bytes)
    requires |data| != 1
    requires forall i :: 0 <= i < |vars| ==> |vars[i].name| > 0
    requires forall i :: 0 <= i < |users| ==> |users[i].name| > 0
    ensures Reply(vars, users, data)[0] == IS
    ensures Responses(Reply(vars, users, data)) == Found(vars, users, Requests(data))
  {
    var found := Found(vars, users, Requests(data));
    if |found| > 0 {
      FoundStored(vars, users, Requests(data));
      var last := found[|found| - 1];
      var table := TableFor(last.kind, vars, users);
      NamedIfFound(table, last.name);
    }
    ResponseRoundTrip(IS, found);
  }

  /** Each variable has a value, the one stored under its name in the table of its type. */
  predicate AllStored(vars: seq<Entry>, users: seq<Entry>, rs: seq<Response>)
  {
    forall i :: 0 <= i < |rs| ==> rs[i].value.Some? && Lookup(TableFor(rs[i].kind, vars, users), rs[i].name) == rs[i].value
  }

  /** Every variable found is stored, under its name, in the table of its type. */
  lemma {:induction false} FoundStored(vars: seq<Entry>, users: seq<Entry>, reqs: seq<Request>)
    ensures AllStored(vars, users, Found(vars, users, reqs))
    decreases |reqs|
  {
    if |reqs| > 0 {
      var q := reqs[|reqs| - 1];
      var init := Found(vars, users, reqs[..|reqs| - 1]);
      FoundStored(vars, users, reqs[..|reqs| - 1]);
      match Lookup(TableFor(q.kind, vars, users), q.name) {
        case Some(v) =>
          var r := init + [Response(q.kind, q.name, Some(v))];
          assert Found(vars, users, reqs) == r;
          forall i | 0 <= i < |r|
            ensures r[i].value.Some? && Lookup(TableFor(r[i].kind, vars, users), r[i].name) == r[i].value
          {
            if i < |init| {
              assert r[i] == init[i];
            }
          }
        case None =>
      }
    }
  }

  /** Only names that are in a table can be found in it. */
  lemma {:induction false} NamedIfFound(es: seq<Entry>, name: Bytes)
    requires forall i :: 0 <= i < |es| ==> |es[i].name| > 0
    requires Lookup(es, name).Some?
    ensures |name| > 0
    decreases |es|
  {
    if es[0].name != name {
      NamedIfFound(es[1..], name);
    }
  }

  /** A variable set is then reported with its value, and a deleted one no longer at all. */
  lemma SetThenDeleted(vars: seq<Entry>, users: seq<Entry>, name: Bytes, value: Bytes)
    requires Ordered(vars)
    ensures Found(Assigned(vars, name, value), users, [Request(VarType, name)]) == [Response(VarType, name, Some(value))]
    ensures Found(Erased(vars, name), users, [Request(VarType, name)]) == []
  {
    AssignedLookup(vars, name, value, name);
    ErasedLookup(vars, name, name);
    assert [Request(VarType, name)][..0] == [];
  }
}
