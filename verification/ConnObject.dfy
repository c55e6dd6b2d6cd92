/**
 The connection object: its tables are fields its methods update in place, and every method is
 proved to do to them exactly what the function of the same name in `ConnTables` says.  `sent` is
 what it handed to the transport.
 */
module ConnObject {
  import opened Options
  import opened IdTables
  import opened RpcMessages
  import T = ConnTables
  import L = ConnLaws

  /** Where an incoming call goes. */
  datatype Route = Nowhere | ToClient(obj: nat) | ToResult(q: nat) | ToQueue(q: nat)

  /** What becomes of a call, check by check. */
  lemma HandleCallIs(c: T.Conn, m: Message, lookup: T.Lookup)
    requires m.Call?
    ensures var (c', out) := T.HandleCall(c, m, lookup);
      match T.Populate(c, m.caps)
      case None => c'.aborted
      case Some(c1) =>
        if m.q in c.answers then c'.aborted
        else if lookup.Unknown? then c' == c1 && out == [Return(m.q, m.serial, true, Exception)]
        else
          var routed := match m.target
            case ImportedCap(id, obj) => c.exports.Find(id).Some?
            case PromisedAnswer(q, serial) => q != m.q && q in c.answers;
          if routed then c' == T.InsertAnswer(c1, m.q, m.serial) && out == [] else c'.aborted
  {
    hide T.Populate;
  }

  /** Taking in one descriptor more. */
  lemma {:induction false} PopulateSnoc(c: T.Conn, descs: seq<Desc>, d: Desc)
    ensures T.Populate(c, descs + [d]) ==
      match T.Populate(c, descs)
      case None => None
      case Some(c') => T.Populate(c', [d])
    decreases |descs|
  {
    if descs == [] {
      assert descs + [d] == [d];
    } else {
      assert (descs + [d])[1..] == descs[1..] + [d];
      match descs[0] {
        case SenderHosted(id, obj) =>
          PopulateSnoc(c.(imports := T.AddImport(c.imports, id, obj, false)), descs[1..], d);
        case SenderPromise(id, obj) =>
          PopulateSnoc(c.(imports := T.AddImport(c.imports, id, obj, true)), descs[1..], d);
        case _ => PopulateSnoc(c, descs[1..], d);
      }
    }
  }

  /** Taking in the descriptors stops at the `k`-th, with those before it taken in. */
  ghost predicate StopsAt(c: T.Conn, c': T.Conn, descs: seq<Desc>, k: nat)
    requires k < |descs|
  {
    T.Populate(c, descs[..k]) == Some(c') && T.Populate(c', [descs[k]]).None?
  }

  class Conn {
    const questionID: IDGen
    var questions: seq<Option<T.Question>>
    var answers: map<nat, T.Answer>
    const exportID: IDGen
    var exports: seq<Option<T.Export>>
    var imports: map<nat, T.Import>
    var main: Option<nat>
    var closed: bool
    var sent: seq<Message>
    var serial: nat
    ghost var pins: multiset<nat>

    ghost function State(): T.Conn
      reads this, questionID, exportID
    {
      T.Conn(IdTable(questions, questionID.i, questionID.free), answers,
             IdTable(exports, exportID.i, exportID.free), imports, main, closed, serial, pins)
    }

    /** Both id tables are as their generators say. */
    ghost predicate Valid()
      reads this, questionID, exportID
    {
      questionID != exportID && State().questions.Valid() && State().exports.Valid()
    }

    constructor ()
      ensures Valid() && State() == T.NewConn() && sent == []
      ensures fresh(questionID) && fresh(exportID)
    {
      questionID := new IDGen();
      exportID := new IDGen();
      questions, answers, exports, imports := [], map[], [], map[];
      main, closed, sent, serial, pins := None, false, [], 0, multiset{};
    }

    method SendMessage(m: Message)
      modifies this`sent
      ensures sent == old(sent) + [m]
    {
      sent := sent + [m];
    }

    method Shutdown()
      modifies this`closed
      ensures closed
    {
      closed := true;
    }

    method AbortForProtocolError()
      requires Valid()
      modifies this`sent, this`closed
      ensures Valid()
      ensures (State(), sent) == (T.AbortConn(old(State())).0, old(sent) + T.AbortConn(old(State())).1)
    {
      SendMessage(Abort);
      Shutdown();
    }

    // -------------------------------------------------------------------------------------------
    // Exports

    method AddExport(client: nat, norm: T.Norm) returns (id: nat)
      requires Valid()
      modifies this`exports, exportID
      ensures Valid()
      ensures id == T.AddExportId(old(State().exports), client, norm)
      ensures State() == old(State()).(exports := T.AddExport(old(State().exports), client, norm))
    {
      var i := FindSameClient(client, norm);
      if i < |exports| {
        BumpWireRefs(i);
        return i;
      }
      id := NewExport(client);
    }

    method FindSameClient(client: nat, norm: T.Norm) returns (i: nat)
      ensures i == T.SameClientFrom(exports, client, norm, 0)
    {
      i := 0;
      while i < |exports|
        invariant i <= |exports|
        invariant T.SameClientFrom(exports, client, norm, 0) == T.SameClientFrom(exports, client, norm, i)
      {
        if exports[i].Some? && norm(exports[i].value.obj) == norm(client) {
          return;
        }
        i := i + 1;
      }
    }

    method BumpWireRefs(id: nat)
      requires Valid() && id < |exports| && exports[id].Some?
      modifies this`exports
      ensures Valid()
      ensures State() == old(State()).(exports := old(State().exports).Update(id,
        old(exports)[id].value.(wireRefs := old(exports)[id].value.wireRefs + 1)))
    {
      var e := exports[id].value;
      UpdateKeepsIds(State().exports, id, e.(wireRefs := e.wireRefs + 1));
      exports := exports[id := Some(e.(wireRefs := e.wireRefs + 1))];
    }

    method NewExport(client: nat) returns (id: nat)
      requires Valid()
      modifies this`exports, exportID
      ensures Valid()
      ensures id == old(State().exports.NextId())
      ensures State() == old(State()).(exports := old(State().exports).Alloc(T.Export(client, 1)))
    {
      var entry := T.Export(client, 1);
      AllocFits(State().exports, entry);
      ghost var table := State().exports.Alloc(entry);
      id := exportID.Next();
      exports := if id == |exports| then exports + [Some(entry)] else exports[id := Some(entry)];
      assert State().exports == table;
    }

    method ReleaseExport(id: nat, refs: nat)
      requires Valid()
      modifies this`exports, exportID
      ensures Valid()
      ensures State() == old(State()).(exports := T.ReleaseExport(old(State().exports), id, refs))
    {
      if id >= |exports| || exports[id].None? || refs == 0 {
        return;
      }
      var e := exports[id].value;
      var releaseCount := if refs < e.wireRefs then refs else e.wireRefs;
      var left := e.wireRefs - releaseCount;
      if left > 0 {
        UpdateKeepsIds(State().exports, id, e.(wireRefs := left));
        exports := exports[id := Some(e.(wireRefs := left))];
        return;
      }
      DropRecycles(State().exports, id);
      exports := exports[id := None];
      exportID.Remove(id);
    }

    /** initMain. */
    method InitMain(client: nat, norm: T.Norm)
      requires Valid()
      modifies this`exports, this`main, this`pins, exportID
      ensures Valid() && State() == T.InitMain(old(State()), client, norm)
    {
      main := Some(client);
      var id := AddExport(client, norm);
      pins := pins + multiset{id};
    }

    // -------------------------------------------------------------------------------------------
    // Imports

    method AddImport(id: nat, obj: nat, isPromise: bool)
      requires Valid()
      modifies this`imports
      ensures Valid()
      ensures State() == old(State()).(imports := T.AddImport(old(imports), id, obj, isPromise))
    {
      if id in imports {
        var e := imports[id];
        imports := imports[id := T.Import(e.obj, e.refs + 1, e.live + 1, e.isPromise || isPromise)];
      } else {
        imports := imports[id := T.Import(obj, 1, 1, isPromise)];
      }
    }

    method ReleaseImport(id: nat, refs: nat)
      requires Valid()
      modifies this`imports, this`sent
      ensures Valid()
      ensures (State(), sent) ==
        (T.ReleaseImport(old(State()), id, refs).0, old(sent) + T.ReleaseImport(old(State()), id, refs).1)
    {
      assert sent + [] == sent;
      if id !in imports || refs == 0 {
        return;
      }
      var e := imports[id];
      var releaseCount := if refs < e.refs then refs else e.refs;
      if e.refs - releaseCount > 0 {
        imports := imports[id := e.(refs := e.refs - releaseCount)];
        return;
      }
      imports := imports - {id};
      if releaseCount > 0 {
        SendMessage(Release(id, releaseCount));
      }
    }

    /** Closing one local reference of an import; the last one closes the import client. */
    method DropRef(id: nat)
      requires Valid()
      modifies this`imports, this`sent
      ensures Valid()
      ensures (State(), sent) == (T.DropRef(old(State()), id).0, old(sent) + T.DropRef(old(State()), id).1)
    {
      assert sent + [] == sent;
      if id !in imports || imports[id].live == 0 {
        return;
      }
      var e := imports[id];
      imports := imports[id := e.(live := e.live - 1)];
      if e.live == 1 {
        ReleaseImport(id, e.refs);
      }
    }

    /** False: a descriptor names something this vat does not have; those before it were taken in. */
    method PopulateMessageCapTable(descs: seq<Desc>) returns (ok: bool)
      requires Valid()
      modifies this`imports
      ensures Valid()
      ensures match T.Populate(old(State()), descs)
        case None => !ok && State() == old(State()).(imports := imports)
        case Some(c) => ok && State() == c
      ensures !ok ==> exists k :: 0 <= k < |descs| && StopsAt(old(State()), State(), descs, k)
    {
      var i := 0;
      assert descs[..0] == [];
      assert descs[0..] == descs;
      while i < |descs|
        invariant i <= |descs| && Valid()
        invariant State() == old(State()).(imports := imports)
        invariant T.Populate(old(State()), descs) == T.Populate(State(), descs[i..])
        invariant T.Populate(old(State()), descs[..i]) == Some(State())
      {
        assert descs[i..][1..] == descs[i + 1..];
        assert descs[..i + 1] == descs[..i] + [descs[i]] && [descs[i]][1..] == [];
        PopulateSnoc(old(State()), descs[..i], descs[i]);
        match descs[i] {
          case NoCap =>
          case SenderHosted(id, obj) => AddImport(id, obj, false);
          case SenderPromise(id, obj) => AddImport(id, obj, true);
          case ReceiverHosted(id, obj) =>
            if id >= |exports| || exports[id].None? {
              assert StopsAt(old(State()), State(), descs, i);
              return false;
            }
          case ReceiverAnswer(q, s) =>
            if q !in answers {
              assert StopsAt(old(State()), State(), descs, i);
              return false;
            }
        }
        i := i + 1;
      }
      ok := true;
    }

    // -------------------------------------------------------------------------------------------
    // Questions and answers

    method NewQuestion() returns (q: nat, s: nat)
      requires Valid()
      modifies this`questions, this`serial, questionID
      ensures Valid()
      ensures q == old(State().questions.NextId()) && s == old(serial)
      ensures State() == old(State()).(questions := old(State().questions).Alloc(T.Question(s, [])), serial := s + 1)
    {
      s := serial;
      var entry := T.Question(s, []);
      AllocFits(State().questions, entry);
      ghost var table := State().questions.Alloc(entry);
      q := questionID.Next();
      questions := if q == |questions| then questions + [Some(entry)] else questions[q := Some(entry)];
      serial := serial + 1;
      assert State().questions == table;
    }

    method PopQuestion(id: nat) returns (q: Option<T.Question>)
      requires Valid()
      modifies this`questions, questionID
      ensures Valid()
      ensures q == old(State().questions.Find(id))
      ensures State() == if q.None? then old(State()) else old(State()).(questions := old(State().questions).Drop(id))
    {
      q := if id < |questions| then questions[id] else None;
      if q.None? {
        return;
      }
      DropRecycles(State().questions, id);
      questions := questions[id := None];
      questionID.Remove(id);
    }

    method InsertAnswer(id: nat, s: nat) returns (ok: bool)
      requires Valid()
      modifies this`answers
      ensures Valid()
      ensures ok == (id !in old(answers))
      ensures State() == if ok then T.InsertAnswer(old(State()), id, s) else old(State())
    {
      if id in answers {
        return false;
      }
      answers := answers[id := T.Answer(s, false, [])];
      ok := true;
    }

    method PopAnswer(id: nat) returns (a: Option<T.Answer>)
      requires Valid()
      modifies this`answers
      ensures Valid()
      ensures a == if id in old(answers) then Some(old(answers)[id]) else None
      ensures State() == old(State()).(answers := old(answers) - {id})
    {
      a := if id in answers then Some(answers[id]) else None;
      answers := answers - {id};
    }

    // -------------------------------------------------------------------------------------------
    // Sending

    method DescriptorForClient(arg: T.CapArg, norm: T.Norm) returns (desc: Desc)
      requires Valid() && T.CanDescribe(State(), arg)
      modifies this`exports, exportID
      ensures Valid()
      ensures (State(), desc) == T.Describe(old(State()), arg, norm)
    {
      match arg {
        case NullCap => desc := NoCap;
        case Hosted(obj) =>
          var id := AddExport(obj, norm);
          AddExportIsThere(old(State().exports), obj, norm);
          desc := SenderHosted(id, exports[id].value.obj);
        case NewPromise(obj) =>
          var id := AddExport(obj, norm);
          AddExportIsThere(old(State().exports), obj, norm);
          desc := SenderPromise(id, exports[id].value.obj);
        case SamePromise(id) =>
          BumpWireRefs(id);
          desc := SenderPromise(id, exports[id].value.obj);
        case Imported(id) => desc := ReceiverHosted(id, imports[id].obj);
        case Pipelined(q) => desc := ReceiverAnswer(q, questions[q].value.serial);
      }
    }

    lemma AddExportIsThere(t: IdTable<T.Export>, obj: nat, norm: T.Norm)
      requires t.Valid()
      ensures T.AddExport(t, obj, norm).Find(T.AddExportId(t, obj, norm)).Some?
    {
      AllocIsFresh(t, T.Export(obj, 1));
    }

    method MakeCapTable(args: seq<T.CapArg>, norm: T.Norm) returns (descs: seq<Desc>)
      requires Valid() && forall arg :: arg in args ==> T.CanDescribe(State(), arg)
      modifies this`exports, exportID
      ensures Valid()
      ensures (State(), descs) == T.DescribeAll(old(State()), args, norm)
      ensures L.DescribesAll(old(State()), State(), args, descs, norm)
    {
      descs := [];
      var i := 0;
      hide L.DescribesAll;
      ghost var before := State();
      ghost var all := T.DescribeAll(State(), args, norm);
      assert args[0..] == args && [] + all.1 == all.1;
      while i < |args|
        invariant i <= |args| && Valid()
        invariant forall k :: i <= k < |args| ==> T.CanDescribe(State(), args[k])
        invariant State() == old(State()).(exports := State().exports)
        invariant all == (T.DescribeAll(State(), args[i..], norm).0, descs + T.DescribeAll(State(), args[i..], norm).1)
      {
        ghost var rest := T.DescribeAll(State(), args[i..], norm).1;
        assert args[i..][1..] == args[i + 1..];
        DescribeKeepsTargets(State(), args[i], norm);
        var desc := DescriptorForClient(args[i], norm);
        assert descs + rest == descs + [desc] + rest[1..];
        descs := descs + [desc];
        i := i + 1;
      }
      assert args[i..] == [];
      assert descs + [] == descs;
      L.DescribesEach(before, args, norm);
    }

    /** What can be described stays describable while other clients are. */
    lemma DescribeKeepsTargets(c: T.Conn, arg: T.CapArg, norm: T.Norm)
      requires c.exports.Valid()
      ensures var c' := T.Describe(c, arg, norm).0;
        c' == c.(exports := c'.exports) && forall a :: T.CanDescribe(c, a) ==> T.CanDescribe(c', a)
    {
      if arg.Hosted? || arg.NewPromise? {
        AllocIsFresh(c.exports, T.Export(arg.obj, 1));
      }
    }

    /** A call through an import client or pipelined on a question. */
    method Call(to: T.CallTo, args: seq<T.CapArg>, body: Body, norm: T.Norm)
      requires Valid() && T.CanCall(State(), to)
      requires forall arg :: arg in args ==> T.CanDescribe(State(), arg)
      modifies this`questions, this`serial, this`exports, this`sent, questionID, exportID
      ensures Valid()
      ensures (State(), sent) ==
        (T.SendCall(old(State()), to, args, body, norm).0, old(sent) + T.SendCall(old(State()), to, args, body, norm).1)
    {
      hide T.DescribeAll, T.SendCall;
      ghost var c := State();
      var target := match to
        case ToImport(id) => ImportedCap(id, imports[id].obj)
        case ToAnswer(q) => PromisedAnswer(q, questions[q].value.serial);
      T.SendCallInOrder(c, to, args, body, norm);
      var q, s := NewQuestion();
      var descs := MakeCapTable(args, norm);
      SetParamCaps(c.questions, q, s, T.HostedIds(descs));
      SendMessage(Message.Call(q, s, target, descs, body));
    }

    /** Record on a question just made which exports its parameters carry. */
    method SetParamCaps(ghost before: IdTable<T.Question>, q: nat, s: nat, caps: seq<nat>)
      requires Valid() && before.Valid()
      requires q == before.NextId() && State().questions == before.Alloc(T.Question(s, []))
      modifies this`questions
      ensures Valid() && State() == old(State()).(questions := before.Alloc(T.Question(s, caps)))
    {
      AllocThenUpdate(before, T.Question(s, []), T.Question(s, caps));
      questions := questions[q := Some(T.Question(s, caps))];
    }

    lemma AllocThenUpdate<E>(t: IdTable<E>, v: E, w: E)
      requires t.Valid()
      ensures t.Alloc(v).Update(t.NextId(), w) == t.Alloc(w) && t.Alloc(w).Valid()
    {
      AllocIsFresh(t, v);
      AllocIsFresh(t, w);
    }

    method SendBootstrap()
      requires Valid()
      modifies this`questions, this`serial, this`sent, questionID
      ensures Valid()
      ensures (State(), sent) == (T.SendBootstrap(old(State())).0, old(sent) + T.SendBootstrap(old(State())).1)
    {
      var q, s := NewQuestion();
      SendMessage(Bootstrap(q, s));
    }

    /** AnswerEntry.fulfill and AnswerEntry.reject: a second settlement throws before it sends. */
    method Settle(id: nat, how: T.Settlement, norm: T.Norm)
      requires Valid() && id in answers
      requires how.Fulfill? ==> forall arg :: arg in how.args ==> T.CanDescribe(State(), arg)
      modifies this`answers, this`exports, this`sent, exportID
      ensures Valid()
      ensures (State(), sent) == (T.Settle(old(State()), id, how, norm).0, old(sent) + T.Settle(old(State()), id, how, norm).1)
    {
      assert sent + [] == sent;
      var a := answers[id];
      if a.done {
        return;
      }
      match how {
        case Fulfill(args) =>
          var descs := MakeCapTable(args, norm);
          answers := answers[id := T.Answer(a.serial, true, T.HostedIds(descs))];
          SendMessage(Return(id, a.serial, false, Results(descs)));
        case Reject =>
          answers := answers[id := a.(done := true)];
          SendMessage(Return(id, a.serial, false, Exception));
      }
    }

    method ResolveExportPromise(promiseId: nat, cap: Option<T.CapArg>, norm: T.Norm)
      requires Valid() && (cap.Some? ==> T.CanDescribe(State(), cap.value))
      modifies this`exports, this`sent, exportID
      ensures Valid()
      ensures (State(), sent) ==
        (T.SendResolve(old(State()), promiseId, cap, norm).0, old(sent) + T.SendResolve(old(State()), promiseId, cap, norm).1)
    {
      if cap.Some? {
        var desc := DescriptorForClient(cap.value, norm);
        SendMessage(Resolve(promiseId, ToCap(desc)));
      } else {
        SendMessage(Resolve(promiseId, ToException));
      }
    }

    // -------------------------------------------------------------------------------------------
    // Message handlers

    method HandleBootstrapMessage(id: nat, s: nat, norm: T.Norm)
      requires Valid()
      modifies this`answers, this`exports, this`sent, exportID
      ensures Valid()
      ensures (State(), sent) ==
        (T.HandleBootstrap(old(State()), id, s, norm).0, old(sent) + T.HandleBootstrap(old(State()), id, s, norm).1)
    {
      var ok := InsertAnswer(id, s);
      if !ok {
        SendMessage(Return(id, s, true, Exception));
      } else if main.None? {
        Settle(id, T.Reject, norm);
      } else {
        Settle(id, T.Fulfill([T.Hosted(main.value)]), norm);
      }
    }

    method HandleFinishMessage(id: nat, releaseResultCaps: bool)
      requires Valid()
      modifies this`answers, this`exports, exportID
      ensures Valid() && State() == T.HandleFinish(old(State()), id, releaseResultCaps)
    {
      assert old(answers) - {id} == if id in answers then answers - {id} else answers;
      var a := PopAnswer(id);
      if a.None? {
        return;
      }
      if releaseResultCaps {
        var caps := a.value.resultCaps;
        var i := |caps|;
        ghost var all := T.ReleaseAll(State().exports, T.Reverse(caps));
        assert caps[..i] == caps;
        while i > 0
          invariant 0 <= i <= |caps| && Valid()
          invariant State() == old(State()).(answers := old(answers) - {id}, exports := State().exports)
          invariant all == T.ReleaseAll(State().exports, T.Reverse(caps[..i]))
        {
          i := i - 1;
          T.ReverseFromLast(caps[..i + 1]);
          assert caps[..i + 1][..i] == caps[..i];
          ReleaseExport(caps[i], 1);
        }
      }
    }

    method HandleReleaseMessage(id: nat, refs: nat)
      requires Valid()
      modifies this`exports, exportID
      ensures Valid() && State() == old(State()).(exports := T.ReleaseExport(old(State().exports), id, refs))
    {
      ReleaseExport(id, refs);
    }

    method HandleCallMessage(m: Message, lookup: T.Lookup)
      requires Valid() && m.Call?
      modifies this`answers, this`imports, this`sent, this`closed
      ensures Valid()
      ensures closed == T.HandleCall(old(State()), m, lookup).0.aborted
      ensures !closed ==> (State(), sent) == (T.HandleCall(old(State()), m, lookup).0, old(sent) + T.HandleCall(old(State()), m, lookup).1)
    {
      HandleCallIs(State(), m, lookup);
      hide T.HandleCall, T.Populate;
      var populated := PopulateMessageCapTable(m.caps);
      if !populated {
        AbortForProtocolError();
      } else {
        AnswerCall(m, lookup);
        assert old(sent) + [] == old(sent);
      }
    }

    /** What happens to a call once its capabilities are taken in. */
    method AnswerCall(m: Message, lookup: T.Lookup)
      requires Valid() && m.Call?
      modifies this`answers, this`sent, this`closed
      ensures Valid()
      ensures
        if m.q in old(answers) then closed
        else if lookup.Unknown? then State() == old(State()) && sent == old(sent) + [Return(m.q, m.serial, true, Exception)]
        else if old(HasRoute(m)) then State() == T.InsertAnswer(old(State()), m.q, m.serial) && sent == old(sent)
        else closed
    {
      var ok := InsertAnswer(m.q, m.serial);
      if !ok {
        AbortForProtocolError();
        return;
      }
      if lookup.Unknown? {
        var _ := PopAnswer(m.q);
        assert answers == old(answers);
        SendMessage(Return(m.q, m.serial, true, Exception));
        return;
      }
      var route := RouteCallMessage(m.q, m.target);
      if route.Nowhere? {
        AbortForProtocolError();
      }
    }

    /** The call's target is there. */
    ghost predicate HasRoute(m: Message)
      requires m.Call?
      reads this, questionID, exportID
    {
      match m.target
      case ImportedCap(id, obj) => State().exports.Find(id).Some?
      case PromisedAnswer(q, serial) => q != m.q && q in answers
    }

    /** To the client of the export, or to the answer, whose queue it joins while that is pending. */
    method RouteCallMessage(id: nat, target: Target) returns (route: Route)
      ensures match target
        case ImportedCap(e, obj) =>
          route == (match State().exports.Find(e) case None => Nowhere case Some(x) => ToClient(x.obj))
        case PromisedAnswer(q, s) =>
          route == if q == id || q !in answers then Nowhere else if answers[q].done then ToResult(q) else ToQueue(q)
    {
      match target {
        case ImportedCap(e, obj) =>
          if e >= |exports| || exports[e].None? {
            return Nowhere;
          }
          route := ToClient(exports[e].value.obj);
        case PromisedAnswer(q, s) =>
          if q == id || q !in answers {
            return Nowhere;
          }
          route := if answers[q].done then ToResult(q) else ToQueue(q);
      }
    }

    method HandleReturnMessage(m: Message)
      requires Valid() && m.Return?
      modifies this`questions, this`exports, this`imports, this`sent, this`closed, questionID, exportID
      ensures Valid()
      ensures closed == T.HandleReturn(old(State()), m).0.aborted
      ensures !closed ==> (State(), sent) == (T.HandleReturn(old(State()), m).0, old(sent) + T.HandleReturn(old(State()), m).1)
    {
      var q := PopQuestion(m.q);
      if q.None? {
        AbortForProtocolError();
        return;
      }
      if m.releaseParamCaps {
        var caps := q.value.paramCaps;
        ghost var all := T.ReleaseAll(State().exports, caps);
        ghost var c1 := State();
        assert caps[0..] == caps;
        for i := 0 to |caps|
          invariant Valid() && State() == c1.(exports := State().exports) && sent == old(sent)
          invariant all == T.ReleaseAll(State().exports, caps[i..])
        {
          assert caps[i..][1..] == caps[i + 1..];
          ReleaseExport(caps[i], 1);
        }
      }
      match m.outcome {
        case Exception => SendMessage(Finish(m.q, true));
        case Results(caps) =>
          var ok := PopulateMessageCapTable(caps);
          if !ok {
            AbortForProtocolError();
            return;
          }
          SendMessage(Finish(m.q, false));
      }
    }

    method DiscardResolvedCap(desc: Desc)
      requires Valid()
      modifies this`sent, this`closed
      ensures Valid()
      ensures (State(), sent) == (T.DiscardResolved(old(State()), desc).0, old(sent) + T.DiscardResolved(old(State()), desc).1)
    {
      assert sent + [] == sent;
      match desc {
        case SenderHosted(id, obj) => SendMessage(Release(id, 1));
        case SenderPromise(id, obj) => SendMessage(Release(id, 1));
        case ReceiverHosted(id, obj) =>
          if id >= |exports| || exports[id].None? {
            AbortForProtocolError();
          }
        case ReceiverAnswer(q, s) =>
          if q !in answers {
            AbortForProtocolError();
          }
        case NoCap => AbortForProtocolError();
      }
    }

    method HandleResolveMessage(m: Message, embargoId: nat)
      requires Valid() && m.Resolve?
      modifies this`imports, this`sent, this`closed
      ensures Valid()
      ensures closed == T.HandleResolve(old(State()), m, embargoId).0.aborted
      ensures !closed ==> (State(), sent) == (T.HandleResolve(old(State()), m, embargoId).0, old(sent) + T.HandleResolve(old(State()), m, embargoId).1)
    {
      assert sent + [] == sent;
      var p := m.promiseId;
      if p !in imports || !imports[p].isPromise {
        if m.resolution.ToCap? {
          DiscardResolvedCap(m.resolution.desc);
        }
        return;
      }
      var e := imports[p];
      imports := imports[p := e.(isPromise := false)];
      if m.resolution.ToException? {
        return;
      }
      var desc := m.resolution.desc;
      if desc.NoCap? {
        AbortForProtocolError();
        return;
      }
      var ok := PopulateMessageCapTable([desc]);
      if !ok {
        AbortForProtocolError();
        return;
      }
      if desc.ReceiverHosted? || desc.ReceiverAnswer? {
        SendMessage(Disembargo(SenderLoopback(embargoId), ImportedCap(p, e.obj)));
      }
    }

    method HandleDisembargoMessage(m: Message)
      requires Valid() && m.Disembargo?
      modifies this`sent
      ensures Valid() && State() == old(State()) && sent == old(sent) + T.HandleDisembargo(m)
    {
      assert sent + [] == sent;
      match m.context {
        case SenderLoopback(id) => SendMessage(Disembargo(ReceiverLoopback(id), m.target));
        case ReceiverLoopback(id) =>
      }
    }
  }
}
