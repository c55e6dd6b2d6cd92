/** Where the code does not keep the promises of the protocol, and exactly when it does. */
module Hazards {

  // A call whose method the receiver does not know is refused after its parameters were taken in, and
  // its Return keeps the default releaseParamCaps (src/rpc/conn.ts:561-577).  A promise export that
  // resolves to a client of its own vat is announced through the slot of the promise itself
  // (src/rpc/conn.ts:1243-1254).

  import opened Options
  import opened IdTables
  import opened RpcMessages
  import opened ConnTables
  import opened TwoVats
  import opened References
  import opened Questions
  import opened TwoVatsSafety

  /** `c` refuses the call at the head of its channel, and `d` handles the Return. */
  function Refused(s: System): System
    requires s.dc != [] && s.dc[0].Call?
  {
    var (c', out) := HandleCall(s.c, s.dc[0], Unknown);
    var s1 := System(c', s.d, s.cd + out, s.dc[1..]);
    if s1.cd == [] || !s1.cd[0].Return? then s1
    else
      var (d', fin) := HandleReturn(s.d, s1.cd[0]);
      System(c', d', s1.cd[1..], s1.dc + fin)
  }

  lemma {:induction false} ReleaseAllCounts(x: Conn, ids: seq<nat>)
    requires ExportsOk(x.exports)
    requires forall id: nat :: multiset(ids)[id] <= Wire(x, id)
    ensures var x' := x.(exports := ReleaseAll(x.exports, ids));
      ExportsOk(x'.exports) && forall id: nat :: Wire(x', id) == Wire(x, id) - multiset(ids)[id]
    decreases |ids|
  {
    if ids != [] {
      assert ids == [ids[0]] + ids[1..];
      assert multiset(ids) == multiset{ids[0]} + multiset(ids[1..]);
      ReleaseCounts(x, ids[0], 1);
      var x1 := x.(exports := ReleaseExport(x.exports, ids[0], 1));
      ReleaseAllCounts(x1, ids[1..]);
      assert x1.(exports := ReleaseAll(x1.exports, ids[1..])).exports == ReleaseAll(x.exports, ids);
    }
  }

  lemma {:induction false} HostedAreGranted(descs: seq<Desc>, id: nat)
    ensures multiset(HostedIds(descs))[id] <= Granted(descs, id)
  {
    if descs != [] {
      HostedAreGranted(descs[1..], id);
      var head := if descs[0].SenderHosted? then [descs[0].id] else [];
      assert multiset(head + HostedIds(descs[1..])) == multiset(head) + multiset(HostedIds(descs[1..]));
    }
  }

  /** An incoming call's id is unused at the receiver and its question is open at the caller. */
  lemma IncomingCall(s: System)
    requires Inv(s) && s.dc != [] && s.dc[0].Call?
    ensures s.dc[0].q !in s.c.answers
    ensures s.d.questions.Find(s.dc[0].q) == Some(Question(s.dc[0].serial, HostedIds(s.dc[0].caps)))
  {
    hide RefLink;
    assert InTurn(s.c, s.dc[..0], s.dc[0]);
  }

  /** `c` refuses the call at the head of its channel. */
  function Refusal(s: System): System
    requires s.dc != [] && s.dc[0].Call?
  {
    var (c', out) := HandleCall(s.c, s.dc[0], Unknown);
    System(c', s.d, s.cd + out, s.dc[1..])
  }

  lemma RefusalTables(s: System)
    requires Inv(s) && s.dc != [] && s.dc[0].Call?
    ensures var s1, m := Refusal(s), s.dc[0];
      && s1.cd == s.cd + [Return(m.q, m.serial, true, Exception)]
      && TookIn(s.c, s1.c, m.caps) && s1.c == s.c.(imports := s1.c.imports) && s1.d == s.d && s1.dc == s.dc[1..]
  {
    hide RefLink, QuestionLink;
    InvTables(s);
    HeadIsResolvable(s);
    IncomingCall(s);
    PopulateTakesIn(s.c, s.dc[0].caps);
  }

  /** Refusing a call does not yet upset the counts, whatever else is in the channels: its Return is
      under way, its question is open, and the receiver holds what the parameters brought. */
  lemma RefusalConserves(s: System)
    requires Inv(s) && s.dc != [] && s.dc[0].Call?
    ensures var s1, m := Refusal(s), s.dc[0];
      && s1.cd == s.cd + [Return(m.q, m.serial, true, Exception)]
      && Conserved(s1.d, s1.c, s1.dc, s1.cd) && Conserved(s1.c, s1.d, s1.cd, s1.dc)
      && ExportsOk(s1.d.exports)
      && s1.d.questions.Find(m.q) == Some(Question(m.serial, HostedIds(m.caps)))
      && forall id: nat :: multiset(HostedIds(m.caps))[id] <= ImportRefs(s1.c, id) <= Wire(s1.d, id)
  {
    hide QuestionLink, RefLink, Refusal, Conserved;
    InvTables(s);
    IncomingCall(s);
    RefusalTables(s);
    LinksConserve(s);
    RefusalCounts(s, Refusal(s));
  }

  lemma LinksConserve(s: System)
    requires Inv(s)
    ensures Conserved(s.d, s.c, s.dc, s.cd) && Conserved(s.c, s.d, s.cd, s.dc)
    ensures ExportsOk(s.d.exports) && ExportsOk(s.c.exports)
  {
    hide QuestionLink;
  }

  lemma RefusalCounts(s: System, s1: System)
    requires s.dc != [] && s.dc[0].Call? && Conserved(s.d, s.c, s.dc, s.cd) && Conserved(s.c, s.d, s.cd, s.dc)
    requires s1.d == s.d && s1.dc == s.dc[1..] && s1.c == s.c.(imports := s1.c.imports) && TookIn(s.c, s1.c, s.dc[0].caps)
    requires s1.cd == s.cd + [Return(s.dc[0].q, s.dc[0].serial, true, Exception)]
    ensures Conserved(s1.d, s1.c, s1.dc, s1.cd) && Conserved(s1.c, s1.d, s1.cd, s1.dc)
    ensures forall id: nat :: multiset(HostedIds(s.dc[0].caps))[id] <= ImportRefs(s1.c, id) <= Wire(s1.d, id)
  {
    hide Wire, ImportRefs, GrantsInFlight, ReleasesInFlight, HostedIds;
    forall id: nat
      ensures Wire(s1.d, id) == s1.d.pins[id] + GrantsInFlight(s1.dc, id) + ImportRefs(s1.c, id) + ReleasesInFlight(s1.cd, id)
      ensures Wire(s1.c, id) == s1.c.pins[id] + GrantsInFlight(s1.cd, id) + ImportRefs(s1.d, id) + ReleasesInFlight(s1.dc, id)
      ensures multiset(HostedIds(s.dc[0].caps))[id] <= ImportRefs(s1.c, id)
    {
      RefusalCount(s.dc, s.cd, id);
      HostedAreGranted(s.dc[0].caps, id);
      SameWire(s.c, s1.c, id);
    }
  }

  lemma SameWire(c: Conn, c': Conn, id: nat)
    requires c'.exports == c.exports
    ensures Wire(c', id) == Wire(c, id)
  {
  }

  /** What a refusal does to the channels. */
  lemma RefusalCount(dc: seq<Message>, cd: seq<Message>, id: nat)
    requires dc != [] && dc[0].Call?
    ensures GrantsInFlight(dc, id) == Granted(dc[0].caps, id) + GrantsInFlight(dc[1..], id)
    ensures ReleasesInFlight(dc, id) == ReleasesInFlight(dc[1..], id)
    ensures var cd' := cd + [Return(dc[0].q, dc[0].serial, true, Exception)];
      GrantsInFlight(cd', id) == GrantsInFlight(cd, id) && ReleasesInFlight(cd', id) == ReleasesInFlight(cd, id)
  {
    var ret := Return(dc[0].q, dc[0].serial, true, Exception);
    ReleasesAppend(cd, [ret], id);
    GrantsAppend(cd, [ret], id);
    OneGrant(ret, id);
  }

  /** From any state in which the counts are conserved: a Return that says its parameters' capabilities
      are released keeps them conserved if and only if there were none. */
  lemma ReturnConservesIff(x: Conn, y: Conn, xy: seq<Message>, yx: seq<Message>)
    requires ExportsOk(x.exports) && Conserved(x, y, xy, yx)
    requires yx != [] && yx[0].Return? && yx[0].releaseParamCaps && yx[0].outcome.Exception?
    requires x.questions.Find(yx[0].q).Some?
    requires forall id: nat :: multiset(x.questions.Find(yx[0].q).value.paramCaps)[id] <= Wire(x, id)
    ensures var (x', out) := HandleReturn(x, yx[0]);
      Conserved(x', y, xy + out, yx[1..]) <==> x.questions.Find(yx[0].q).value.paramCaps == []
  {
    var m := yx[0];
    var ids := x.questions.Find(m.q).value.paramCaps;
    var (x', out) := HandleReturn(x, m);
    RefusedReturn(x, m);
    ReleaseAllCounts(x, ids);
    hide HandleReturn, Wire, ImportRefs, ReleaseAll, GrantsInFlight, ReleasesInFlight;
    forall id: nat
      ensures Wire(x', id) + multiset(ids)[id]
           == x'.pins[id] + GrantsInFlight(xy + out, id) + ImportRefs(y, id) + ReleasesInFlight(yx[1..], id)
    {
      ReturnCount(xy, yx, id);
      SameWire(x.(exports := ReleaseAll(x.exports, ids)), x', id);
    }
    if ids != [] {
      assert ids[0] in multiset(ids);
    }
  }

  lemma RefusedReturn(x: Conn, m: Message)
    requires m.Return? && m.releaseParamCaps && m.outcome.Exception? && x.questions.Find(m.q).Some?
    ensures var (x', out) := HandleReturn(x, m);
      && out == [Finish(m.q, true)] && x'.pins == x.pins
      && x'.exports == ReleaseAll(x.exports, x.questions.Find(m.q).value.paramCaps)
  {
    hide ReleaseAll;
  }

  /** What handling a Return does to the channels. */
  lemma ReturnCount(xy: seq<Message>, yx: seq<Message>, id: nat)
    requires yx != [] && yx[0].Return?
    ensures GrantsInFlight(xy + [Finish(yx[0].q, true)], id) == GrantsInFlight(xy, id)
    ensures ReleasesInFlight(yx[1..], id) == ReleasesInFlight(yx, id)
  {
    GrantsAppend(xy, [Finish(yx[0].q, true)], id);
    OneGrant(Finish(yx[0].q, true), id);
  }

  /** A refused call keeps the reference counts, once its Return has been handled, if and only if its
      parameters carried no capability hosted by the caller.  `t` is any state in which that Return is
      next, whatever went before it. */
  lemma RefusedCallConservesIff(s: System, t: System)
    requires Inv(s) && s.dc != [] && s.dc[0].Call?
    requires t.cd != [] && t.cd[0] == Return(s.dc[0].q, s.dc[0].serial, true, Exception)
    requires t.d.questions.Find(s.dc[0].q) == s.d.questions.Find(s.dc[0].q)
    requires ExportsOk(t.d.exports) && Conserved(t.d, t.c, t.dc, t.cd)
    requires forall id: nat :: multiset(HostedIds(s.dc[0].caps))[id] <= Wire(t.d, id)
    ensures var (d', out) := HandleReturn(t.d, t.cd[0]);
      Conserved(d', t.c, t.dc + out, t.cd[1..]) <==> HostedIds(s.dc[0].caps) == []
  {
    IncomingCall(s);
    hide Inv, HandleReturn, Conserved;
    ReturnConservesIff(t.d, t.c, t.dc, t.cd);
  }

  /** `d` handles the messages ahead. */
  function Receive(s: System, n: nat, norm: Norm): System
    requires n <= |s.cd|
    decreases n
  {
    if n == 0 then s
    else
      var (d, out) := Handle(s.d, s.cd[0], Known, 0, norm);
      Receive(System(s.c, d, s.cd[1..], s.dc + out), n - 1, norm)
  }

  /** `d` has its part of the messages ahead, and `c` its refusal, in either order. */
  lemma {:induction false} RefusalCommutes(s: System, n: nat, norm: Norm)
    requires Inv(s) && s.dc != [] && s.dc[0].Call? && n <= |s.cd|
    ensures var t := Receive(s, n, norm);
      && Inv(t) && t.dc != [] && t.dc[0] == s.dc[0] && |t.cd| == |s.cd| - n
      && n <= |Refusal(s).cd| && Receive(Refusal(s), n, norm) == Refusal(t)
    decreases n
  {
    hide Inv, Handle, HandleCall;
    if n > 0 {
      var (d, out) := Handle(s.d, s.cd[0], Known, 0, norm);
      var s1 := System(s.c, d, s.cd[1..], s.dc + out);
      var a := DoReceive(0);
      assert Enabled(Swap(s), a) && Swap(s1) == Act(Swap(s), a, norm);
      assert StepOfC(Swap(s), Swap(s1));
      NextKeepsInv(s, s1);
      RefusalCommutes(s1, n - 1, norm);
      var refusal := HandleCall(s.c, s.dc[0], Unknown).1;
      assert (s.cd + refusal)[1..] == s.cd[1..] + refusal;
      assert (s.dc + out)[1..] == s.dc[1..] + out;
    }
  }

  /** So when the caller has handled what was ahead of it and then the Return of a refused call, the
      counts are conserved if and only if the parameters carried no capability hosted by it. */
  lemma RefusedCallInTurn(s: System, norm: Norm)
    requires Inv(s) && s.dc != [] && s.dc[0].Call?
    ensures |s.cd| <= |Refusal(s).cd|
    ensures var t := Receive(Refusal(s), |s.cd|, norm);
      && t.cd == [Return(s.dc[0].q, s.dc[0].serial, true, Exception)]
      && var (d', out) := HandleReturn(t.d, t.cd[0]);
      Conserved(d', t.c, t.dc + out, t.cd[1..]) <==> HostedIds(s.dc[0].caps) == []
  {
    hide Inv, Handle, HandleCall, HandleReturn, Conserved;
    RefusalCommutes(s, |s.cd|, norm);
    var s0 := Receive(s, |s.cd|, norm);
    RefusalConserves(s0);
    IncomingCall(s0);
    RefusedCallConservesIff(s0, Refusal(s0));
  }

  // ---------------------------------------------------------------------------------------------
  // Calls pipelined on a refused one

  /** A message that arrives, and what the registry says if it is a call. */
  datatype Arrival = Arrival(m: Message, lookup: Lookup, embargoId: nat)

  /** Handle messages one after another. */
  function HandleAll(c: Conn, arrivals: seq<Arrival>, norm: Norm): Conn
    decreases |arrivals|
  {
    if arrivals == [] then c
    else HandleAll(Handle(c, arrivals[0].m, arrivals[0].lookup, arrivals[0].embargoId, norm).0, arrivals[1..], norm)
  }

  /** An answer that is gone stays gone until a question with its id is asked. */
  lemma {:induction false} GoneStaysGone(c: Conn, arrivals: seq<Arrival>, norm: Norm, q: nat)
    requires q !in c.answers && forall a :: a in arrivals ==> !(Opens(a.m) && a.m.q == q)
    ensures q !in HandleAll(c, arrivals, norm).answers
    decreases |arrivals|
  {
    if arrivals != [] {
      var a := arrivals[0];
      assert a in arrivals;
      GoneAfterOne(c, a, norm, q);
      hide Handle;
      GoneStaysGone(Handle(c, a.m, a.lookup, a.embargoId, norm).0, arrivals[1..], norm, q);
    }
  }

  lemma GoneAfterOne(c: Conn, a: Arrival, norm: Norm, q: nat)
    requires q !in c.answers && !(Opens(a.m) && a.m.q == q)
    ensures q !in Handle(c, a.m, a.lookup, a.embargoId, norm).0.answers
  {
    match a.m
    case Bootstrap(id, serial) =>
      if c.main.Some? {
        DescribeKeepsRest(InsertAnswer(c, id, serial), [Hosted(c.main.value)], norm);
      }
    case Call(_, _, _, caps, _) => PopulateKeepsAnswers(c, caps);
    case Return(_, _, _, outcome) => GoneAfterReturn(c, a.m, q);
    case Resolve(p, resolution) => GoneAfterResolve(c, a.m, a.embargoId, q);
    case _ =>
  }

  lemma GoneAfterReturn(c: Conn, m: Message, q: nat)
    requires q !in c.answers && m.Return?
    ensures q !in HandleReturn(c, m).0.answers
  {
    if c.questions.Find(m.q).Some? && m.outcome.Results? {
      var c1 := c.(questions := c.questions.Drop(m.q));
      var c2 := if m.releaseParamCaps
                then c1.(exports := ReleaseAll(c1.exports, c.questions.Find(m.q).value.paramCaps)) else c1;
      PopulateKeepsAnswers(c2, m.outcome.caps);
    }
  }

  lemma GoneAfterResolve(c: Conn, m: Message, e: nat, q: nat)
    requires q !in c.answers && m.Resolve?
    ensures q !in HandleResolve(c, m, e).0.answers
  {
    var p := m.promiseId;
    if p in c.imports && m.resolution.ToCap? {
      PopulateKeepsAnswers(c.(imports := c.imports[p := c.imports[p].(isPromise := false)]), [m.resolution.desc]);
    }
  }

  /** A call pipelined on a refused one arrives at an answer entry that is gone, whatever arrives in
      between, unless a new question has taken the id: the connection aborts. */
  lemma PipelinedOnRefusedAborts(s: System, arrivals: seq<Arrival>, norm: Norm, m: Message)
    requires Inv(s) && s.dc != [] && s.dc[0].Call?
    requires forall a :: a in arrivals ==> !(Opens(a.m) && a.m.q == s.dc[0].q)
    requires m.Call? && m.target.PromisedAnswer? && m.target.q == s.dc[0].q
    ensures HandleCall(HandleAll(Refusal(s).c, arrivals, norm), m, Known).0.aborted
  {
    hide RefLink, QuestionLink;
    IncomingCall(s);
    RefusalTables(s);
    GoneStaysGone(Refusal(s).c, arrivals, norm, s.dc[0].q);
    PopulateKeepsAnswers(HandleAll(Refusal(s).c, arrivals, norm), m.caps);
  }

  lemma {:induction false} PopulateKeepsAnswers(c: Conn, descs: seq<Desc>)
    ensures Populate(c, descs).Some? ==> Populate(c, descs).value.answers == c.answers
    decreases |descs|
  {
    if descs != [] {
      PopulateKeepsAnswers(TakeOne(c, descs[0]), descs[1..]);
    }
  }

  // ---------------------------------------------------------------------------------------------
  // A run in which a refused call frees an export its importer still holds

  function Identity(): Norm {
    (n: nat) => n
  }

  /** The reachable state before the refusal. */
  function BeforeRefusal(): System {
    System(
      Conn(Empty(), map[], IdTable([Some(Export(5, 2))], 1, []), map[], Some(5), false, 0, multiset{0}),
      Conn(IdTable([Some(Question(1, [0]))], 1, []), map[], IdTable([Some(Export(9, 1))], 1, []),
           map[0 := Import(5, 1, 1, false)], None, false, 2, multiset{}),
      [],
      [Call(0, 1, ImportedCap(0, 5), [SenderHosted(0, 9)], Body(0, 0))])
  }

  function Serving(): Conn {
    NewConn().(exports := IdTable([Some(Export(5, 1))], 1, []), main := Some(5), pins := multiset{0})
  }

  function Served(): Conn {
    Serving().(exports := IdTable([Some(Export(5, 2))], 1, []), answers := map[0 := Answer(0, true, [0])])
  }

  lemma MainIsServed(norm: Norm)
    ensures HandleBootstrap(Serving(), 0, 0, norm) == (Served(), [Return(0, 0, false, Results([SenderHosted(0, 5)]))])
  {
    var c := InsertAnswer(Serving(), 0, 0);
    var c' := c.(exports := Served().exports);
    var args, desc := [Hosted(5)], SenderHosted(0, 5);
    assert SameClientFrom(c.exports.slots, 5, norm, 0) == 0;
    assert AddExport(c.exports, 5, norm) == c'.exports;
    assert Describe(c, args[0], norm) == (c', desc);
    assert DescribeAll(c', args[1..], norm) == (c', []);
    assert DescribeAll(c, args, norm) == (c', [desc] + []) && [desc] + [] == [desc];
    assert [desc][1..] == [] && HostedIds([desc]) == [0];
    assert c'.answers[0 := Answer(0, true, [0])] == Served().answers;
  }

  function Stages(): seq<System> {
    var d1 := NewConn().(questions := IdTable([Some(Question(0, []))], 1, []), serial := 1);
    var d2 := d1.(questions := IdTable([None], 1, [0]), imports := map[0 := Import(5, 1, 1, false)]);
    var ret := Return(0, 0, false, Results([SenderHosted(0, 5)]));
    [Start(), System(Serving(), NewConn(), [], []), System(Serving(), d1, [], [Bootstrap(0, 0)]),
     System(Served(), d1, [ret], []), System(Served(), d2, [], [Finish(0, false)]),
     System(Served().(answers := map[]), d2, [], []), BeforeRefusal()]
  }

  lemma ServingStages()
    ensures Next(Stages()[0], Stages()[1]) && Next(Stages()[1], Stages()[2]) && Next(Stages()[2], Stages()[3])
  {
    var s, norm := Stages(), Identity();
    assert AddExport(NewConn().exports, 5, norm) == Serving().exports;
    assert s[1] == Act(s[0], DoInitMain(5), norm);
    assert Swap(s[2]) == Act(Swap(s[1]), DoBootstrap, norm);
    MainIsServed(norm);
    assert s[3] == Act(s[2], DoReceive(0), norm);
  }

  lemma ReturningStages()
    ensures Next(Stages()[3], Stages()[4]) && Next(Stages()[4], Stages()[5])
  {
    var s, norm := Stages(), Identity();
    var desc := SenderHosted(0, 5);
    assert [desc][1..] == [];
    assert Swap(s[4]) == Act(Swap(s[3]), DoReceive(0), norm);
    assert s[5] == Act(s[4], DoReceive(0), norm);
  }

  lemma CallingStage()
    ensures Next(Stages()[5], Stages()[6])
  {
    var s, norm := Stages(), Identity();
    var d, args, desc := s[5].d, [Hosted(9)], SenderHosted(0, 9);
    var d' := d.(exports := IdTable([Some(Export(9, 1))], 1, []));
    assert AddExport(d.exports, 9, norm) == d'.exports;
    assert Describe(d, args[0], norm) == (d', desc);
    assert DescribeAll(d', args[1..], norm) == (d', []);
    assert DescribeAll(d, args, norm) == (d', [desc] + []) && [desc] + [] == [desc];
    assert [desc][1..] == [] && HostedIds([desc]) == [0];
    assert Swap(s[6]) == Act(Swap(s[5]), DoCall(ToImport(0), args, Body(0, 0)), norm);
  }

  /** The run: `c` serves a main client, `d` bootstraps it and calls it with a capability of its
      own. */
  lemma RefusalIsReachable()
    ensures Run(Stages()) && Stages()[6] == BeforeRefusal()
  {
    ServingStages();
    ReturningStages();
    CallingStage();
  }

  /** There the refusal frees an export that the other vat holds and may still call. */
  lemma RefusedCallDangles()
    ensures var t := Refused(BeforeRefusal());
      0 in t.c.imports && t.d.exports.Find(0).None?
  {
  }

  // ---------------------------------------------------------------------------------------------
  // Announcing a promise

  /** When a promise export has resolved to a client of its own vat, the export table finds that
      client at the promise's own slot, unless an earlier slot is the same client. */
  lemma PromiseFindsItselfIff(t: IdTable<Export>, p: nat, obj: nat, norm: Norm)
    requires t.Find(p).Some? && norm(t.Find(p).value.obj) == norm(obj)
    ensures AddExportId(t, obj, norm) <= p
    ensures AddExportId(t, obj, norm) == p <==>
      forall j :: 0 <= j < p ==> t.slots[j].None? || norm(t.slots[j].value.obj) != norm(obj)
  {
    var k := SameClientFrom(t.slots, obj, norm, 0);
    assert k <= p;
  }
}
