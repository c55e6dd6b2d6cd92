/**
 Every step of the two-vat system keeps the invariant of `References` and `Questions` in both
 directions: what either vat does of its own accord, and what it does with each kind of message.  So
 the invariant holds in every run.
 */
module TwoVatsSafety {
  import opened Options
  import opened IdTables
  import opened RpcMessages
  import opened ConnTables
  import opened TwoVats
  import opened References
  import opened Questions

  /** Nothing in the channel aborts its receiver by itself. */
  ghost predicate NoAbort(ch: seq<Message>) {
    forall i :: 0 <= i < |ch| ==> !ch[i].Abort? && (ch[i].Resolve? ==> ch[i].resolution != ToCap(NoCap))
  }

  /** All that is kept in one direction: `x` exports to and asks `y`. */
  ghost predicate Link(x: Conn, y: Conn, xy: seq<Message>, yx: seq<Message>) {
    && RefLink(x, y, xy, yx)
    && QuestionLink(x, y, xy, yx)
    && !x.aborted
    && NoAbort(xy)
  }

  ghost predicate Inv(s: System) {
    Link(s.c, s.d, s.cd, s.dc) && Link(s.d, s.c, s.dc, s.cd)
  }

  lemma InvTables(s: System)
    requires Inv(s)
    ensures ExportsOk(s.c.exports) && ImportsOk(s.c)
  {
  }

  /** A message without grants brings the import table nothing. */
  lemma NothingTakenIn(c: Conn, descs: seq<Desc>)
    requires ImportsOk(c) && forall id: nat :: Granted(descs, id) == 0
    ensures TookIn(c, c, descs)
  {
  }

  // ---------------------------------------------------------------------------------------------
  // Sending

  /** What a vat writes into a message it may say: its own imports and its own questions. */
  lemma MeantIsOwn(c: Conn, c': Conn, m: Message)
    requires AllMeant(c, c', Descs(m))
    requires m.Call? ==> exists to :: CanCall(c, to) && m.target == TargetOf(c, to)
    ensures NamesOwnImports(c, m) && RefersToOwnQuestions(c, m)
  {
    forall id: nat, obj: nat | Names(m, id, obj)
      ensures id in c.imports && c.imports[id].obj == obj
    {
      if ReceiverHosted(id, obj) in Descs(m) {
        assert Meant(c, c', ReceiverHosted(id, obj));
      }
    }
    forall q: nat, s: nat | Refers(m, q, s)
      ensures Asked(c, q) == Some(s)
    {
      if ReceiverAnswer(q, s) in Descs(m) {
        assert Meant(c, c', ReceiverAnswer(q, s));
      }
    }
  }

  /** A message that opens nothing and settles nothing, written by `DescribeAll`. */
  lemma SendsKeepsInv(s: System, c': Conn, m: Message)
    requires Inv(s)
    requires c' == s.c.(exports := c'.exports)
    requires Exported(s.c.exports, c'.exports, Descs(m)) && AllMeant(s.c, c', Descs(m))
    requires m.Resolve? && m.resolution != ToCap(NoCap)
    ensures Inv(System(c', s.d, s.cd + [m], s.dc))
  {
    hide RefLink, QuestionLink;
    MeantIsOwn(s.c, c', m);
    ExporterSends(s.c, c', s.d, s.cd, s.dc, m);
    ImporterSends(s.d, s.c, c', s.dc, s.cd, m);
    CallerSends(s.c, c', s.d, s.cd, s.dc, m);
    AnswererSends(s.d, s.c, c', s.dc, s.cd, m);
  }

  lemma OpensKeepsInv(s: System, c': Conn, m: Message)
    requires Inv(s)
    requires Opens(m) && m.q == s.c.questions.NextId() && m.serial == s.c.serial
    requires c' == s.c.(exports := c'.exports, serial := m.serial + 1,
                        questions := s.c.questions.Alloc(Question(m.serial, OpenedCaps(m))))
    requires Exported(s.c.exports, c'.exports, Descs(m)) && AllMeant(s.c, c', Descs(m))
    requires m.Call? ==> exists to :: CanCall(s.c, to) && m.target == TargetOf(s.c, to)
    ensures Inv(System(c', s.d, s.cd + [m], s.dc))
  {
    hide RefLink, QuestionLink;
    MeantIsOwn(s.c, c', m);
    ExporterSends(s.c, c', s.d, s.cd, s.dc, m);
    ImporterSends(s.d, s.c, c', s.dc, s.cd, m);
    CallerOpens(s.c, c', s.d, s.cd, s.dc, m);
    AnswererSends(s.d, s.c, c', s.dc, s.cd, m);
  }

  /** `DescribeAll` in the form the sending steps need. */
  lemma Described(c: Conn, args: seq<CapArg>, norm: Norm, c': Conn)
    requires c.exports.Valid() && c'.exports == DescribeAll(c, args, norm).0.exports
    ensures OnlyExports(c, DescribeAll(c, args, norm).0)
    ensures Exported(c.exports, c'.exports, DescribeAll(c, args, norm).1)
    ensures AllMeant(c, c', DescribeAll(c, args, norm).1)
  {
    DescribeAllExports(c, args, norm);
    var (c1, descs) := DescribeAll(c, args, norm);
    forall desc | desc in descs
      ensures Meant(c, c', desc)
    {
      assert Meant(c, c1, desc);
    }
  }

  lemma NothingExported(t: IdTable<Export>)
    requires t.Valid()
    ensures Exported(t, t, [])
  {
    assert forall id: nat :: Gained(t.Find(id), t.Find(id), 0);
  }

  lemma CallTables(c: Conn, to: CallTo, args: seq<CapArg>, body: Body, norm: Norm, c': Conn, m: Message)
    requires CanCall(c, to) && c.exports.Valid()
    requires SendCall(c, to, args, body, norm) == (c', [m])
    ensures Opens(m) && m.q == c.questions.NextId() && m.serial == c.serial && m.target == TargetOf(c, to)
    ensures c' == c.(exports := c'.exports, serial := m.serial + 1,
                     questions := c.questions.Alloc(Question(m.serial, OpenedCaps(m))))
    ensures Exported(c.exports, c'.exports, Descs(m)) && AllMeant(c, c', Descs(m))
  {
    Described(c, args, norm, c');
    assert [m][0] == Call(m.q, c.serial, TargetOf(c, to), DescribeAll(c, args, norm).1, body);
  }

  lemma CallKeepsInv(s: System, to: CallTo, args: seq<CapArg>, body: Body, norm: Norm)
    requires Inv(s) && CanCall(s.c, to)
    ensures var (c', out) := SendCall(s.c, to, args, body, norm); Inv(System(c', s.d, s.cd + out, s.dc))
  {
    hide RefLink, QuestionLink, Exported, AllMeant;
    InvTables(s);
    var (c', out) := SendCall(s.c, to, args, body, norm);
    CallTables(s.c, to, args, body, norm, c', out[0]);
    OpensKeepsInv(s, c', out[0]);
  }

  lemma BootstrapKeepsInv(s: System)
    requires Inv(s)
    ensures var (c', out) := SendBootstrap(s.c); Inv(System(c', s.d, s.cd + out, s.dc))
  {
    hide RefLink, QuestionLink;
    InvTables(s);
    var (c', out) := SendBootstrap(s.c);
    NothingExported(s.c.exports);
    OpensKeepsInv(s, c', out[0]);
  }

  lemma ReturnKeepsInv(s: System, c': Conn, q: nat, m: Message)
    requires Inv(s)
    requires q in s.c.answers && !s.c.answers[q].done
    requires m.Return? && m.q == q && m.serial == s.c.answers[q].serial && !m.releaseParamCaps
    requires c' == s.c.(exports := c'.exports, answers := c'.answers)
    requires c'.answers.Keys == s.c.answers.Keys
    requires forall k :: k in s.c.answers && k != q ==> c'.answers[k] == s.c.answers[k]
    requires c'.answers[q].serial == m.serial && c'.answers[q].done
    requires m.outcome.Exception? ==> c'.answers[q].resultCaps == []
    requires Exported(s.c.exports, c'.exports, Descs(m)) && AllMeant(s.c, c', Descs(m))
    ensures Inv(System(c', s.d, s.cd + [m], s.dc))
  {
    hide RefLink, QuestionLink;
    MeantIsOwn(s.c, c', m);
    ExporterSends(s.c, c', s.d, s.cd, s.dc, m);
    ImporterSends(s.d, s.c, c', s.dc, s.cd, m);
    CallerSends(s.c, c', s.d, s.cd, s.dc, m);
    AnswererSettles(s.d, s.c, c', s.dc, s.cd, q, m);
  }

  lemma SettleKeepsInv(s: System, q: nat, how: Settlement, norm: Norm)
    requires Inv(s) && q in s.c.answers
    ensures var (c', out) := Settle(s.c, q, how, norm); Inv(System(c', s.d, s.cd + out, s.dc))
  {
    var (c', out) := Settle(s.c, q, how, norm);
    if s.c.answers[q].done {
      assert s.cd + out == s.cd;
    } else {
      assert s.c.answers[q].resultCaps == [];
      if how.Fulfill? {
        Described(s.c, how.args, norm, c');
      } else {
        NothingExported(s.c.exports);
      }
      ReturnKeepsInv(s, c', q, out[0]);
    }
  }

  lemma ResolveKeepsInv(s: System, p: nat, cap: Option<CapArg>, norm: Norm)
    requires Inv(s)
    requires cap.Some? ==> cap.value != NullCap && CanDescribe(s.c, cap.value)
    ensures var (c', out) := SendResolve(s.c, p, cap, norm); Inv(System(c', s.d, s.cd + out, s.dc))
  {
    hide RefLink, QuestionLink;
    InvTables(s);
    var (c', out) := SendResolve(s.c, p, cap, norm);
    if cap.Some? {
      DescribeExports(s.c, cap.value, norm);
    } else {
      NothingExported(s.c.exports);
    }
    SendsKeepsInv(s, c', out[0]);
  }

  lemma InitMainKeepsInv(s: System, obj: nat, norm: Norm)
    requires Inv(s)
    ensures Inv(s.(c := InitMain(s.c, obj, norm)))
  {
    hide RefLink, QuestionLink;
    var c' := InitMain(s.c, obj, norm);
    ExporterPins(s.c, c', s.d, s.cd, s.dc, obj, norm);
    SameQuestions(s.c, c', s.d, s.cd, s.dc);
    SameAnswers(s.d, s.c, c', s.dc, s.cd);
    SameImports(s.d, s.c, c', s.dc, s.cd);
  }

  lemma SameQuestions(x: Conn, x': Conn, y: Conn, xy: seq<Message>, yx: seq<Message>)
    requires QuestionLink(x, y, xy, yx) && x'.questions == x.questions && x'.serial == x.serial
    ensures QuestionLink(x', y, xy, yx)
  {
    assert forall q: nat :: Asked(x', q) == Asked(x, q);
    assert forall q: nat, s: nat :: ReturnDue(x', y, q, s) == ReturnDue(x, y, q, s);
  }

  lemma SameAnswers(x: Conn, y: Conn, y': Conn, xy: seq<Message>, yx: seq<Message>)
    requires QuestionLink(x, y, xy, yx) && y'.answers == y.answers
    ensures QuestionLink(x, y', xy, yx)
  {
    assert forall q: nat :: Answering(y', q) == Answering(y, q);
    AnsweringSame(y, y', xy);
    assert forall q: nat, s: nat :: ReturnDue(x, y', q, s) == ReturnDue(x, y, q, s);
  }

  lemma SameImports(x: Conn, y: Conn, y': Conn, xy: seq<Message>, yx: seq<Message>)
    requires RefLink(x, y, xy, yx) && y'.imports == y.imports
    ensures RefLink(x, y', xy, yx)
  {
    assert forall id: nat :: ImportRefs(y', id) == ImportRefs(y, id);
  }

  lemma SameExports(x: Conn, x': Conn, y: Conn, xy: seq<Message>, yx: seq<Message>)
    requires RefLink(x, y, xy, yx) && x'.exports == x.exports && x'.pins == x.pins
    ensures RefLink(x', y, xy, yx)
  {
    assert forall id: nat :: Wire(x', id) == Wire(x, id) && ExportedObj(x', id) == ExportedObj(x, id);
    forall i | 0 <= i < |yx|
      ensures NamesLiveAt(x', yx[..i], yx[i])
    {
      assert NamesLiveAt(x, yx[..i], yx[i]);
    }
    forall i | 0 <= i < |xy|
      ensures GrantsMatchAt(x', xy[i])
    {
      assert GrantsMatchAt(x, xy[i]);
    }
  }

  /** Nothing but the import table changes and at most a Release is sent. */
  lemma DropKeepsInv(s: System, id: nat)
    requires Inv(s) && id in s.c.imports
    ensures var (c', out) := DropRef(s.c, id); Inv(System(c', s.d, s.cd + out, s.dc))
  {
    hide RefLink, QuestionLink;
    var (c', out) := DropRef(s.c, id);
    ImporterDrops(s.d, s.c, s.dc, s.cd, id);
    if out == [] {
      assert s.cd + out == s.cd;
      SameExports(s.c, c', s.d, s.cd, s.dc);
      SameQuestions(s.c, c', s.d, s.cd, s.dc);
      SameAnswers(s.d, s.c, c', s.dc, s.cd);
    } else {
      assert out == [out[0]];
      ExporterSendsPlain(s.c, c', s.d, s.cd, s.dc, out[0]);
      CallerSends(s.c, c', s.d, s.cd, s.dc, out[0]);
      AnswererSends(s.d, s.c, c', s.dc, s.cd, out[0]);
    }
  }

  // ---------------------------------------------------------------------------------------------
  // Receiving

  /** What the head of the incoming channel names and refers to is all there. */
  lemma HeadIsResolvable(s: System)
    requires Inv(s) && s.dc != []
    ensures Resolvable(s.c, Descs(s.dc[0]))
    ensures forall id: nat, obj: nat :: Names(s.dc[0], id, obj) ==> ExportedObj(s.c, id) == Some(obj)
    ensures forall q: nat, t: nat :: Refers(s.dc[0], q, t) ==> Answering(s.c, q) == Some(t)
  {
    var m := s.dc[0];
    assert NamesLiveAt(s.c, s.dc[..0], m);
    HeadRefersToAnswers(s.d, s.c, s.dc, s.cd);
    var descs := Descs(m);
    forall k | 0 <= k < |descs|
      ensures descs[k].ReceiverHosted? ==> s.c.exports.Find(descs[k].id).Some?
      ensures descs[k].ReceiverAnswer? ==> descs[k].q in s.c.answers
    {
      if descs[k].ReceiverHosted? {
        assert Names(m, descs[k].id, descs[k].obj);
      }
      if descs[k].ReceiverAnswer? {
        assert Refers(m, descs[k].q, descs[k].serial);
      }
    }
  }

  /** A message that is neither Return nor Release nor opens or finishes a question, whose
      descriptors were taken in. */
  lemma TakesInKeepsInv(s: System, c': Conn)
    requires Inv(s) && s.dc != []
    requires s.dc[0].Resolve? || s.dc[0].Disembargo? || s.dc[0].Unimplemented?
    requires c' == s.c.(imports := c'.imports) && TookIn(s.c, c', Descs(s.dc[0]))
    ensures Inv(System(c', s.d, s.cd, s.dc[1..]))
  {
    hide RefLink, QuestionLink;
    ExporterReceives(s.c, c', s.d, s.cd, s.dc);
    ImporterReceives(s.d, s.c, c', s.dc, s.cd);
    CallerReceives(s.c, c', s.d, s.cd, s.dc);
    AnswererReceives(s.d, s.c, c', s.dc, s.cd);
  }

  /** The asking and answering sides do not see a message without descriptors or question ids. */
  lemma PlainKeepsInv(s: System, m: Message)
    requires Inv(s) && (m.Disembargo? || m.Unimplemented?)
    requires m.Disembargo? ==> !m.Call?
    ensures Inv(System(s.c, s.d, s.cd + [m], s.dc))
  {
    hide RefLink, QuestionLink;
    ExporterSendsPlain(s.c, s.c, s.d, s.cd, s.dc, m);
    ImporterSends(s.d, s.c, s.c, s.dc, s.cd, m);
    CallerSends(s.c, s.c, s.d, s.cd, s.dc, m);
    AnswererSends(s.d, s.c, s.c, s.dc, s.cd, m);
  }

  lemma OpenedKeepsInv(s: System, c': Conn)
    requires Inv(s) && s.dc != [] && Opens(s.dc[0])
    requires c' == s.c.(imports := c'.imports,
                        answers := s.c.answers[s.dc[0].q := Answer(s.dc[0].serial, false, [])])
    requires TookIn(s.c, c', Descs(s.dc[0]))
    ensures s.dc[0].q !in s.c.answers
    ensures Inv(System(c', s.d, s.cd, s.dc[1..]))
  {
    hide RefLink, QuestionLink;
    ExporterReceives(s.c, c', s.d, s.cd, s.dc);
    ImporterReceives(s.d, s.c, c', s.dc, s.cd);
    CallerReceives(s.c, c', s.d, s.cd, s.dc);
    AnswererInserts(s.d, s.c, c', s.dc, s.cd);
  }

  lemma RecvBootstrap(s: System, norm: Norm)
    requires Inv(s) && s.dc != [] && s.dc[0].Bootstrap?
    ensures var (c', out) := HandleBootstrap(s.c, s.dc[0].q, s.dc[0].serial, norm);
      Inv(System(c', s.d, s.cd + out, s.dc[1..]))
  {
    hide RefLink, QuestionLink;
    InvTables(s);
    NothingTakenIn(s.c, []);
    var c1 := InsertAnswer(s.c, s.dc[0].q, s.dc[0].serial);
    OpenedKeepsInv(s, c1);
    var s1 := System(c1, s.d, s.cd, s.dc[1..]);
    SettleKeepsInv(s1, s.dc[0].q, if s.c.main.None? then Reject else Fulfill([Hosted(s.c.main.value)]), norm);
  }

  /** An incoming call is always routed: its payload resolves, its id is unused, its target is
      there. */
  lemma RecvCall(s: System)
    requires Inv(s) && s.dc != [] && s.dc[0].Call?
    ensures var (c', out) := HandleCall(s.c, s.dc[0], Known);
      out == [] && Inv(System(c', s.d, s.cd, s.dc[1..]))
  {
    hide RefLink, QuestionLink;
    InvTables(s);
    var m := s.dc[0];
    HeadIsResolvable(s);
    PopulateTakesIn(s.c, m.caps);
    var c1 := Populate(s.c, m.caps).value;
    OpenedKeepsInv(s, InsertAnswer(c1, m.q, m.serial));
    match m.target {
      case ImportedCap(id, obj) => assert Names(m, id, obj);
      case PromisedAnswer(q, t) => assert Refers(m, q, t);
    }
  }

  /** A Return finds its question, and everything its results name is there. */
  lemma ReturnTables(s: System)
    requires Inv(s) && s.dc != [] && s.dc[0].Return?
    ensures Asked(s.c, s.dc[0].q) == Some(s.dc[0].serial)
    ensures var (c', out) := HandleReturn(s.c, s.dc[0]);
      && out == [Finish(s.dc[0].q, s.dc[0].outcome.Exception?)]
      && c' == s.c.(questions := s.c.questions.Drop(s.dc[0].q), imports := c'.imports)
      && TookIn(s.c, c', Descs(s.dc[0]))
  {
    var m := s.dc[0];
    NoReturnInFlight(s.c, s.d, s.dc, 0);
    var c1 := s.c.(questions := s.c.questions.Drop(m.q));
    HeadIsResolvable(s);
    if m.outcome.Results? {
      ResolvableElsewhere(s.c, c1, m.outcome.caps);
      PopulateTakesIn(c1, m.outcome.caps);
    }
  }

  lemma RecvReturn(s: System)
    requires Inv(s) && s.dc != [] && s.dc[0].Return?
    ensures var (c', out) := HandleReturn(s.c, s.dc[0]); Inv(System(c', s.d, s.cd + out, s.dc[1..]))
  {
    hide RefLink, QuestionLink;
    ReturnTables(s);
    var (c', out) := HandleReturn(s.c, s.dc[0]);
    ReturnedKeepsInv(s, c', out[0]);
  }

  lemma ReturnedKeepsInv(s: System, c': Conn, fin: Message)
    requires Inv(s) && s.dc != [] && s.dc[0].Return?
    requires fin == Finish(s.dc[0].q, s.dc[0].outcome.Exception?)
    requires Asked(s.c, s.dc[0].q).Some?
    requires c' == s.c.(questions := s.c.questions.Drop(s.dc[0].q), imports := c'.imports)
    requires TookIn(s.c, c', Descs(s.dc[0]))
    ensures Inv(System(c', s.d, s.cd + [fin], s.dc[1..]))
  {
    hide RefLink, QuestionLink;
    ExporterReceives(s.c, c', s.d, s.cd, s.dc);
    ExporterSendsPlain(c', c', s.d, s.cd, s.dc[1..], fin);
    ImporterReceives(s.d, s.c, c', s.dc, s.cd);
    ImporterSends(s.d, c', c', s.dc[1..], s.cd, fin);
    CallerReturned(s.c, c', s.d, s.cd, s.dc);
    AnswererReceives(s.d, s.c, c', s.dc, s.cd);
    AnswererSends(s.d, c', c', s.dc[1..], s.cd, fin);
  }

  lemma ResolvableElsewhere(c: Conn, c': Conn, descs: seq<Desc>)
    requires Resolvable(c, descs) && c'.exports == c.exports && c'.answers == c.answers
    ensures Resolvable(c', descs)
  {
  }

  lemma RecvFinish(s: System)
    requires Inv(s) && s.dc != [] && s.dc[0].Finish?
    ensures Inv(System(HandleFinish(s.c, s.dc[0].q, s.dc[0].releaseResultCaps), s.d, s.cd, s.dc[1..]))
  {
    hide RefLink, QuestionLink;
    InvTables(s);
    NothingTakenIn(s.c, Descs(s.dc[0]));
    var c' := s.c.(answers := s.c.answers - {s.dc[0].q});
    AnswererFinishes(s.d, s.c, c', s.dc, s.cd);
    assert HandleFinish(s.c, s.dc[0].q, s.dc[0].releaseResultCaps) == c';
    ExporterReceives(s.c, c', s.d, s.cd, s.dc);
    ImporterReceives(s.d, s.c, c', s.dc, s.cd);
    CallerReceives(s.c, c', s.d, s.cd, s.dc);
  }

  lemma RecvRelease(s: System)
    requires Inv(s) && s.dc != [] && s.dc[0].Release?
    ensures Inv(System(s.c.(exports := ReleaseExport(s.c.exports, s.dc[0].id, s.dc[0].referenceCount)), s.d, s.cd, s.dc[1..]))
  {
    hide RefLink, QuestionLink;
    InvTables(s);
    NothingTakenIn(s.c, Descs(s.dc[0]));
    var c' := s.c.(exports := ReleaseExport(s.c.exports, s.dc[0].id, s.dc[0].referenceCount));
    ExporterReleased(s.c, s.d, s.cd, s.dc);
    ImporterReceives(s.d, s.c, c', s.dc, s.cd);
    CallerReceives(s.c, c', s.d, s.cd, s.dc);
    AnswererReceives(s.d, s.c, c', s.dc, s.cd);
  }

  lemma RecvDiscard(s: System, desc: Desc)
    requires Inv(s) && s.dc != [] && s.dc[0].Resolve? && s.dc[0].resolution == ToCap(desc)
    ensures var (c', out) := DiscardResolved(s.c, desc); Inv(System(c', s.d, s.cd + out, s.dc[1..]))
  {
    hide RefLink, QuestionLink;
    HeadIsResolvable(s);
    assert Descs(s.dc[0])[0] == desc;
    if desc.SenderHosted? || desc.SenderPromise? {
      var m := Release(desc.id, 1);
      ExporterReceives(s.c, s.c, s.d, s.cd, s.dc);
      ExporterSendsPlain(s.c, s.c, s.d, s.cd, s.dc[1..], m);
      ImporterDiscards(s.d, s.c, s.dc, s.cd);
      CallerReceives(s.c, s.c, s.d, s.cd, s.dc);
      CallerSends(s.c, s.c, s.d, s.cd, s.dc[1..], m);
      AnswererReceives(s.d, s.c, s.c, s.dc, s.cd);
      AnswererSends(s.d, s.c, s.c, s.dc[1..], s.cd, m);
    } else {
      forall id: nat
        ensures Granted([desc], id) == 0
      {
        GrantedOne(desc, id);
      }
      InvTables(s);
      NothingTakenIn(s.c, [desc]);
      TakesInKeepsInv(s, s.c);
      assert s.cd + [] == s.cd;
    }
  }

  lemma RecvResolve(s: System, embargoId: nat)
    requires Inv(s) && s.dc != [] && s.dc[0].Resolve?
    ensures var (c', out) := HandleResolve(s.c, s.dc[0], embargoId); Inv(System(c', s.d, s.cd + out, s.dc[1..]))
  {
    hide RefLink, QuestionLink;
    InvTables(s);
    var m := s.dc[0];
    var p := m.promiseId;
    var (c', out) := HandleResolve(s.c, m, embargoId);
    if (p !in s.c.imports || !s.c.imports[p].isPromise) && m.resolution.ToCap? {
      RecvDiscard(s, m.resolution.desc);
    } else if p !in s.c.imports || !s.c.imports[p].isPromise {
      NothingTakenIn(s.c, []);
      TakesInKeepsInv(s, s.c);
      assert s.cd + out == s.cd;
    } else {
      RecvAwaitedResolve(s, embargoId);
    }
  }

  /** A promise import waits no more; nothing is counted. */
  lemma WaitsNoMore(c: Conn, p: nat)
    requires ImportsOk(c) && p in c.imports
    ensures var c1 := c.(imports := c.imports[p := c.imports[p].(isPromise := false)]);
      ImportsOk(c1) && TookIn(c, c1, [])
  {
  }

  /** Taking in descriptors after that is taking them in. */
  lemma TookInAfter(c: Conn, c1: Conn, c2: Conn, descs: seq<Desc>)
    requires TookIn(c, c1, []) && c1.imports.Keys == c.imports.Keys && TookIn(c1, c2, descs)
    ensures TookIn(c, c2, descs)
  {
    hide Granted;
    assert forall id: nat :: Granted([], id) == 0 by { NothingIsGranted(); }
  }

  lemma NothingIsGranted()
    ensures forall id: nat :: Granted([], id) == 0
  {
  }

  /** A promise import resolves to an error. */
  lemma AwaitedError(c: Conn, m: Message, embargoId: nat)
    requires ImportsOk(c) && m.Resolve? && m.resolution.ToException?
    requires m.promiseId in c.imports && c.imports[m.promiseId].isPromise
    ensures var (c', out) := HandleResolve(c, m, embargoId);
      c' == c.(imports := c'.imports) && TookIn(c, c', []) && out == []
  {
    WaitsNoMore(c, m.promiseId);
  }

  /** A promise import resolves to a capability. */
  lemma AwaitedCap(c: Conn, m: Message, embargoId: nat)
    requires ImportsOk(c) && m.Resolve? && m.resolution.ToCap? && m.resolution != ToCap(NoCap)
    requires m.promiseId in c.imports && c.imports[m.promiseId].isPromise
    requires Resolvable(c, [m.resolution.desc])
    ensures var (c', out) := HandleResolve(c, m, embargoId);
      && c' == c.(imports := c'.imports) && TookIn(c, c', [m.resolution.desc])
      && (out == [] || (out == [out[0]] && out[0].Disembargo?))
  {
    var p, desc := m.promiseId, m.resolution.desc;
    var c1 := c.(imports := c.imports[p := c.imports[p].(isPromise := false)]);
    WaitsNoMore(c, p);
    ResolvableElsewhere(c, c1, [desc]);
    hide TookIn, Populate, Resolvable, ImportsOk;
    PopulateTakesIn(c1, [desc]);
    TookInAfter(c, c1, Populate(c1, [desc]).value, [desc]);
  }

  lemma NoNullIsAnnounced(s: System)
    requires Inv(s) && s.dc != [] && s.dc[0].Resolve?
    ensures s.dc[0].resolution != ToCap(NoCap)
  {
    hide RefLink, QuestionLink;
  }

  /** What a resolution changes that a promise import was waiting for. */
  lemma AwaitedTables(s: System, embargoId: nat)
    requires Inv(s) && s.dc != [] && s.dc[0].Resolve?
    requires s.dc[0].promiseId in s.c.imports && s.c.imports[s.dc[0].promiseId].isPromise
    ensures var (c', out) := HandleResolve(s.c, s.dc[0], embargoId);
      && c' == s.c.(imports := c'.imports) && TookIn(s.c, c', Descs(s.dc[0]))
      && (out == [] || (out == [out[0]] && out[0].Disembargo?))
  {
    InvTables(s);
    HeadIsResolvable(s);
    NoNullIsAnnounced(s);
    hide Inv, HandleResolve, TookIn, Resolvable, ImportsOk;
    if s.dc[0].resolution.ToException? {
      AwaitedError(s.c, s.dc[0], embargoId);
    } else {
      AwaitedCap(s.c, s.dc[0], embargoId);
    }
  }

  /** A resolution that a promise import was waiting for. */
  lemma RecvAwaitedResolve(s: System, embargoId: nat)
    requires Inv(s) && s.dc != [] && s.dc[0].Resolve?
    requires s.dc[0].promiseId in s.c.imports && s.c.imports[s.dc[0].promiseId].isPromise
    ensures var (c', out) := HandleResolve(s.c, s.dc[0], embargoId); Inv(System(c', s.d, s.cd + out, s.dc[1..]))
  {
    hide Inv, HandleResolve, TookIn;
    AwaitedTables(s, embargoId);
    var (c', out) := HandleResolve(s.c, s.dc[0], embargoId);
    TakesInKeepsInv(s, c');
    if out == [] {
      assert s.cd + out == s.cd;
    } else {
      PlainKeepsInv(System(c', s.d, s.cd, s.dc[1..]), out[0]);
    }
  }

  lemma ReceiveKeepsInv(s: System, embargoId: nat, norm: Norm)
    requires Inv(s) && s.dc != []
    ensures var (c', out) := Handle(s.c, s.dc[0], Known, embargoId, norm);
      Inv(System(c', s.d, s.cd + out, s.dc[1..]))
  {
    hide RefLink, QuestionLink;
    InvTables(s);
    NothingTakenIn(s.c, []);
    var m := s.dc[0];
    var (c', out) := Handle(s.c, m, Known, embargoId, norm);
    match m {
      case Bootstrap(_, _) => RecvBootstrap(s, norm);
      case Call(_, _, _, _, _) => RecvCall(s); assert s.cd + out == s.cd;
      case Return(_, _, _, _) => RecvReturn(s);
      case Finish(_, _) => RecvFinish(s); assert s.cd + out == s.cd;
      case Resolve(_, _) => RecvResolve(s, embargoId);
      case Release(_, _) => RecvRelease(s); assert s.cd + out == s.cd;
      case Disembargo(_, _) =>
        TakesInKeepsInv(s, s.c);
        if out == [] {
          assert s.cd + out == s.cd;
        } else {
          PlainKeepsInv(System(s.c, s.d, s.cd, s.dc[1..]), out[0]);
        }
      case Unimplemented => TakesInKeepsInv(s, s.c); assert s.cd + out == s.cd;
      case Abort =>
    }
  }

  // ---------------------------------------------------------------------------------------------
  // Every run

  /** Whatever one vat does keeps the invariant in both directions. */
  lemma ActKeepsInv(s: System, a: Action, norm: Norm)
    requires Inv(s) && Enabled(s, a)
    ensures Inv(Act(s, a, norm))
  {
    hide Inv;
    match a {
      case DoInitMain(obj) => InitMainKeepsInv(s, obj, norm);
      case DoBootstrap => BootstrapKeepsInv(s);
      case DoCall(to, args, body) => CallKeepsInv(s, to, args, body, norm);
      case DoSettle(q, how) => SettleKeepsInv(s, q, how, norm);
      case DoDropRef(id) => DropKeepsInv(s, id);
      case DoResolve(p, cap) => ResolveKeepsInv(s, p, cap, norm);
      case DoReceive(e) => ReceiveKeepsInv(s, e, norm);
    }
  }

  lemma NextKeepsInv(s: System, t: System)
    requires Inv(s) && Next(s, t)
    ensures Inv(t)
  {
    hide Link;
    if StepOfC(s, t) {
      var a: Action, norm: Norm :| Enabled(s, a) && t == Act(s, a, norm);
      ActKeepsInv(s, a, norm);
    } else {
      var a: Action, norm: Norm :| Enabled(Swap(s), a) && Swap(t) == Act(Swap(s), a, norm);
      ActKeepsInv(Swap(s), a, norm);
    }
  }

  lemma StartIsSafe()
    ensures Inv(Start())
  {
    EmptyIsValid<Export>();
    EmptyIsValid<Question>();
  }

  lemma {:induction false} RunIsSafe(run: seq<System>)
    requires Run(run)
    ensures Inv(run[|run| - 1])
    decreases |run|
  {
    if |run| == 1 {
      StartIsSafe();
    } else {
      hide Inv;
      var n := |run| - 1;
      assert Next(run[n - 1], run[n]);
      RunIsSafe(run[..n]);
      NextKeepsInv(run[n - 1], run[n]);
    }
  }
}
