/** What the operations and handlers of one connection do, said of their results alone. */
module ConnLaws {

  // The functions of `ConnTables` are not named in what a result should be: which client a descriptor
  // stands for, what a Return carries, which references are given back, when the connection aborts.

  import opened Options
  import opened IdTables
  import opened RpcMessages
  import opened ConnTables
  import opened References

  // ---------------------------------------------------------------------------------------------
  // Capability tables

  /** Slot `id` holds the client `means`, which is the client `obj` when both are followed. */
  predicate Holds(c: Conn, id: nat, means: nat, obj: nat, norm: Norm) {
    ExportedObj(c, id) == Some(means) && norm(means) == norm(obj)
  }

  /** The descriptor stands for the client, in the tables before and after it was written. */
  predicate Describes(c: Conn, c': Conn, arg: CapArg, desc: Desc, norm: Norm) {
    match arg
    case NullCap => desc.NoCap?
    case Hosted(obj) => desc.SenderHosted? && Holds(c', desc.id, desc.obj, obj, norm)
    case NewPromise(obj) => desc.SenderPromise? && Holds(c', desc.id, desc.obj, obj, norm)
    case SamePromise(id) => desc.SenderPromise? && desc.id == id && ExportedObj(c', id) == Some(desc.obj) == ExportedObj(c, id)
    case Imported(id) => desc.ReceiverHosted? && desc.id == id && id in c.imports && c.imports[id].obj == desc.obj
    case Pipelined(q) => desc.ReceiverAnswer? && desc.q == q && Asked(c, q) == Some(desc.serial)
  }

  /** Entry `i` of the table stands for client `i`. */
  ghost predicate DescribesAll(c: Conn, c': Conn, args: seq<CapArg>, descs: seq<Desc>, norm: Norm) {
    |descs| == |args| && forall i :: 0 <= i < |args| ==> Describes(c, c', args[i], descs[i], norm)
  }

  predicate CanDescribeAll(c: Conn, args: seq<CapArg>) {
    forall arg :: arg in args ==> CanDescribe(c, arg)
  }

  lemma DescribesOne(c: Conn, arg: CapArg, norm: Norm)
    requires c.exports.Valid() && CanDescribe(c, arg)
    ensures Describes(c, Describe(c, arg, norm).0, arg, Describe(c, arg, norm).1, norm)
  {
    if arg.Hosted? || arg.NewPromise? {
      var t, obj := c.exports, arg.obj;
      AddExportCounts(t, obj, norm);
      var k := SameClientFrom(t.slots, obj, norm, 0);
      assert k < |t.slots| ==> t.Find(k).Some? && norm(t.Find(k).value.obj) == norm(obj);
      if k == |t.slots| {
        AllocIsFresh(t, Export(obj, 1));
      }
    } else if arg.SamePromise? {
      var e := c.exports.Find(arg.id).value;
      UpdateKeepsIds(c.exports, arg.id, e.(wireRefs := e.wireRefs + 1));
    }
  }

  /** What a descriptor stands for does not change while others are written. */
  lemma StillDescribes(c: Conn, c1: Conn, c2: Conn, arg: CapArg, desc: Desc, descs: seq<Desc>, norm: Norm)
    requires OnlyExports(c, c1) && OnlyExports(c1, c2) && Exported(c1.exports, c2.exports, descs)
    ensures Describes(c, c1, arg, desc, norm) ==> Describes(c, c2, arg, desc, norm)
  {
    hide Granted;
    if desc.SenderHosted? || desc.SenderPromise? {
      assert Gained(c1.exports.Find(desc.id), c2.exports.Find(desc.id), Granted(descs, desc.id));
    }
  }

  lemma DescribedLater(c: Conn, c1: Conn, c2: Conn, arg: CapArg, d: Desc, desc: Desc, norm: Norm)
    requires OnlyExports(c, c1) && Exported(c.exports, c1.exports, [d]) && CanDescribe(c, arg)
    ensures CanDescribe(c1, arg)
    ensures Describes(c1, c2, arg, desc, norm) ==> Describes(c, c2, arg, desc, norm)
  {
    hide Granted;
    if arg.SamePromise? {
      assert Gained(c.exports.Find(arg.id), c1.exports.Find(arg.id), Granted([d], arg.id));
    }
  }

  /** The capability table a payload goes out with has one descriptor for each client, in the order of the
      clients, and only the export table has changed. */
  lemma {:induction false} DescribesEach(c: Conn, args: seq<CapArg>, norm: Norm)
    requires c.exports.Valid() && CanDescribeAll(c, args)
    ensures var (c', descs) := DescribeAll(c, args, norm);
      && DescribesAll(c, c', args, descs, norm)
      && c' == c.(exports := c'.exports) && c'.exports.Valid()
    decreases |args|
  {
    if args != [] {
      hide Describe, Exported, Describes, CanDescribe;
      var (c1, desc) := Describe(c, args[0], norm);
      var (c2, descs) := DescribeAll(c1, args[1..], norm);
      DescribesOne(c, args[0], norm);
      DescribeExports(c, args[0], norm);
      ExportedIsValid(c.exports, c1.exports, [desc]);
      forall arg | arg in args[1..]
        ensures CanDescribe(c1, arg)
      {
        DescribedLater(c, c1, c2, arg, desc, NoCap, norm);
      }
      DescribesEach(c1, args[1..], norm);
      DescribeAllExports(c1, args[1..], norm);
      StillDescribes(c, c1, c2, args[0], desc, descs, norm);
      forall i | 0 <= i < |args|
        ensures Describes(c, c2, args[i], ([desc] + descs)[i], norm)
      {
        if i > 0 {
          assert args[i] == args[1..][i - 1] && Describes(c1, c2, args[1..][i - 1], descs[i - 1], norm);
          DescribedLater(c, c1, c2, args[i], desc, descs[i - 1], norm);
        }
      }
    }
  }

  lemma HostedIdsStep(descs: seq<Desc>)
    requires descs != []
    ensures HostedIds(descs) == (if descs[0].SenderHosted? then [descs[0].id] else []) + HostedIds(descs[1..])
  {
  }

  /** The exports a payload is remembered by: the id of every senderHosted descriptor, in order, and
      nothing for any other. */
  lemma {:induction false} HostedIdsAre(a: seq<Desc>, b: seq<Desc>)
    ensures HostedIds([]) == []
    ensures |a| == 1 ==> HostedIds(a) == if a[0].SenderHosted? then [a[0].id] else []
    ensures HostedIds(a + b) == HostedIds(a) + HostedIds(b)
    decreases |a|
  {
    assert HostedIds([]) == [];
    if a == [] {
      assert a + b == b;
    } else {
      hide HostedIds;
      var head := if a[0].SenderHosted? then [a[0].id] else [];
      assert (a + b)[1..] == a[1..] + b && (|a| == 1 ==> a[1..] == []);
      HostedIdsStep(a);
      HostedIdsStep(a + b);
      HostedIdsAre(a[1..], b);
      assert head + HostedIds(a[1..]) + HostedIds(b) == head + (HostedIds(a[1..]) + HostedIds(b));
    }
  }

  // ---------------------------------------------------------------------------------------------
  // What a vat sends of its own accord

  /** The message goes to what the caller means. */
  predicate Aims(c: Conn, to: CallTo, target: Target) {
    match to
    case ToImport(id) => target.ImportedCap? && target.id == id && id in c.imports && c.imports[id].obj == target.obj
    case ToAnswer(q) => target.PromisedAnswer? && target.q == q && Asked(c, q) == Some(target.serial)
  }

  /** A call goes out once, with its own body, on a question id nobody uses, and its parameters are
      described one for one. */
  lemma CallIsSent(c: Conn, to: CallTo, args: seq<CapArg>, body: Body, norm: Norm)
    requires c.questions.Valid() && c.exports.Valid() && CanCall(c, to) && CanDescribeAll(c, args)
    ensures var (c', out) := SendCall(c, to, args, body, norm);
      && |out| == 1 && out[0].Call? && out[0].body == body && Aims(c, to, out[0].target)
      && DescribesAll(c, c', args, out[0].caps, norm)
      && Asked(c, out[0].q).None? && c'.questions.Find(out[0].q) == Some(Question(out[0].serial, HostedIds(out[0].caps)))
      && (forall q: nat :: q != out[0].q ==> c'.questions.Find(q) == c.questions.Find(q))
      && c' == c.(questions := c'.questions, exports := c'.exports, serial := c'.serial)
  {
    hide DescribeAll, Describes, CanDescribe, DescribesAll;
    DescribesEach(c, args, norm);
    var (c1, descs) := DescribeAll(c, args, norm);
    DescribesByExports(c, c1, SendCall(c, to, args, body, norm).0, args, descs, norm);
    AllocIsFresh(c.questions, Question(c.serial, HostedIds(descs)));
  }

  lemma DescribesByExports(c: Conn, c1: Conn, c2: Conn, args: seq<CapArg>, descs: seq<Desc>, norm: Norm)
    requires DescribesAll(c, c1, args, descs, norm) && c2.exports == c1.exports
    ensures DescribesAll(c, c2, args, descs, norm)
  {
    forall i | 0 <= i < |args|
      ensures Describes(c, c2, args[i], descs[i], norm)
    {
      assert Describes(c, c1, args[i], descs[i], norm);
    }
  }

  /** The first settlement of an answer sends one Return: an exception if and only if it is a rejection, and
      otherwise results described one for one.  A second sends nothing and changes nothing. */
  lemma SettlementIsReturned(c: Conn, q: nat, how: Settlement, norm: Norm)
    requires c.exports.Valid() && q in c.answers && (how.Fulfill? ==> CanDescribeAll(c, how.args))
    ensures var (c', out) := Settle(c, q, how, norm);
      if c.answers[q].done then c' == c && out == []
      else
        && |out| == 1 && out[0].Return? && out[0].q == q && out[0].serial == c.answers[q].serial && !out[0].releaseParamCaps
        && (out[0].outcome.Exception? <==> how.Reject?)
        && (how.Fulfill? ==> DescribesAll(c, c', how.args, out[0].outcome.caps, norm))
        && c'.answers == c.answers[q := Answer(c.answers[q].serial, true, if how.Reject? then c.answers[q].resultCaps else HostedIds(Descs(out[0])))]
        && c' == c.(answers := c'.answers, exports := if how.Reject? then c.exports else c'.exports)
  {
    if how.Fulfill? {
      DescribesEach(c, how.args, norm);
    }
    hide DescribeAll, Describes, CanDescribe;
  }

  /** A Bootstrap is answered at once, with an exception if and only if the vat has no main client or the
      id is in use, and otherwise with the main client alone. */
  lemma BootstrapIsAnswered(c: Conn, q: nat, serial: nat, norm: Norm)
    requires c.exports.Valid()
    ensures var (c', out) := HandleBootstrap(c, q, serial, norm);
      && |out| == 1 && out[0].Return? && out[0].q == q && out[0].serial == serial
      && (out[0].outcome.Exception? <==> c.main.None? || q in c.answers)
      && (out[0].outcome.Results? ==> DescribesAll(c, c', [Hosted(c.main.value)], out[0].outcome.caps, norm))
      && (if q in c.answers then c' == c
          else c'.answers == c.answers[q := Answer(serial, true, HostedIds(Descs(out[0])))]
               && c' == c.(answers := c'.answers, exports := c'.exports))
  {
    if q !in c.answers {
      var c1 := InsertAnswer(c, q, serial);
      var how := if c.main.None? then Settlement.Reject else Fulfill([Hosted(c.main.value)]);
      SettlementIsReturned(c1, q, how, norm);
      hide Settle;
      if how.Fulfill? {
        var (c', out) := Settle(c1, q, how, norm);
        assert Describes(c1, c', how.args[0], out[0].outcome.caps[0], norm);
      }
    }
  }

  /** What initMain was given is what a Bootstrap then returns. */
  lemma MainIsServed(c: Conn, obj: nat, q: nat, serial: nat, norm: Norm)
    requires c.exports.Valid() && q !in c.answers
    ensures var (c', out) := HandleBootstrap(InitMain(c, obj, norm), q, serial, norm);
      && |out| == 1 && out[0].Return? && out[0].outcome.Results? && |out[0].outcome.caps| == 1
      && out[0].outcome.caps[0].SenderHosted?
      && Holds(c', out[0].outcome.caps[0].id, out[0].outcome.caps[0].obj, obj, norm)
  {
    AddExportCounts(c.exports, obj, norm);
    var c1 := InitMain(c, obj, norm);
    BootstrapIsAnswered(c1, q, serial, norm);
    hide HandleBootstrap;
    var (c', out) := HandleBootstrap(c1, q, serial, norm);
    assert Describes(c1, c', [Hosted(obj)][0], out[0].outcome.caps[0], norm);
  }

  /** What a promise became is announced once, an error as an error and a client as a client. */
  lemma ResolutionIsAnnounced(c: Conn, promiseId: nat, to: Option<CapArg>, norm: Norm)
    requires c.exports.Valid() && (to.Some? ==> CanDescribe(c, to.value))
    ensures var (c', out) := SendResolve(c, promiseId, to, norm);
      && |out| == 1 && out[0].Resolve? && out[0].promiseId == promiseId
      && (out[0].resolution.ToException? <==> to.None?)
      && (to.Some? ==> Describes(c, c', to.value, out[0].resolution.desc, norm))
      && c' == c.(exports := if to.None? then c.exports else c'.exports)
  {
    if to.Some? {
      DescribesOne(c, to.value, norm);
      DescribeExports(c, to.value, norm);
      hide Describe, Describes, Exported;
    }
  }

  // ---------------------------------------------------------------------------------------------
  // References given back

  /** The table after `refs` references of slot `id` were given back: a slot left with none is free, and
      every other keeps its client and count. */
  ghost predicate GaveBack(t: IdTable<Export>, t': IdTable<Export>, back: multiset<nat>) {
    && ExportsOk(t')
    && forall id: nat ::
         t'.Find(id) ==
           if t.Find(id).Some? && t.Find(id).value.wireRefs > back[id]
           then Some(t.Find(id).value.(wireRefs := t.Find(id).value.wireRefs - back[id])) else None
  }

  lemma ReleaseGivesBack(t: IdTable<Export>, id: nat, refs: nat)
    requires ExportsOk(t)
    ensures GaveBack(t, ReleaseExport(t, id, refs), multiset{}[id := refs])
  {
    if t.Find(id).Some? {
      var e := t.Find(id).value;
      if e.wireRefs > refs {
        UpdateKeepsIds(t, id, e.(wireRefs := e.wireRefs - refs));
      } else if refs > 0 {
        DropRecycles(t, id);
      }
    }
  }

  lemma {:induction false} ReleaseAllGivesBack(t: IdTable<Export>, ids: seq<nat>)
    requires ExportsOk(t)
    ensures GaveBack(t, ReleaseAll(t, ids), multiset(ids))
    decreases |ids|
  {
    if ids != [] {
      var t1 := ReleaseExport(t, ids[0], 1);
      ReleaseGivesBack(t, ids[0], 1);
      ReleaseAllGivesBack(t1, ids[1..]);
      hide ReleaseExport, GaveBack;
      assert ids == [ids[0]] + ids[1..];
      assert multiset(ids) == multiset{ids[0]} + multiset(ids[1..]);
      GaveBackThen(t, t1, ReleaseAll(t1, ids[1..]), multiset{}[ids[0] := 1], multiset(ids[1..]), multiset(ids));
    }
  }

  lemma GaveBackThen(t: IdTable<Export>, t1: IdTable<Export>, t2: IdTable<Export>, a: multiset<nat>, b: multiset<nat>, all: multiset<nat>)
    requires GaveBack(t, t1, a) && GaveBack(t1, t2, b) && forall id: nat :: all[id] == a[id] + b[id]
    ensures GaveBack(t, t2, all)
  {
    hide ExportsOk;
  }

  lemma {:induction false} ReverseIsPermuted(ids: seq<nat>)
    ensures multiset(Reverse(ids)) == multiset(ids)
  {
    if ids != [] {
      ReverseIsPermuted(ids[1..]);
      assert ids == [ids[0]] + ids[1..];
    }
  }

  /** A Finish forgets the answer, and gives back the references its results are remembered by if and only
      if it says so. */
  lemma FinishGivesBack(c: Conn, q: nat, releaseResultCaps: bool)
    requires ExportsOk(c.exports)
    ensures var c' := HandleFinish(c, q, releaseResultCaps);
      && q !in c'.answers && (forall p :: p in c.answers && p != q ==> p in c'.answers && c'.answers[p] == c.answers[p])
      && c'.answers.Keys <= c.answers.Keys
      && GaveBack(c.exports, c'.exports, if releaseResultCaps && q in c.answers then multiset(c.answers[q].resultCaps) else multiset{})
      && c' == c.(answers := c'.answers, exports := c'.exports)
  {
    if q in c.answers && releaseResultCaps {
      var ids := c.answers[q].resultCaps;
      ReleaseAllGivesBack(c.exports, Reverse(ids));
      ReverseIsPermuted(ids);
    }
  }

  /** A Return closes its question, gives back the references the parameters are remembered by if and only
      if it says so, takes in what the results carry, and is finished, with the results released if and
      only if there are none.  One for no question aborts. */
  lemma ReturnIsFinished(c: Conn, m: Message)
    requires m.Return? && ExportsOk(c.exports) && c.questions.Valid()
    ensures var (c', out) := HandleReturn(c, m);
      var known := c.questions.Find(m.q).Some?;
      && (out == [Abort] <==> !known || !Resolvable(c', Descs(m)))
      && (out == [Abort] || out == [Finish(m.q, m.outcome.Exception?)])
      && c'.aborted == (c.aborted || out == [Abort])
      && (known ==>
            && c'.questions.Find(m.q).None? && c'.questions.Valid()
            && (forall q: nat :: q != m.q ==> c'.questions.Find(q) == c.questions.Find(q))
            && GaveBack(c.exports, c'.exports,
                        if m.releaseParamCaps then multiset(c.questions.Find(m.q).value.paramCaps) else multiset{})
            && c' == c.(questions := c'.questions, exports := c'.exports, imports := c'.imports, aborted := c'.aborted))
      && (out != [Abort] && ImportsOk(c) ==> TookIn(c, c', Descs(m)))
  {
    if c.questions.Find(m.q).Some? {
      var question := c.questions.Find(m.q).value;
      DropRecycles(c.questions, m.q);
      ReleaseAllGivesBack(c.exports, question.paramCaps);
      var c1 := c.(questions := c.questions.Drop(m.q));
      var c2 := if m.releaseParamCaps then c1.(exports := ReleaseAll(c1.exports, question.paramCaps)) else c1;
      hide ReleaseAll, Populate, GaveBack, Resolvable, TookIn, ExportsOk;
      assert !m.releaseParamCaps ==> GaveBack(c.exports, c2.exports, multiset{}) by { NothingGivenBack(c.exports); }
      PopulateIffResolvable(c2, Descs(m));
      ResolvableByTables(c2, HandleReturn(c, m).0, Descs(m));
      if ImportsOk(c) && Resolvable(c2, Descs(m)) {
        TookInTables(c2, Populate(c2, Descs(m)).value, c, HandleReturn(c, m).0, Descs(m));
      }
    } else {
      assert HandleReturn(c, m).0 == c.(aborted := true);
    }
  }

  lemma NothingGivenBack(t: IdTable<Export>)
    requires ExportsOk(t)
    ensures GaveBack(t, t, multiset{})
  {
  }

  // ---------------------------------------------------------------------------------------------
  // Descriptors and calls received

  /** Taking in descriptors fails if and only if one of them names an export or an answer this vat does not
      have; otherwise the import table alone changes, by what they hand over. */
  lemma {:induction false} PopulateIffResolvable(c: Conn, descs: seq<Desc>)
    ensures Populate(c, descs).Some? <==> Resolvable(c, descs)
    ensures Populate(c, descs).Some? ==>
      Populate(c, descs).value == c.(imports := Populate(c, descs).value.imports)
      && (ImportsOk(c) ==> TookIn(c, Populate(c, descs).value, descs))
    decreases |descs|
  {
    if descs == [] {
      NothingTaken(c);
    } else {
      var c1 := TakeOne(c, descs[0]);
      if ResolvesHere(c, descs[0]) {
        PopulateOn(c, descs);
        PopulateIffResolvable(c1, descs[1..]);
        ResolvableSplit(c, c1, descs);
        if ImportsOk(c) && Populate(c, descs).Some? {
          PopulateTakesIn(c, descs);
        }
      } else {
        assert Populate(c, descs).None?;
        assert !ResolvesHere(c, descs[0]);
        ResolvableSplit(c, c1, descs);
      }
    }
  }

  /** An import taken in is a promise if and only if it was one or was handed over as one. */
  lemma {:induction false} PromisesAre(c: Conn, descs: seq<Desc>, id: nat)
    requires Populate(c, descs).Some?
    ensures var c' := Populate(c, descs).value;
      IsPromise(c', id) <==> IsPromise(c, id) || exists d :: d in descs && d.SenderPromise? && d.id == id
    decreases |descs|
  {
    if descs != [] {
      var c1 := TakeOne(c, descs[0]);
      PopulateOn(c, descs);
      assert IsPromise(c1, id) <==> IsPromise(c, id) || (descs[0].SenderPromise? && descs[0].id == id);
      hide Populate, AddImport, TakeOne;
      PromisesAre(c1, descs[1..], id);
      assert descs == [descs[0]] + descs[1..];
    }
  }

  predicate IsPromise(c: Conn, id: nat) {
    id in c.imports && c.imports[id].isPromise
  }

  predicate ResolvesHere(c: Conn, d: Desc) {
    (d.ReceiverHosted? ==> c.exports.Find(d.id).Some?) && (d.ReceiverAnswer? ==> d.q in c.answers)
  }

  lemma NothingTaken(c: Conn)
    ensures ImportsOk(c) ==> TookIn(c, c, [])
  {
  }

  lemma PopulateOn(c: Conn, descs: seq<Desc>)
    requires descs != [] && ResolvesHere(c, descs[0])
    ensures Populate(c, descs) == Populate(TakeOne(c, descs[0]), descs[1..])
    ensures TakeOne(c, descs[0]) == c.(imports := TakeOne(c, descs[0]).imports)
  {
  }

  lemma ResolvableSplit(c: Conn, c1: Conn, descs: seq<Desc>)
    requires descs != [] && c1.exports == c.exports && c1.answers == c.answers
    ensures Resolvable(c, descs) <==> ResolvesHere(c, descs[0]) && Resolvable(c1, descs[1..])
  {
    ResolvableIs(c, descs);
    ResolvableIs(c1, descs[1..]);
    assert descs == [descs[0]] + descs[1..];
  }

  lemma ResolvableIs(c: Conn, descs: seq<Desc>)
    ensures Resolvable(c, descs) <==> forall d :: d in descs ==> ResolvesHere(c, d)
  {
    if Resolvable(c, descs) {
      forall d | d in descs
        ensures ResolvesHere(c, d)
      {
        var k :| 0 <= k < |descs| && descs[k] == d;
      }
    }
    if forall d :: d in descs ==> ResolvesHere(c, d) {
      forall k | 0 <= k < |descs|
        ensures ResolvesHere(c, descs[k])
      {
        assert descs[k] in descs;
      }
    }
  }

  /** There is something to send the call to: an export, or another answer. */
  predicate Routable(c: Conn, m: Message)
    requires m.Call?
  {
    match m.target
    case ImportedCap(id, _) => c.exports.Find(id).Some?
    case PromisedAnswer(q, _) => q != m.q && q in c.answers
  }

  /** A call aborts the connection if and only if it names something that is not here, reuses a question id,
      or, its method being known, cannot be routed.  Otherwise its descriptors are taken in, and it is
      refused at once or leaves a pending answer. */
  lemma CallIsAccepted(c: Conn, m: Message, lookup: Lookup)
    requires m.Call?
    ensures var (c', out) := HandleCall(c, m, lookup);
      && (out == [Abort] <==> !Resolvable(c, m.caps) || m.q in c.answers || (lookup.Known? && !Routable(c, m)))
      && c'.aborted == (c.aborted || out == [Abort])
      && (out != [Abort] ==>
            && out == (if lookup.Known? then [] else [Return(m.q, m.serial, true, Exception)])
            && c'.answers == (if lookup.Known? then c.answers[m.q := Answer(m.serial, false, [])] else c.answers)
            && c' == c.(answers := c'.answers, imports := c'.imports)
            && (ImportsOk(c) ==> TookIn(c, c', m.caps)))
  {
    PopulateIffResolvable(c, m.caps);
    hide Populate, Resolvable, TookIn;
    if Populate(c, m.caps).Some? {
      var c1 := Populate(c, m.caps).value;
      var c2 := InsertAnswer(c1, m.q, m.serial);
      if ImportsOk(c) {
        TookInTables(c, c1, c, c2, m.caps);
      }
    }
  }

  /** What was taken in shows in the import table alone. */
  lemma TookInTables(c: Conn, c1: Conn, d: Conn, d1: Conn, descs: seq<Desc>)
    requires TookIn(c, c1, descs) && d.imports == c.imports && d1.imports == c1.imports
    ensures TookIn(d, d1, descs)
  {
    forall id: nat
      ensures ImportRefs(d1, id) == ImportRefs(d, id) + Granted(descs, id)
    {
      assert ImportRefs(c1, id) == ImportRefs(c, id) + Granted(descs, id);
    }
  }

  lemma ResolvableByTables(c: Conn, d: Conn, descs: seq<Desc>)
    requires d.exports == c.exports && d.answers == c.answers
    ensures Resolvable(d, descs) <==> Resolvable(c, descs)
  {
  }

  // ---------------------------------------------------------------------------------------------
  // Resolutions and disembargoes received

  /** Something of the receiver's own: one of its exports or the result of one of its answers. */
  predicate NamesReceiver(desc: Desc) {
    desc.ReceiverHosted? || desc.ReceiverAnswer?
  }

  /** A promise import that resolves is a promise no more.  If and only if it turns out to be something of
      the receiver's own, exactly one Disembargo is sent, for the embargo given and to that promise. */
  lemma ResolveIsHeard(c: Conn, p: nat, resolution: Resolution, embargoId: nat)
    requires p in c.imports && c.imports[p].isPromise
    ensures var (c', out) := HandleResolve(c, Resolve(p, resolution), embargoId);
      var bad := resolution.ToCap? && (resolution.desc.NoCap? || !ResolvesHere(c, resolution.desc));
      && c'.aborted == (c.aborted || bad)
      && (bad ==> out == [Abort])
      && (!bad ==>
            && (if resolution.ToCap? && NamesReceiver(resolution.desc)
                then |out| == 1 && out[0].Disembargo? && out[0].context == SenderLoopback(embargoId)
                     && out[0].target == ImportedCap(p, c.imports[p].obj)
                else out == [])
            && p in c'.imports && c'.imports[p].obj == c.imports[p].obj
            && (c'.imports[p].isPromise <==> resolution.ToCap? && resolution.desc.SenderPromise? && resolution.desc.id == p)
            && c' == c.(imports := c'.imports))
  {
    if resolution.ToCap? {
      var c1 := c.(imports := c.imports[p := c.imports[p].(isPromise := false)]);
      assert [resolution.desc][1..] == [];
      if ResolvesHere(c, resolution.desc) {
        PopulateOn(c1, [resolution.desc]);
        assert Populate(TakeOne(c1, resolution.desc), []) == Some(TakeOne(c1, resolution.desc));
      }
    }
  }

  /** A Resolve nobody waits for changes no table.  What it handed over goes back at once, and what it names
      has to be there. */
  lemma LateResolveIsReturned(c: Conn, p: nat, resolution: Resolution, embargoId: nat)
    requires p in c.imports ==> !c.imports[p].isPromise
    ensures var (c', out) := HandleResolve(c, Resolve(p, resolution), embargoId);
      match resolution
      case ToException => c' == c && out == []
      case ToCap(desc) =>
        && c' == c.(aborted := c'.aborted)
        && (c'.aborted == (c.aborted || out == [Abort]))
        && (out == [Abort] <==> desc.NoCap? || !ResolvesHere(c, desc))
        && (out != [Abort] ==> forall id: nat :: ReleasesInFlight(out, id) == Granted([desc], id))
        && |out| <= 1
  {
    if resolution.ToCap? {
      var out := HandleResolve(c, Resolve(p, resolution), embargoId).1;
      forall id: nat | out != [Abort]
        ensures ReleasesInFlight(out, id) == Granted([resolution.desc], id)
      {
        GrantedOne(resolution.desc, id);
        if out != [] {
          OneGrant(out[0], id);
          assert out == [out[0]];
        }
      }
    }
  }

  // ---------------------------------------------------------------------------------------------
  // The other messages

  /** A Release gives back as many references as it says; an Abort ends the connection; a message the peer did
      not know is ignored; and only a Disembargo is answered among them. */
  lemma OthersAreHandled(c: Conn, m: Message, lookup: Lookup, embargoId: nat, norm: Norm)
    requires ExportsOk(c.exports) && (m.Release? || m.Abort? || m.Unimplemented? || m.Disembargo?)
    ensures var (c', out) := Handle(c, m, lookup, embargoId, norm);
      && GaveBack(c.exports, c'.exports, if m.Release? then multiset{}[m.id := m.referenceCount] else multiset{})
      && c' == c.(exports := c'.exports, aborted := c.aborted || m.Abort?)
      && (m.Disembargo? && m.context.SenderLoopback? ==> out == [Disembargo(ReceiverLoopback(m.context.id), m.target)])
      && ((m.Disembargo? && m.context.SenderLoopback?) || out == [])
  {
    if m.Release? {
      ReleaseGivesBack(c.exports, m.id, m.referenceCount);
    } else {
      NothingGivenBack(c.exports);
    }
    hide ReleaseExport, GaveBack;
  }

  // ---------------------------------------------------------------------------------------------
  // Local references

  /** Closing one of several references to an import sends nothing, and the import stays as it is but for the
      number of references; closing the last ends it and gives back all that was handed over, in one
      Release. */
  lemma CloseOne(c: Conn, id: nat)
    requires id in c.imports && c.imports[id].live >= 1 && c.imports[id].refs >= 1
    ensures var (c', out) := DropRef(c, id);
      var e := c.imports[id];
      && (forall k :: k in c.imports && k != id ==> k in c'.imports && c'.imports[k] == c.imports[k])
      && c'.imports.Keys <= c.imports.Keys && c' == c.(imports := c'.imports)
      && (e.live > 1 ==> out == [] && id in c'.imports && c'.imports[id] == e.(live := e.live - 1))
      && (e.live == 1 ==> out == [Release(id, e.refs)] && id !in c'.imports)
  {
  }

  /** Giving back references of an import one side at a time: what is left and what a Release says amount to
      what was there, and the import is gone exactly when nothing is left. */
  lemma ReleaseImportBalances(c: Conn, id: nat, refs: nat)
    requires id in c.imports && c.imports[id].refs >= 1
    ensures var (c', out) := ReleaseImport(c, id, refs);
      var e := c.imports[id];
      && (forall k :: k in c.imports && k != id ==> k in c'.imports && c'.imports[k] == c.imports[k])
      && c'.imports.Keys <= c.imports.Keys && c' == c.(imports := c'.imports)
      && (id in c'.imports <==> refs < e.refs)
      && (refs < e.refs ==> c'.imports[id] == e.(refs := e.refs - refs) && out == [])
      && (refs >= e.refs ==> out == [Release(id, e.refs)])
  {
  }
}
