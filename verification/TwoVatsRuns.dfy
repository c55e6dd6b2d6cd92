/** What holds in every reachable state of the two-vat system, and what adds up over every run. */
module TwoVatsRuns {

  // Reference counts are conserved, nothing in flight names a capability or an answer that is gone,
  // questions and answers correspond, and so neither connection ever aborts.  And over a whole run:
  // every descriptor an importer was handed is counted in the import's entry or was given back.

  import opened Options
  import opened IdTables
  import opened RpcMessages
  import opened ConnTables
  import opened TwoVats
  import opened References
  import opened Questions
  import opened TwoVatsSafety
  import opened ConnLaws

  /** Reference counts are conserved in every reachable state, for the exports of either vat. */
  lemma CountsConserved(run: seq<System>, id: nat)
    requires Run(run)
    ensures var s := run[|run| - 1];
      && Wire(s.c, id) == s.c.pins[id] + GrantsInFlight(s.cd, id) + ImportRefs(s.d, id) + ReleasesInFlight(s.dc, id)
      && Wire(s.d, id) == s.d.pins[id] + GrantsInFlight(s.dc, id) + ImportRefs(s.c, id) + ReleasesInFlight(s.cd, id)
  {
    RunIsSafe(run);
  }

  /** Whatever is still to be delivered before it, a message names exports of its receiver that are
      there, and hold the client the sender meant, when it arrives. */
  lemma NothingDangles(run: seq<System>, i: nat, id: nat, obj: nat)
    requires Run(run)
    ensures var s := run[|run| - 1];
      && (i < |s.dc| && Names(s.dc[i], id, obj) ==>
            ReleasesInFlight(s.dc[..i], id) < Wire(s.c, id) && ExportedObj(s.c, id) == Some(obj))
      && (i < |s.cd| && Names(s.cd[i], id, obj) ==>
            ReleasesInFlight(s.cd[..i], id) < Wire(s.d, id) && ExportedObj(s.d, id) == Some(obj))
      && (id in s.c.imports ==> ExportedObj(s.d, id) == Some(s.c.imports[id].obj))
      && (id in s.d.imports ==> ExportedObj(s.c, id) == Some(s.d.imports[id].obj))
  {
    RunIsSafe(run);
    var s := run[|run| - 1];
    assert i < |s.dc| ==> NamesLiveAt(s.c, s.dc[..i], s.dc[i]);
    assert i < |s.cd| ==> NamesLiveAt(s.d, s.cd[..i], s.cd[i]);
  }

  /** No protocol error is ever raised, and a Return reaches the question it answers. */
  lemma NeverAborts(run: seq<System>)
    requires Run(run)
    ensures var s := run[|run| - 1];
      && !s.c.aborted && !s.d.aborted
      && (s.dc != [] && s.dc[0].Return? ==> Asked(s.c, s.dc[0].q) == Some(s.dc[0].serial))
      && (s.cd != [] && s.cd[0].Return? ==> Asked(s.d, s.cd[0].q) == Some(s.cd[0].serial))
  {
    RunIsSafe(run);
    var s := run[|run| - 1];
    if s.dc != [] && s.dc[0].Return? { NoReturnInFlight(s.c, s.d, s.dc, 0); }
    if s.cd != [] && s.cd[0].Return? { NoReturnInFlight(s.d, s.c, s.cd, 0); }
  }

  /** In every reachable state an open question of `c` is in exactly one phase, and a free id in
      none. */
  lemma QuestionsInPhase(run: seq<System>, q: nat)
    requires Run(run)
    ensures var s := run[|run| - 1];
      match Asked(s.c, q)
      case None =>
        && (forall t: nat :: !InFlight(s.cd, q, t) && ReturnsInFlight(s.dc, q, t) == 0)
        && (q in s.d.answers ==> s.d.answers[q].done && FinishInFlight(s.cd, q))
      case Some(t) =>
        && (InFlight(s.cd, q, t) || Pending(s.d, q, t) || ReturnsInFlight(s.dc, q, t) == 1)
        && !(InFlight(s.cd, q, t) && Pending(s.d, q, t))
        && (InFlight(s.cd, q, t) || Pending(s.d, q, t) ==> ReturnsInFlight(s.dc, q, t) == 0)
        && (InFlight(s.cd, q, t) || !FinishInFlight(s.cd, q))
  {
    RunIsSafe(run);
    var s := run[|run| - 1];
    if Asked(s.c, q).None? {
      FreeQuestionPhase(s.c, s.d, s.cd, s.dc, q);
    } else {
      OpenQuestionPhase(s.c, s.d, s.cd, s.dc, q, Asked(s.c, q).value);
    }
  }

  /** A pipelined call, or a descriptor of a promised answer, finds the answer entry of exactly the
      question it was made on when everything ahead of it has been handled. */
  lemma PipelinedCallsFindAnswers(run: seq<System>, i: nat, q: nat, t: nat)
    requires Run(run)
    ensures var s := run[|run| - 1];
      && (i < |s.dc| && Refers(s.dc[i], q, t) ==> AnswerAfter(Answering(s.c, q), s.dc[..i], q) == Some(t))
      && (i < |s.cd| && Refers(s.cd[i], q, t) ==> AnswerAfter(Answering(s.d, q), s.cd[..i], q) == Some(t))
  {
    RunIsSafe(run);
    var s := run[|run| - 1];
    assert i < |s.dc| ==> InTurn(s.c, s.dc[..i], s.dc[i]);
    assert i < |s.cd| ==> InTurn(s.d, s.cd[..i], s.cd[i]);
  }

  /** The id tables stay consistent in every run: as long as their counter, with exactly the
      recycled slots empty. */
  lemma IdTablesValid(run: seq<System>)
    requires Run(run)
    ensures var s := run[|run| - 1];
      && s.c.questions.Valid() && s.c.exports.Valid() && s.d.questions.Valid() && s.d.exports.Valid()
  {
    RunIsSafe(run);
  }

  /** Closing the last local reference ends the import with one Release for all that was handed
      over, and afterwards the importer counts nothing. */
  lemma ImportEndsWithOneRelease(run: seq<System>, id: nat)
    requires Run(run)
    ensures var s := run[|run| - 1];
      id in s.c.imports && s.c.imports[id].live == 1 ==>
        var (c', out) := DropRef(s.c, id);
        && out == [Release(id, s.c.imports[id].refs)] && id !in c'.imports
        && s.c.imports[id].refs + GrantsInFlight(s.dc, id) <= Wire(s.d, id)
  {
    RunIsSafe(run);
  }

  // ---------------------------------------------------------------------------------------------
  // Received, held and given back

  /** One vat acts: `c`, or `d`. */
  datatype Turn = Turn(byC: bool, action: Action, norm: Norm)

  predicate Possible(s: System, t: Turn) {
    Enabled(if t.byC then s else Swap(s), t.action)
  }

  function Take(s: System, t: Turn): System
    requires Possible(s, t)
  {
    if t.byC then Act(s, t.action, t.norm) else Swap(Act(Swap(s), t.action, t.norm))
  }

  predicate Playable(turns: seq<Turn>)
    decreases |turns|, 0
  {
    turns != [] ==>
      var n := |turns| - 1;
      Playable(turns[..n]) && Possible(After(turns[..n]), turns[n])
  }

  /** The state the turns lead to. */
  function After(turns: seq<Turn>): System
    requires Playable(turns)
    decreases |turns|, 1
  {
    if turns == [] then Start()
    else
      var n := |turns| - 1;
      Take(After(turns[..n]), turns[n])
  }

  /** What `c` puts on the channel in its turn. */
  function Sent(s: System, t: Turn): seq<Message>
    requires Possible(s, t)
  {
    var s' := Take(s, t);
    if t.byC && |s.cd| <= |s'.cd| then s'.cd[|s.cd|..] else []
  }

  /** How many descriptors of import `id` the messages `c` received carried. */
  function Received(turns: seq<Turn>, id: nat): nat
    requires Playable(turns)
    decreases |turns|
  {
    if turns == [] then 0
    else
      var n := |turns| - 1;
      Received(turns[..n], id)
      + if turns[n].byC && turns[n].action.DoReceive? then Granted(Descs(After(turns[..n]).dc[0]), id) else 0
  }

  /** How many references of import `id` the Release messages `c` sent gave back. */
  function Released(turns: seq<Turn>, id: nat): nat
    requires Playable(turns)
    decreases |turns|
  {
    if turns == [] then 0
    else
      var n := |turns| - 1;
      Released(turns[..n], id) + ReleasesInFlight(Sent(After(turns[..n]), turns[n]), id)
  }

  lemma TurnIsStep(s: System, t: Turn)
    requires Possible(s, t)
    ensures Next(s, Take(s, t))
  {
    hide Act, Enabled;
    if t.byC {
      assert StepOfC(s, Take(s, t));
    } else {
      assert StepOfC(Swap(s), Swap(Take(s, t)));
    }
  }

  /** Turns make up runs. */
  lemma {:induction false} TurnsAreRuns(turns: seq<Turn>) returns (run: seq<System>)
    requires Playable(turns)
    ensures Run(run) && run[|run| - 1] == After(turns)
    decreases |turns|
  {
    if turns == [] {
      run := [Start()];
    } else {
      var n := |turns| - 1;
      hide Act, Enabled, StepOfC;
      var front := TurnsAreRuns(turns[..n]);
      var s, s' := After(turns[..n]), After(turns);
      TurnIsStep(s, turns[n]);
      run := front + [s'];
    }
  }

  /** The channel keeps what is in it, and the peer does not move. */
  lemma TurnOfC(s: System, t: Turn)
    requires Possible(s, t) && t.byC
    ensures var s' := Take(s, t);
      && s'.d == s.d && s'.cd == s.cd + Sent(s, t)
      && (t.action.DoReceive? ==> s.dc != [])
      && s'.dc == if t.action.DoReceive? then s.dc[1..] else s.dc
  {
  }

  lemma TurnOfD(s: System, t: Turn)
    requires Possible(s, t) && !t.byC
    ensures Take(s, t).c == s.c && Sent(s, t) == []
  {
  }

  lemma ConservedAt(s: System, id: nat)
    requires Inv(s)
    ensures Wire(s.d, id) == s.d.pins[id] + GrantsInFlight(s.dc, id) + ImportRefs(s.c, id) + ReleasesInFlight(s.cd, id)
  {
  }

  /** In one turn of `c`, what is held and what is sent back grows by what is received. */
  lemma TurnBalances(s: System, t: Turn, id: nat)
    requires Possible(s, t) && t.byC && Inv(s) && Inv(Take(s, t))
    ensures ImportRefs(Take(s, t).c, id) + ReleasesInFlight(Sent(s, t), id)
         == ImportRefs(s.c, id) + if t.action.DoReceive? then Granted(Descs(s.dc[0]), id) else 0
  {
    hide Act, Take, Sent, Enabled, Inv, Wire, ImportRefs, ReleasesInFlight, Possible;
    TurnOfC(s, t);
    ConservedAt(s, id);
    ConservedAt(Take(s, t), id);
    ReleasesAppend(s.cd, Sent(s, t), id);
  }

  /** Over every run: descriptors received are references held plus references given back. */
  lemma {:induction false} ReceivedIsHeldOrReleased(turns: seq<Turn>, id: nat)
    requires Playable(turns)
    ensures Received(turns, id) == ImportRefs(After(turns).c, id) + Released(turns, id)
    decreases |turns|
  {
    if turns != [] {
      var n := |turns| - 1;
      ReceivedIsHeldOrReleased(turns[..n], id);
      var s, t := After(turns[..n]), turns[n];
      if t.byC {
        var run := TurnsAreRuns(turns[..n]);
        RunIsSafe(run);
        var run' := TurnsAreRuns(turns);
        RunIsSafe(run');
        hide Act, Enabled, Inv;
        TurnBalances(s, t, id);
      } else {
        TurnOfD(s, t);
      }
    }
  }

  /** So when an import has ended, the Releases sent for its id amount to exactly the descriptors
      received, in all its epochs together. */
  lemma EndedImportsOweNothing(turns: seq<Turn>, id: nat)
    requires Playable(turns)
    ensures id !in After(turns).c.imports ==> Released(turns, id) == Received(turns, id)
    ensures id in After(turns).c.imports ==>
      Received(turns, id) == After(turns).c.imports[id].refs + Released(turns, id) && After(turns).c.imports[id].refs > 0
  {
    ReceivedIsHeldOrReleased(turns, id);
    var run := TurnsAreRuns(turns);
    RunIsSafe(run);
    assert ImportsMatch(After(turns).d, After(turns).c);
  }

  // ---------------------------------------------------------------------------------------------
  // How long an import lasts

  function Live(c: Conn, id: nat): nat {
    if id in c.imports then c.imports[id].live else 0
  }

  /** A Resolve that is nobody's any more gives back what it carries instead of taking it in. */
  predicate IsLate(c: Conn, m: Message) {
    m.Resolve? && !(m.promiseId in c.imports && c.imports[m.promiseId].isPromise)
  }

  /** How many references to import `id` the application gets in a turn, and whether it closes one. */
  function TakenIn(s: System, t: Turn, id: nat): nat
    requires Possible(s, t)
  {
    if t.byC && t.action.DoReceive? && !IsLate(s.c, s.dc[0]) then Granted(Descs(s.dc[0]), id) else 0
  }

  predicate Closes(t: Turn, id: nat) {
    t.byC && t.action == DoDropRef(id)
  }

  /** What the application of `c` holds: references it got and has not closed. */
  function Held(turns: seq<Turn>, id: nat): int
    requires Playable(turns)
    decreases |turns|
  {
    if turns == [] then 0
    else
      var n := |turns| - 1;
      Held(turns[..n], id) + TakenIn(After(turns[..n]), turns[n], id) - (if Closes(turns[n], id) then 1 else 0)
  }

  lemma {:induction false} PopulateLive(c: Conn, descs: seq<Desc>, id: nat)
    requires Populate(c, descs).Some?
    ensures Live(Populate(c, descs).value, id) == Live(c, id) + Granted(descs, id)
    decreases |descs|
  {
    if descs != [] {
      var d := descs[0];
      var c1 := TakeOne(c, d);
      assert Populate(c, descs) == Populate(c1, descs[1..]);
      assert Live(c1, id) == Live(c, id) + (if (d.SenderHosted? || d.SenderPromise?) && d.id == id then 1 else 0);
      PopulateLive(c1, descs[1..], id);
    }
  }

  lemma ReceiveLive(c: Conn, m: Message, lookup: Lookup, embargoId: nat, norm: Norm, id: nat)
    requires !Handle(c, m, lookup, embargoId, norm).0.aborted
    ensures Live(Handle(c, m, lookup, embargoId, norm).0, id) == Live(c, id) + if IsLate(c, m) then 0 else Granted(Descs(m), id)
  {
    hide Populate, ReleaseAll, DescribeAll;
    match m {
      case Bootstrap(q, serial) =>
        if q !in c.answers && c.main.Some? {
          DescribeKeepsRest(InsertAnswer(c, q, serial), [Hosted(c.main.value)], norm);
        }
      case Call(_, _, _, caps, _) => PopulateLive(c, caps, id);
      case Return(q, _, release, outcome) =>
        if outcome.Results? {
          var c1 := c.(questions := c.questions.Drop(q));
          var c2 := if release then c1.(exports := ReleaseAll(c1.exports, c.questions.Find(q).value.paramCaps)) else c1;
          PopulateLive(c2, outcome.caps, id);
        }
      case Resolve(p, resolution) =>
        if !IsLate(c, m) && resolution.ToCap? {
          PopulateLive(c.(imports := c.imports[p := c.imports[p].(isPromise := false)]), [resolution.desc], id);
        }
      case _ =>
    }
  }

  lemma OwnTurnLive(s: System, a: Action, norm: Norm, id: nat)
    requires Enabled(s, a) && !a.DoReceive? && ImportsMatch(s.d, s.c)
    ensures Live(Act(s, a, norm).c, id) + (if a == DoDropRef(id) then 1 else 0) == Live(s.c, id)
  {
    hide DescribeAll, Describe, AddExport;
    match a {
      case DoCall(to, args, body) => DescribeKeepsRest(s.c, args, norm);
      case DoSettle(q, how) => if how.Fulfill? { DescribeKeepsRest(s.c, how.args, norm); }
      case DoResolve(p, cap) => if cap.Some? { DescribeOneKeepsRest(s.c, cap.value, norm); }
      case DoDropRef(k) => CloseOne(s.c, k);
      case _ =>
    }
  }

  lemma DescribeOneKeepsRest(c: Conn, arg: CapArg, norm: Norm)
    ensures Describe(c, arg, norm).0 == c.(exports := Describe(c, arg, norm).0.exports)
  {
  }

  lemma LiveTurn(s: System, t: Turn, id: nat)
    requires Possible(s, t) && Inv(s) && Inv(Take(s, t))
    ensures Live(Take(s, t).c, id) + (if Closes(t, id) then 1 else 0) == Live(s.c, id) + TakenIn(s, t, id)
  {
    Sound(s);
    Sound(Take(s, t));
    hide Inv, Handle, RefLink, ImportsMatch, Act, Take, Enabled;
    if !t.byC {
      TurnOfD(s, t);
    } else if t.action.DoReceive? {
      TurnReceives(s, t);
      ReceiveLive(s.c, s.dc[0], Known, t.action.embargoId, t.norm, id);
    } else {
      TurnOfItsOwn(s, t);
      OwnTurnLive(s, t.action, t.norm, id);
    }
  }

  lemma TurnOfItsOwn(s: System, t: Turn)
    requires Possible(s, t) && t.byC
    ensures Enabled(s, t.action) && Take(s, t) == Act(s, t.action, t.norm)
  {
  }

  lemma TurnReceives(s: System, t: Turn)
    requires Possible(s, t) && t.byC && t.action.DoReceive?
    ensures s.dc != [] && Take(s, t).c == Handle(s.c, s.dc[0], Known, t.action.embargoId, t.norm).0
  {
  }

  lemma Sound(s: System)
    requires Inv(s)
    ensures !s.c.aborted && ImportsMatch(s.d, s.c)
  {
  }

  /** Over every run: an import lasts exactly as long as the application holds a reference to it, and counts
      the references held.  No close but the last ends it. */
  lemma {:induction false} LiveWhileHeld(turns: seq<Turn>, id: nat)
    requires Playable(turns)
    ensures Held(turns, id) >= 0
    ensures id in After(turns).c.imports <==> Held(turns, id) > 0
    ensures id in After(turns).c.imports ==> After(turns).c.imports[id].live == Held(turns, id)
    decreases |turns|
  {
    var run := TurnsAreRuns(turns);
    RunIsSafe(run);
    Sound(After(turns));
    if turns != [] {
      var n := |turns| - 1;
      LiveWhileHeld(turns[..n], id);
      var before := TurnsAreRuns(turns[..n]);
      RunIsSafe(before);
      hide Act, Enabled, Inv, Take, TakenIn;
      LiveTurn(After(turns[..n]), turns[n], id);
    }
  }

  /** So as long as a reference is left after a close, the close sends nothing and the import is as before but
      for the number of references. */
  lemma CloseKeepsWhatIsHeld(turns: seq<Turn>, id: nat)
    requires Playable(turns) && Held(turns, id) > 1
    ensures var c := After(turns).c;
      && id in c.imports && c.imports[id].live > 1
      && DropRef(c, id) == (c.(imports := c.imports[id := c.imports[id].(live := c.imports[id].live - 1)]), [])
  {
    LiveWhileHeld(turns, id);
    var run := TurnsAreRuns(turns);
    RunIsSafe(run);
    Sound(After(turns));
    var c := After(turns).c;
    CloseOne(c, id);
    hide DropRef, Inv;
    assert DropRef(c, id).0.imports == c.imports[id := c.imports[id].(live := c.imports[id].live - 1)];
  }
}
