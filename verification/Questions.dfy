/**
 Questions of a calling vat against answers of an answering vat, and what every operation of
 either keeps of their correspondence.
 */
module Questions {
  import opened Options
  import opened IdTables
  import opened RpcMessages
  import opened ConnTables

  /** What handling `m` does to the answer entry of question id `q`. */
  function AnswerStep(a: Option<nat>, m: Message, q: nat): Option<nat> {
    if Opens(m) && m.q == q then Some(m.serial)
    else if m.Finish? && m.q == q then None
    else a
  }

  /** The answer entry of `q` once everything in the channel has been handled. */
  function AnswerAfter(a: Option<nat>, ch: seq<Message>, q: nat): Option<nat>
    decreases |ch|
  {
    if ch == [] then a else AnswerAfter(AnswerStep(a, ch[0], q), ch[1..], q)
  }

  /** When `m` arrives behind `ahead`: the id it opens is unused, the id it finishes is in use, and
      every answer it refers to is there in the incarnation the sender meant. */
  ghost predicate InTurn(y: Conn, ahead: seq<Message>, m: Message) {
    && (Opens(m) ==> AnswerAfter(Answering(y, m.q), ahead, m.q).None?)
    && (m.Finish? ==> AnswerAfter(Answering(y, m.q), ahead, m.q).Some?)
    && (forall q: nat, s: nat :: Refers(m, q, s) ==> AnswerAfter(Answering(y, q), ahead, q) == Some(s))
  }

  ghost predicate AllInTurn(y: Conn, xy: seq<Message>) {
    forall i :: 0 <= i < |xy| ==> InTurn(y, xy[..i], xy[i])
  }

  /** The answer table, once everything in flight is handled, is the question table. */
  ghost predicate TablesAgree(x: Conn, y: Conn, xy: seq<Message>) {
    forall q: nat :: AnswerAfter(Answering(y, q), xy, q) == Asked(x, q)
  }

  /** The answer is settled and its question still waits for the Return. */
  predicate ReturnDue(x: Conn, y: Conn, q: nat, s: nat) {
    q in y.answers && y.answers[q].serial == s && y.answers[q].done && Asked(x, q) == Some(s)
  }

  /** Exactly the due Returns are in flight, each once. */
  ghost predicate ReturnsAgree(x: Conn, y: Conn, yx: seq<Message>) {
    forall q: nat, s: nat :: ReturnsInFlight(yx, q, s) == if ReturnDue(x, y, q, s) then 1 else 0
  }

  ghost predicate PendingAsked(x: Conn, y: Conn) {
    forall q :: q in y.answers && !y.answers[q].done ==>
      Asked(x, q) == Some(y.answers[q].serial) && y.answers[q].resultCaps == []
  }

  /** Incarnation numbers grow along the channel and are newer than those of the answers. */
  ghost predicate SerialsGrow(x: Conn, y: Conn, xy: seq<Message>) {
    && (forall i :: 0 <= i < |xy| && Opens(xy[i]) ==> xy[i].serial < x.serial)
    && (forall i, j :: 0 <= i < j < |xy| && Opens(xy[i]) && Opens(xy[j]) ==> xy[i].serial < xy[j].serial)
    && (forall q :: q in y.answers ==> y.answers[q].serial < x.serial)
    && (forall i, q :: 0 <= i < |xy| && Opens(xy[i]) && q in y.answers ==> y.answers[q].serial < xy[i].serial)
  }

  function OpenedCaps(m: Message): seq<nat>
    requires Opens(m)
  {
    HostedIds(Descs(m))
  }

  /** The question of a call still in flight is in the table, with the capabilities it carried. */
  ghost predicate OpensAsked(x: Conn, xy: seq<Message>) {
    forall i :: 0 <= i < |xy| && Opens(xy[i]) ==>
      x.questions.Find(xy[i].q) == Some(Question(xy[i].serial, OpenedCaps(xy[i])))
  }

  /** A Finish in flight is the only one for its answer, which is settled; it asks for result
      capabilities to be released only where there are none. */
  ghost predicate FinishesOk(y: Conn, xy: seq<Message>) {
    && (forall i :: 0 <= i < |xy| && xy[i].Finish? ==>
          && xy[i].q in y.answers && y.answers[xy[i].q].done
          && (xy[i].releaseResultCaps ==> y.answers[xy[i].q].resultCaps == []))
    && (forall i, j :: 0 <= i < j < |xy| && xy[i].Finish? && xy[j].Finish? ==> xy[i].q != xy[j].q)
  }

  /** A Return in flight releases no parameter capabilities, and an exception has no results. */
  ghost predicate ReturnsOk(y: Conn, yx: seq<Message>) {
    forall i :: 0 <= i < |yx| && yx[i].Return? ==>
      && !yx[i].releaseParamCaps
      && yx[i].q in y.answers
      && (yx[i].outcome.Exception? ==> y.answers[yx[i].q].resultCaps == [])
  }

  /** The invariant between the vat `x` that asks and the vat `y` that answers. */
  ghost predicate QuestionLink(x: Conn, y: Conn, xy: seq<Message>, yx: seq<Message>) {
    && x.questions.Valid()
    && TablesAgree(x, y, xy)
    && AllInTurn(y, xy)
    && ReturnsAgree(x, y, yx)
    && PendingAsked(x, y)
    && SerialsGrow(x, y, xy)
    && OpensAsked(x, xy)
    && FinishesOk(y, xy)
    && ReturnsOk(y, yx)
  }

  // ---------------------------------------------------------------------------------------------
  // Facts about the channel

  lemma {:induction false} AfterAppend(a: Option<nat>, ch: seq<Message>, m: Message, q: nat)
    ensures AnswerAfter(a, ch + [m], q) == AnswerStep(AnswerAfter(a, ch, q), m, q)
    decreases |ch|
  {
    if ch == [] {
      assert ch + [m] == [m] && [m][1..] == [];
    } else {
      assert (ch + [m])[1..] == ch[1..] + [m];
      AfterAppend(AnswerStep(a, ch[0], q), ch[1..], m, q);
    }
  }

  /** An id that was finished in the channel is not in its old incarnation afterwards. */
  lemma {:induction false} FinishedIsNew(a: Option<nat>, ch: seq<Message>, q: nat, s: nat)
    requires a != Some(s) || exists i :: 0 <= i < |ch| && ch[i].Finish? && ch[i].q == q
    requires forall i :: 0 <= i < |ch| && Opens(ch[i]) && ch[i].q == q ==> ch[i].serial != s
    ensures AnswerAfter(a, ch, q) != Some(s)
    decreases |ch|
  {
    if ch != [] {
      var a' := AnswerStep(a, ch[0], q);
      if a' == Some(s) {
        var i :| 0 <= i < |ch| && ch[i].Finish? && ch[i].q == q;
        assert ch[1..][i - 1] == ch[i];
      }
      FinishedIsNew(a', ch[1..], q, s);
    }
  }

  lemma InTurnBehind(y: Conn, xy: seq<Message>, m: Message)
    requires AllInTurn(y, xy) && InTurn(y, xy, m)
    ensures AllInTurn(y, xy + [m])
  {
    var xy' := xy + [m];
    forall i | 0 <= i < |xy'|
      ensures InTurn(y, xy'[..i], xy'[i])
    {
      assert xy'[..i] == if i < |xy| then xy[..i] else xy;
    }
  }

  /** The answer table after the head was handled lets the rest arrive in turn. */
  lemma InTurnAfterHead(y: Conn, y': Conn, xy: seq<Message>)
    requires AllInTurn(y, xy) && xy != []
    requires forall q: nat :: Answering(y', q) == AnswerStep(Answering(y, q), xy[0], q)
    ensures AllInTurn(y', xy[1..])
  {
    var rest := xy[1..];
    forall i | 0 <= i < |rest|
      ensures InTurn(y', rest[..i], rest[i])
    {
      assert InTurn(y, xy[..i + 1], xy[i + 1]);
      assert xy[..i + 1][1..] == rest[..i];
      forall q: nat
        ensures AnswerAfter(Answering(y', q), rest[..i], q) == AnswerAfter(Answering(y, q), xy[..i + 1], q)
      {
      }
    }
  }

  lemma NoReturnInFlight(x: Conn, y: Conn, yx: seq<Message>, i: nat)
    requires ReturnsAgree(x, y, yx) && i < |yx| && yx[i].Return?
    ensures ReturnDue(x, y, yx[i].q, yx[i].serial)
  {
    ReturnsPositive(yx, i);
  }

  lemma OneReturn(m: Message, q: nat, s: nat)
    ensures ReturnsInFlight([m], q, s) == if m.Return? && m.q == q && m.serial == s then 1 else 0
  {
    assert [m][1..] == [];
  }

  // ---------------------------------------------------------------------------------------------
  // What the asking vat does

  /** Every answer a message refers to is one of the sender's open questions. */
  ghost predicate RefersToOwnQuestions(x: Conn, m: Message) {
    forall q: nat, s: nat :: Refers(m, q, s) ==> Asked(x, q) == Some(s)
  }

  lemma CallerSends(x: Conn, x': Conn, y: Conn, xy: seq<Message>, yx: seq<Message>, m: Message)
    requires QuestionLink(x, y, xy, yx)
    requires x'.questions == x.questions && x'.serial == x.serial
    requires !Opens(m) && !m.Finish? && RefersToOwnQuestions(x, m)
    ensures QuestionLink(x', y, xy + [m], yx)
  {
    forall q: nat
      ensures AnswerAfter(Answering(y, q), xy + [m], q) == Asked(x', q)
    {
      AfterAppend(Answering(y, q), xy, m, q);
    }
    InTurnBehind(y, xy, m);
    assert forall q: nat, s: nat :: ReturnDue(x', y, q, s) == ReturnDue(x, y, q, s);
  }

  /** A question is opened under an id that is free on both sides. */
  lemma CallerOpens(x: Conn, x': Conn, y: Conn, xy: seq<Message>, yx: seq<Message>, m: Message)
    requires QuestionLink(x, y, xy, yx)
    requires Opens(m) && m.q == x.questions.NextId() && m.serial == x.serial
    requires x'.questions == x.questions.Alloc(Question(m.serial, OpenedCaps(m))) && x'.serial == x.serial + 1
    requires RefersToOwnQuestions(x, m)
    ensures QuestionLink(x', y, xy + [m], yx)
  {
    AllocIsFresh(x.questions, Question(m.serial, OpenedCaps(m)));
    assert Asked(x, m.q).None?;
    forall q: nat
      ensures AnswerAfter(Answering(y, q), xy + [m], q) == Asked(x', q)
    {
      AfterAppend(Answering(y, q), xy, m, q);
    }
    InTurnBehind(y, xy, m);
    forall q: nat, s: nat
      ensures ReturnDue(x', y, q, s) == ReturnDue(x, y, q, s)
    {
    }
    assert OpensAsked(x', xy + [m]) by {
      forall i | 0 <= i < |xy + [m]| && Opens((xy + [m])[i])
        ensures x'.questions.Find((xy + [m])[i].q) == Some(Question((xy + [m])[i].serial, OpenedCaps((xy + [m])[i])))
      {
        if i < |xy| {
          assert x.questions.Find(xy[i].q).Some?;
        }
      }
    }
  }

  lemma CallerReceives(x: Conn, x': Conn, y: Conn, xy: seq<Message>, yx: seq<Message>)
    requires QuestionLink(x, y, xy, yx) && yx != [] && !yx[0].Return?
    requires x'.questions == x.questions && x'.serial == x.serial
    ensures QuestionLink(x', y, xy, yx[1..])
  {
    assert forall q: nat :: Asked(x', q) == Asked(x, q);
    assert forall q: nat, s: nat :: ReturnDue(x', y, q, s) == ReturnDue(x, y, q, s);
  }

  /** A Return finds its question, in the incarnation that was answered; the question ends and its
      Finish is the only one in flight for the answer. */
  lemma CallerReturned(x: Conn, x': Conn, y: Conn, xy: seq<Message>, yx: seq<Message>)
    requires QuestionLink(x, y, xy, yx) && yx != [] && yx[0].Return?
    requires x.questions.Find(yx[0].q).Some? ==> x'.questions == x.questions.Drop(yx[0].q)
    requires x'.serial == x.serial
    ensures Asked(x, yx[0].q) == Some(yx[0].serial) && !yx[0].releaseParamCaps
    ensures QuestionLink(x', y, xy + [Finish(yx[0].q, yx[0].outcome.Exception?)], yx[1..])
  {
    var q, s := yx[0].q, yx[0].serial;
    var fin := Finish(q, yx[0].outcome.Exception?);
    NoReturnInFlight(x, y, yx, 0);
    DropRecycles(x.questions, q);
    assert forall k: nat :: Asked(x', k) == if k == q then None else Asked(x, k);
    forall k: nat
      ensures AnswerAfter(Answering(y, k), xy + [fin], k) == Asked(x', k)
    {
      AfterAppend(Answering(y, k), xy, fin, k);
    }
    InTurnBehind(y, xy, fin);
    assert ReturnsAgree(x', y, yx[1..]) by {
      forall k: nat, t: nat
        ensures ReturnsInFlight(yx[1..], k, t) == if ReturnDue(x', y, k, t) then 1 else 0
      {
        assert ReturnDue(x', y, k, t) == (ReturnDue(x, y, k, t) && !(k == q && t == s));
      }
    }
    assert OpensAsked(x', xy + [fin]);
    forall i | 0 <= i < |xy| && xy[i].Finish?
      ensures xy[i].q != q
    {
      if xy[i].q == q {
        FinishedIsNew(Answering(y, q), xy, q, s);
        assert false;
      }
    }
  }

  // ---------------------------------------------------------------------------------------------
  // What the answering vat does

  lemma AnswererSends(x: Conn, y: Conn, y': Conn, xy: seq<Message>, yx: seq<Message>, m: Message)
    requires QuestionLink(x, y, xy, yx)
    requires y'.answers == y.answers && !m.Return?
    ensures QuestionLink(x, y', xy, yx + [m])
  {
    forall q: nat, s: nat
      ensures ReturnsInFlight(yx + [m], q, s) == if ReturnDue(x, y', q, s) then 1 else 0
    {
      ReturnsAppend(yx, [m], q, s);
      OneReturn(m, q, s);
    }
    AnsweringSame(y, y', xy);
    assert forall q: nat :: Answering(y', q) == Answering(y, q);
  }

  lemma AnsweringSame(y: Conn, y': Conn, xy: seq<Message>)
    requires AllInTurn(y, xy)
    requires forall q: nat :: Answering(y', q) == Answering(y, q)
    ensures AllInTurn(y', xy)
  {
    forall i | 0 <= i < |xy|
      ensures InTurn(y', xy[..i], xy[i])
    {
      assert InTurn(y, xy[..i], xy[i]);
    }
  }

  /** Settling a pending answer sends its one Return. */
  lemma AnswererSettles(x: Conn, y: Conn, y': Conn, xy: seq<Message>, yx: seq<Message>, q: nat, m: Message)
    requires QuestionLink(x, y, xy, yx)
    requires q in y.answers && !y.answers[q].done
    requires m.Return? && m.q == q && m.serial == y.answers[q].serial && !m.releaseParamCaps
    requires y'.answers.Keys == y.answers.Keys && (forall k :: k in y.answers && k != q ==> y'.answers[k] == y.answers[k])
    requires y'.answers[q].serial == y.answers[q].serial && y'.answers[q].done
    requires m.outcome.Exception? ==> y'.answers[q].resultCaps == []
    ensures QuestionLink(x, y', xy, yx + [m])
  {
    assert forall k: nat :: Answering(y', k) == Answering(y, k);
    AnsweringSame(y, y', xy);
    forall k: nat, s: nat
      ensures ReturnsInFlight(yx + [m], k, s) == if ReturnDue(x, y', k, s) then 1 else 0
    {
      ReturnsAppend(yx, [m], k, s);
      OneReturn(m, k, s);
      assert ReturnDue(x, y', k, s) == (ReturnDue(x, y, k, s) || (k == q && s == m.serial));
    }
    forall i | 0 <= i < |yx| && yx[i].Return?
      ensures yx[i].q != q
    {
      NoReturnInFlight(x, y, yx, i);
    }
  }

  /** A call or bootstrap finds its id unused. */
  lemma AnswererInserts(x: Conn, y: Conn, y': Conn, xy: seq<Message>, yx: seq<Message>)
    requires QuestionLink(x, y, xy, yx) && xy != [] && Opens(xy[0])
    requires y'.answers == y.answers[xy[0].q := Answer(xy[0].serial, false, [])]
    ensures xy[0].q !in y.answers
    ensures QuestionLink(x, y', xy[1..], yx)
  {
    var q := xy[0].q;
    assert InTurn(y, xy[..0], xy[0]);
    assert forall k: nat :: Answering(y', k) == AnswerStep(Answering(y, k), xy[0], k);
    InTurnAfterHead(y, y', xy);
    assert forall k: nat, s: nat :: ReturnDue(x, y', k, s) == ReturnDue(x, y, k, s);
    assert Asked(x, q) == Some(xy[0].serial);
  }

  /** A Finish removes the settled answer it is for. */
  lemma AnswererFinishes(x: Conn, y: Conn, y': Conn, xy: seq<Message>, yx: seq<Message>)
    requires QuestionLink(x, y, xy, yx) && xy != [] && xy[0].Finish?
    requires y'.answers == y.answers - {xy[0].q}
    ensures xy[0].releaseResultCaps ==> y.answers[xy[0].q].resultCaps == []
    ensures QuestionLink(x, y', xy[1..], yx)
  {
    var q := xy[0].q;
    assert forall k: nat :: Answering(y', k) == AnswerStep(Answering(y, k), xy[0], k);
    InTurnAfterHead(y, y', xy);
    var s := y.answers[q].serial;
    FinishedIsNew(Answering(y, q), xy, q, s);
    assert Asked(x, q) != Some(s);
    assert forall k: nat, t: nat :: ReturnDue(x, y', k, t) == ReturnDue(x, y, k, t);
    forall i | 0 <= i < |yx| && yx[i].Return?
      ensures yx[i].q != q
    {
      NoReturnInFlight(x, y, yx, i);
    }
    assert FinishesOk(y', xy[1..]);
  }

  lemma AnswererReceives(x: Conn, y: Conn, y': Conn, xy: seq<Message>, yx: seq<Message>)
    requires QuestionLink(x, y, xy, yx) && xy != [] && !Opens(xy[0]) && !xy[0].Finish?
    requires y'.answers == y.answers
    ensures QuestionLink(x, y', xy[1..], yx)
  {
    assert forall k: nat :: Answering(y', k) == AnswerStep(Answering(y, k), xy[0], k);
    InTurnAfterHead(y, y', xy);
    assert forall k: nat, t: nat :: ReturnDue(x, y', k, t) == ReturnDue(x, y, k, t);
  }

  /** What the head of the channel refers to is in the answer table. */
  lemma HeadRefersToAnswers(x: Conn, y: Conn, xy: seq<Message>, yx: seq<Message>)
    requires QuestionLink(x, y, xy, yx) && xy != []
    ensures forall q: nat, s: nat :: Refers(xy[0], q, s) ==> Answering(y, q) == Some(s)
  {
    assert InTurn(y, xy[..0], xy[0]);
  }

  // ---------------------------------------------------------------------------------------------
  // Phases

  /** The call or bootstrap of question `q` has not arrived yet. */
  ghost predicate InFlight(xy: seq<Message>, q: nat, s: nat) {
    exists i :: 0 <= i < |xy| && Opens(xy[i]) && xy[i].q == q && xy[i].serial == s
  }

  /** The answerer has the question and has not settled it. */
  predicate Pending(y: Conn, q: nat, s: nat) {
    q in y.answers && y.answers[q].serial == s && !y.answers[q].done
  }

  ghost predicate FinishInFlight(xy: seq<Message>, q: nat) {
    exists i :: 0 <= i < |xy| && xy[i].Finish? && xy[i].q == q
  }

  /** An open question is in exactly one phase, and both tables and both channels agree on it. */
  lemma OpenQuestionPhase(x: Conn, y: Conn, xy: seq<Message>, yx: seq<Message>, q: nat, s: nat)
    requires QuestionLink(x, y, xy, yx) && Asked(x, q) == Some(s)
    ensures InFlight(xy, q, s) || Pending(y, q, s) || ReturnsInFlight(yx, q, s) == 1
    ensures !(InFlight(xy, q, s) && Pending(y, q, s))
    ensures ReturnsInFlight(yx, q, s) <= 1
    ensures InFlight(xy, q, s) || Pending(y, q, s) ==> ReturnsInFlight(yx, q, s) == 0
    ensures InFlight(xy, q, s) || !FinishInFlight(xy, q)
  {
    if !InFlight(xy, q, s) {
      if Answering(y, q) != Some(s) || FinishInFlight(xy, q) {
        FinishedIsNew(Answering(y, q), xy, q, s);
        assert false;
      }
    }
  }

  /** A free question id has no call and no Return in flight, and an answer entry only until its
      Finish arrives. */
  lemma FreeQuestionPhase(x: Conn, y: Conn, xy: seq<Message>, yx: seq<Message>, q: nat)
    requires QuestionLink(x, y, xy, yx) && Asked(x, q).None?
    ensures forall s: nat :: !InFlight(xy, q, s) && ReturnsInFlight(yx, q, s) == 0
    ensures q in y.answers ==> y.answers[q].done && FinishInFlight(xy, q)
  {
    if q in y.answers && !FinishInFlight(xy, q) {
      StaysWithoutFinish(Answering(y, q), xy, q);
    }
  }

  lemma {:induction false} StaysWithoutFinish(a: Option<nat>, ch: seq<Message>, q: nat)
    requires a.Some? && !FinishInFlight(ch, q)
    ensures AnswerAfter(a, ch, q).Some?
    decreases |ch|
  {
    if ch != [] {
      assert !(ch[0].Finish? && ch[0].q == q);
      assert forall i :: 0 <= i < |ch[1..]| ==> ch[1..][i] == ch[i + 1];
      StaysWithoutFinish(AnswerStep(a, ch[0], q), ch[1..], q);
    }
  }
}
