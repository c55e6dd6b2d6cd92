/** Which calls are lost although their promise settled, and exactly when. */
module EOrderLosses {

  // A promise that settles to an object of the exporter is announced through the first export that is
  // that object (src/rpc/conn.ts:1243-1254, src/rpc/conn.ts:782-805).  If that export was itself handed
  // over as a promise, the import it became resolves to itself, and every call that is led there fails.
  // A promise that was rejected holds later calls for ever (src/rpc/promise-export-client.ts:17-43).

  import opened Options
  import opened IdTables
  import opened RpcMessages
  import opened PromiseClients
  import opened OrderWorld
  import opened EOrder
  import opened EOrderSteps
  import opened EOrderRuns

  // ---------------------------------------------------------------------------------------------
  // What an importer has heard of an export

  predicate IsGrantOf(d: Desc, p: nat) {
    (d.SenderHosted? || d.SenderPromise?) && d.id == p
  }

  predicate Mentions(m: Message, p: nat) {
    (m.Resolve? && m.promiseId == p) || exists d :: d in Descs(m) && IsGrantOf(d, p)
  }

  /** The message hands over `p` as a promise. */
  predicate HandsOver(m: Message, p: nat) {
    m.Return? && Descs(m) != [] && Descs(m)[0].SenderPromise? && Descs(m)[0].id == p
  }

  /** The first that is heard of `p` is that it is a promise. */
  predicate GrantFirst(ch: seq<Message>, p: nat) {
    ch != [] && if Mentions(ch[0], p) then HandsOver(ch[0], p) else GrantFirst(ch[1..], p)
  }

  lemma {:induction false} GrantFirstAppend(a: seq<Message>, b: seq<Message>, p: nat)
    ensures GrantFirst(a, p) ==> GrantFirst(a + b, p)
    ensures (forall m :: m in a ==> !Mentions(m, p)) && GrantFirst(b, p) ==> GrantFirst(a + b, p)
  {
    hide Mentions, HandsOver;
    if a == [] {
      assert a + b == b;
    } else {
      assert (a + b)[1..] == a[1..] + b;
      GrantFirstAppend(a[1..], b, p);
    }
  }

  lemma {:induction false} ResolveCounts(ch: seq<Message>, m: Message)
    requires m in ch && m.Resolve?
    ensures Resolves(ch, m.promiseId) > 0
  {
    if ch[0] != m {
      ResolveCounts(ch[1..], m);
    }
  }

  lemma {:induction false} CountedResolve(ch: seq<Message>, p: nat) returns (m: Message)
    requires Resolves(ch, p) > 0
    ensures m in ch && m.Resolve? && m.promiseId == p
  {
    if ch[0].Resolve? && ch[0].promiseId == p {
      m := ch[0];
    } else {
      m := CountedResolve(ch[1..], p);
    }
  }

  lemma {:induction false} NoResolves(ch: seq<Message>, p: nat)
    requires forall m :: m in ch ==> !(m.Resolve? && m.promiseId == p)
    ensures Resolves(ch, p) == 0
  {
    if ch != [] {
      NoResolves(ch[1..], p);
    }
  }

  // ---------------------------------------------------------------------------------------------
  // Links between imports

  /** Import `id` resolves to itself. */
  predicate Circle(w: World, id: nat) {
    id in w.imports && w.imports[id].client.resolved == Some(Remote(id))
  }

  /** Import `id` resolves to itself, or is about to. */
  ghost predicate Bound(w: World, id: nat) {
    Circle(w, id) || exists obj: nat :: Resolve(id, ToCap(SenderHosted(id, obj))) in w.ba
  }

  /** A promise is announced once, after it settles; an export that is none never; and the first the
      importer hears of a promise is that it is one. */
  predicate Tidy(w: World, p: nat)
    requires p < |w.exports|
  {
    var x := w.exports[p];
    && (!x.promise ==> x.settled && x.client.resolved.Some? && x.client.resolved.value.Here?)
    && Resolves(w.ba, p) + Resolved(w, p) == (if x.promise && x.settled then 1 else 0)
    && (x.promise && p in w.imports && Resolved(w, p) == 0 ==> w.imports[p].isPromise)
    && (x.promise && p !in w.imports ==> GrantFirst(w.ba, p))
  }

  /** An import led to a promise's import is led to one that resolves to itself. */
  predicate Linked(w: World, p: nat)
    requires p in w.imports
  {
    match w.imports[p].client.resolved
    case Some(Remote(id)) => id < |w.exports| && (w.exports[id].promise ==> Circle(w, id))
    case _ => true
  }

  /** The same for an announcement under way, behind which nothing is announced of its target. */
  ghost predicate LinkedSoon(w: World, i: nat)
    requires i < |w.ba|
  {
    match w.ba[i]
    case Resolve(p, ToCap(SenderHosted(id, _))) =>
      id < |w.exports| && (w.exports[id].promise && id != p ==> Resolves(w.ba[i..], id) == 0 && Bound(w, id))
    case _ => true
  }

  /** Capabilities are handed over one at a time, and calls carry none. */
  predicate Slim(m: Message) {
    |Descs(m)| <= 1 && (m.Call? ==> Descs(m) == [])
  }

  ghost predicate Links(w: World) {
    && (forall m :: m in w.ba ==> Slim(m))
    && (forall p :: 0 <= p < |w.exports| ==> Tidy(w, p))
    && (forall p :: p in w.imports ==> Linked(w, p))
    && (forall i :: 0 <= i < |w.ba| ==> LinkedSoon(w, i))
  }

  /** Nothing that matters to links changes. */
  predicate SameImports(w: World, w': World) {
    && w'.imports.Keys == w.imports.Keys
    && forall p :: p in w.imports ==>
         && w'.imports[p].isPromise == w.imports[p].isPromise
         && w'.imports[p].client.resolved == w.imports[p].client.resolved
  }

  predicate SameExports(w: World, w': World) {
    && |w'.exports| == |w.exports|
    && forall p :: 0 <= p < |w.exports| ==>
         && w'.exports[p].promise == w.exports[p].promise && w'.exports[p].settled == w.exports[p].settled
         && w'.exports[p].client.resolved == w.exports[p].client.resolved
  }

  predicate Plain(m: Message) {
    !m.Resolve? && Descs(m) == []
  }

  lemma PlainMentionsNothing(m: Message, p: nat)
    requires Plain(m)
    ensures !Mentions(m, p)
  {
  }

  // ---------------------------------------------------------------------------------------------
  // Steps that announce nothing

  lemma TidyMore(w: World, w': World, more: seq<Message>, p: nat)
    requires p < |w.exports| <= |w'.exports| && Tidy(w, p) && SameImports(w, w') && w'.ba == w.ba + more
    requires w'.exports[p].promise == w.exports[p].promise && w'.exports[p].settled == w.exports[p].settled
    requires w'.exports[p].client.resolved == w.exports[p].client.resolved
    requires forall m :: m in more ==> !(m.Resolve? && m.promiseId == p)
    ensures Tidy(w', p)
  {
    hide GrantFirst, Resolves;
    ResolvesAppend(w.ba, more, p);
    NoResolves(more, p);
    GrantFirstAppend(w.ba, more, p);
  }

  lemma LinkedMore(w: World, w': World, p: nat)
    requires p in w.imports && Linked(w, p) && SameImports(w, w') && |w.exports| <= |w'.exports|
    requires forall q :: 0 <= q < |w.exports| ==> w'.exports[q].promise == w.exports[q].promise
    ensures Linked(w', p)
  {
  }

  lemma BoundMore(w: World, w': World, id: nat)
    requires Bound(w, id) && SameImports(w, w') && forall m :: m in w.ba ==> m in w'.ba
    ensures Bound(w', id)
  {
  }

  lemma LinkedSoonMore(w: World, w': World, more: seq<Message>, i: nat)
    requires i < |w.ba| && LinkedSoon(w, i) && SameImports(w, w') && w'.ba == w.ba + more && |w.exports| <= |w'.exports|
    requires forall q :: 0 <= q < |w.exports| ==> w'.exports[q].promise == w.exports[q].promise
    requires match w.ba[i]
      case Resolve(_, ToCap(SenderHosted(id, _))) => forall m :: m in more ==> !(m.Resolve? && m.promiseId == id)
      case _ => true
    ensures LinkedSoon(w', i)
  {
    hide Bound, Resolves;
    match w.ba[i]
    case Resolve(p, ToCap(SenderHosted(id, _))) =>
      assert w'.ba[i..] == w.ba[i..] + more;
      ResolvesAppend(w.ba[i..], more, id);
      NoResolves(more, id);
      if Bound(w, id) {
        BoundMore(w, w', id);
      }
    case _ =>
  }

  /** Messages that announce nothing are sent, and exports may be added. */
  lemma QuietKeeps(w: World, w': World, more: seq<Message>)
    requires Links(w) && SameImports(w, w') && w'.ba == w.ba + more && |w.exports| <= |w'.exports|
    requires forall m :: m in more ==> !m.Resolve? && Slim(m)
    requires forall q :: 0 <= q < |w.exports| ==>
      && w'.exports[q].promise == w.exports[q].promise && w'.exports[q].settled == w.exports[q].settled
      && w'.exports[q].client.resolved == w.exports[q].client.resolved
    requires forall q :: |w.exports| <= q < |w'.exports| ==> Tidy(w', q)
    ensures Links(w')
  {
    hide Tidy, Linked, LinkedSoon;
    forall p | 0 <= p < |w'.exports|
      ensures Tidy(w', p)
    {
      if p < |w.exports| {
        TidyMore(w, w', more, p);
      }
    }
    forall p | p in w'.imports
      ensures Linked(w', p)
    {
      LinkedMore(w, w', p);
    }
    forall i | 0 <= i < |w'.ba|
      ensures LinkedSoon(w', i)
    {
      if i < |w.ba| {
        LinkedSoonMore(w, w', more, i);
      } else {
        assert w'.ba[i] in more;
        PlainIsLinked(w', i);
      }
    }
  }

  lemma PlainIsLinked(w: World, i: nat)
    requires i < |w.ba| && !w.ba[i].Resolve?
    ensures LinkedSoon(w, i)
  {
  }

  /** What messages mention is in the export table. */
  lemma NothingMentioned(w: World, p: nat)
    requires Shape(w) && p >= |w.exports| && forall m :: m in w.ba ==> Slim(m)
    ensures forall m :: m in w.ba ==> !Mentions(m, p)
    ensures Resolves(w.ba, p) == 0 && p !in w.imports
  {
    forall m | m in w.ba
      ensures !Mentions(m, p)
    {
      assert BaOk(w, m) && Slim(m);
    }
    NoResolves(w.ba, p);
  }

  lemma PromiseLinks(w: World)
    requires Inv(w) && Links(w)
    ensures Links(ExportPromise(w))
  {
    hide Links, Tidy, Line, Kept;
    var n, m := |w.exports|, Grant(SenderPromise(|w.exports|, 0));
    var w' := ExportPromise(w);
    LinksAreSlim(w);
    NothingMentioned(w, n);
    NewPromise(w, w', m);
    GrantIsSingle(m, SenderPromise(n, 0));
    QuietKeeps(w, w', [m]);
  }

  lemma LinksAreSlim(w: World)
    requires Links(w)
    ensures forall m :: m in w.ba ==> Slim(m)
  {
  }

  lemma GrantIsSingle(m: Message, d: Desc)
    requires m == Grant(d)
    ensures !m.Resolve? && Slim(m)
  {
  }

  lemma NewPromise(w: World, w': World, m: Message)
    requires m == Grant(SenderPromise(|w.exports|, 0)) && w' == ExportPromise(w)
    requires |w.exports| !in w.imports && Resolves(w.ba, |w.exports|) == 0
    requires forall x :: x in w.ba ==> !Mentions(x, |w.exports|)
    ensures Tidy(w', |w.exports|)
  {
    var n := |w.exports|;
    ResolvesAppend(w.ba, [m], n);
    NoResolves([m], n);
    assert HandsOver(m, n);
    assert IsGrantOf(Descs(m)[0], n);
    assert GrantFirst([m], n);
    hide GrantFirst, Mentions, Resolves;
    GrantFirstAppend(w.ba, [m], n);
  }

  lemma OwnLinks(w: World, obj: nat)
    requires Inv(w) && Links(w)
    ensures Links(ExportOwn(w, obj))
  {
    hide Links, Tidy, Line, Kept;
    var id := FirstWith(w.exports, obj);
    var m := Grant(SenderHosted(id, 0));
    var w' := ExportOwn(w, obj);
    GrantIsSingle(m, SenderHosted(id, 0));
    if id == |w.exports| {
      LinksAreSlim(w);
      NothingMentioned(w, id);
      NewOwn(w, w', m, obj);
    }
    QuietKeeps(w, w', [m]);
  }

  lemma NewOwn(w: World, w': World, m: Message, obj: nat)
    requires FirstWith(w.exports, obj) == |w.exports|
    requires m == Grant(SenderHosted(|w.exports|, 0)) && w' == ExportOwn(w, obj)
    requires |w.exports| !in w.imports && Resolves(w.ba, |w.exports|) == 0
    ensures Tidy(w', |w.exports|)
  {
    ResolvesAppend(w.ba, [m], |w.exports|);
    NoResolves([m], |w.exports|);
  }

  // ---------------------------------------------------------------------------------------------
  // A promise settles

  /** The promise becomes settled, and that is announced. */
  lemma SettledLinks(w: World, w': World, p: nat, m: Message)
    requires Links(w) && p < |w.exports| && w.exports[p].promise && !w.exports[p].settled
    requires forall x :: x in w.ba ==> !LeadsTo(x, p)
    requires m.Resolve? && m.promiseId == p && Slim(m)
    requires SameImports(w, w') && w'.ba == w.ba + [m] && |w'.exports| == |w.exports|
    requires w'.exports[p].promise && w'.exports[p].settled
    requires forall q :: 0 <= q < |w.exports| && q != p ==>
      && w'.exports[q].promise == w.exports[q].promise && w'.exports[q].settled == w.exports[q].settled
      && w'.exports[q].client.resolved == w.exports[q].client.resolved
    requires match m.resolution
      case ToCap(SenderHosted(id, _)) => id < |w.exports| && (id != p && w.exports[id].promise ==> Bound(w, id))
      case _ => true
    ensures Links(w')
  {
    hide Tidy, Linked, LinkedSoon, Bound;
    forall q | 0 <= q < |w'.exports|
      ensures Tidy(w', q)
    {
      if q == p {
        TidySettled(w, w', p, m);
      } else {
        TidyMore(w, w', [m], q);
      }
    }
    forall q | q in w'.imports
      ensures Linked(w', q)
    {
      LinkedMore(w, w', q);
    }
    forall i | 0 <= i < |w'.ba|
      ensures LinkedSoon(w', i)
    {
      if i < |w.ba| {
        assert w.ba[i] in w.ba;
        LinkedSoonMore(w, w', [m], i);
      } else {
        NewLink(w, w', p, m);
      }
    }
  }

  lemma TidySettled(w: World, w': World, p: nat, m: Message)
    requires p < |w.exports| == |w'.exports| && Tidy(w, p) && SameImports(w, w') && w'.ba == w.ba + [m]
    requires w.exports[p].promise && !w.exports[p].settled && w'.exports[p].promise && w'.exports[p].settled
    requires m.Resolve? && m.promiseId == p
    ensures Tidy(w', p)
  {
    hide GrantFirst;
    ResolvesAppend(w.ba, [m], p);
    assert [m][1..] == [];
    GrantFirstAppend(w.ba, [m], p);
  }

  /** The message announces that a promise is export `p`. */
  predicate LeadsTo(m: Message, p: nat) {
    match m
    case Resolve(_, ToCap(SenderHosted(id, _))) => id == p
    case _ => false
  }

  /** What an announcement leads to is settled. */
  lemma NothingLeadsTo(w: World, p: nat)
    requires Shape(w) && HostOf(w, p).None?
    ensures forall m :: m in w.ba ==> !LeadsTo(m, p)
  {
    forall m | m in w.ba
      ensures !LeadsTo(m, p)
    {
      assert BaOk(w, m);
    }
  }

  lemma NewLink(w: World, w': World, p: nat, m: Message)
    requires m.Resolve? && m.promiseId == p && SameImports(w, w') && w'.ba == w.ba + [m] && |w'.exports| == |w.exports|
    requires forall q :: 0 <= q < |w.exports| && q != p ==> w'.exports[q].promise == w.exports[q].promise
    requires match m.resolution
      case ToCap(SenderHosted(id, _)) => id < |w.exports| && (id != p && w.exports[id].promise ==> Bound(w, id))
      case _ => true
    ensures LinkedSoon(w', |w.ba|)
  {
    match m.resolution
    case ToCap(SenderHosted(id, _)) =>
      if id != p && w.exports[id].promise {
        BoundMore(w, w', id);
        assert w'.ba[|w.ba|..] == [m];
        NoResolves([m], id);
      }
    case _ =>
  }

  /** The first export with an object, if it was handed over as a promise, is announced as itself. */
  lemma FirstIsBound(w: World, first: nat, obj: nat)
    requires Struct(w) && Links(w) && first < |w.exports| && w.exports[first].promise
    requires HostOf(w, first) == Some(Here(obj)) && forall j :: 0 <= j < first ==> HostOf(w, j) != Some(Here(obj))
    ensures Bound(w, first)
  {
    hide Numbered, AbOk, DeliveryOk, ReasonOk, Embargoes, CallsOn, CallsAfter, Marks, GrantFirst, LinkedSoon, Linked;
    assert Placed(w, first) && Tidy(w, first);
    if Resolved(w, first) == 1 {
      assert w.imports[first].client.resolved.Some?;
    } else {
      var m := CountedResolve(w.ba, first);
      assert BaOk(w, m);
    }
  }

  lemma SettleHereLinks(w: World, p: nat, obj: nat)
    requires Inv(w) && Links(w) && p < |w.exports| && !w.exports[p].settled
    ensures Links(SettleCap(w, p, Here(obj)))
  {
    hide Links, Line, Kept;
    UnsettledPromise(w, p);
    OpenExport(w, p);
    var w' := SettleCap(w, p, Here(obj));
    var x := w.exports[p].(settled := true, client := w.exports[p].client.Resolve(Here(obj)).0);
    var exports := w.exports[p := x];
    assert exports[p].client.resolved == Some(Here(obj));
    var first := FirstWith(exports, obj);
    if first != p && w.exports[first].promise {
      forall j | 0 <= j < first
        ensures HostOf(w, j) != Some(Here(obj))
      {
        assert exports[j] == w.exports[j];
      }
      FirstIsBound(w, first, obj);
    }
    NothingLeadsTo(w, p);
    SettledLinks(w, w', p, Resolve(p, ToCap(SenderHosted(first, 0))));
  }

  lemma UnsettledPromise(w: World, p: nat)
    requires Links(w) && Struct(w) && p < |w.exports| && !w.exports[p].settled
    ensures w.exports[p].promise && HostOf(w, p).None?
  {
    assert Tidy(w, p) && Placed(w, p);
  }

  lemma SettleBackLinks(w: World, p: nat, k: Target)
    requires Inv(w) && Links(w) && p < |w.exports| && !w.exports[p].settled
    ensures Links(SettleCap(w, p, Back(k)))
  {
    hide Links, Line, Kept;
    UnsettledPromise(w, p);
    OpenExport(w, p);
    NothingLeadsTo(w, p);
    var calls := CallsTo(k, w.exports[p].client.queue);
    var w1 := w.(ba := w.ba + calls);
    CallsArePlain(k, w.exports[p].client.queue);
    QuietKeeps(w, w1, calls);
    SettledLinks(w1, SettleCap(w, p, Back(k)), p, Resolve(p, ToCap(Naming(k))));
  }

  lemma {:induction false} CallsArePlain(k: Target, bodies: seq<Body>)
    ensures forall m :: m in CallsTo(k, bodies) ==> m.Call? && Plain(m)
  {
    if bodies != [] {
      CallsArePlain(k, bodies[1..]);
    }
  }

  lemma SettleErrorLinks(w: World, p: nat)
    requires Inv(w) && Links(w) && p < |w.exports|
    ensures Links(SettleError(w, p))
  {
    hide Links, Line, Kept;
    if !w.exports[p].settled {
      UnsettledPromise(w, p);
      OpenExport(w, p);
      NothingLeadsTo(w, p);
      SettledLinks(w, SettleError(w, p), p, Resolve(p, ToException));
    }
  }

  // ---------------------------------------------------------------------------------------------
  // The importer receives

  /** With the head gone, everything behind it is as it was. */
  lemma LinkedSoonBehind(w: World, w': World, i: nat)
    requires w.ba != [] && w'.ba == w.ba[1..] && w'.exports == w.exports && i < |w'.ba| && LinkedSoon(w, i + 1)
    requires forall id: nat :: Bound(w, id) ==> Bound(w', id)
    ensures LinkedSoon(w', i)
  {
    hide Bound, Resolves;
    assert w'.ba[i] == w.ba[i + 1] && w'.ba[i..] == w.ba[i + 1..];
  }

  lemma TidyBehind(w: World, w': World, p: nat)
    requires w.ba != [] && w'.ba == w.ba[1..] && w'.exports == w.exports && p < |w.exports| && Tidy(w, p)
    requires !Mentions(w.ba[0], p) && Resolved(w', p) == Resolved(w, p)
    requires (p in w'.imports <==> p in w.imports) && (p in w.imports && w.imports[p].isPromise ==> w'.imports[p].isPromise)
    ensures Tidy(w', p)
  {
    assert !(w.ba[0].Resolve? && w.ba[0].promiseId == p);
    hide Mentions, HandsOver;
  }

  lemma QuietHead(w: World, w': World)
    requires Links(w) && w.ba != [] && Plain(w.ba[0]) && SameImports(w, w') && w'.exports == w.exports && w'.ba == w.ba[1..]
    ensures Links(w')
  {
    hide Tidy, Linked, LinkedSoon, Bound;
    forall p | 0 <= p < |w'.exports|
      ensures Tidy(w', p)
    {
      PlainMentionsNothing(w.ba[0], p);
      TidyBehind(w, w', p);
    }
    forall p | p in w'.imports
      ensures Linked(w', p)
    {
      LinkedMore(w, w', p);
    }
    forall id: nat | Bound(w, id)
      ensures Bound(w', id)
    {
      BoundBehind(w, w', id);
    }
    forall i | 0 <= i < |w'.ba|
      ensures LinkedSoon(w', i)
    {
      LinkedSoonBehind(w, w', i);
    }
  }

  lemma BoundBehind(w: World, w': World, id: nat)
    requires Bound(w, id) && w.ba != [] && w'.ba == w.ba[1..]
    requires Circle(w, id) ==> Circle(w', id)
    requires w.ba[0].Resolve? && w.ba[0].promiseId == id && LeadsTo(w.ba[0], id) ==> Circle(w', id)
    ensures Bound(w', id)
  {
    hide Circle;
    if !Circle(w, id) {
      var obj: nat :| Resolve(id, ToCap(SenderHosted(id, obj))) in w.ba;
      var m := Resolve(id, ToCap(SenderHosted(id, obj)));
      if m == w.ba[0] {
        assert LeadsTo(m, id);
      } else {
        assert m in w'.ba;
      }
    }
  }

  /** The import table after the head: known imports keep what they resolve to, and new ones are fresh. */
  ghost predicate Learned(w: World, w': World) {
    && w.imports.Keys <= w'.imports.Keys
    && (forall p :: p in w.imports ==>
          && w'.imports[p].client.resolved == w.imports[p].client.resolved
          && (w.imports[p].isPromise ==> w'.imports[p].isPromise))
    && (forall p :: p in w'.imports && p !in w.imports ==> w'.imports[p].client.resolved.None?)
  }

  /** A capability is handed over. */
  lemma GrantHead(w: World)
    requires Links(w) && w.ba != [] && w.ba[0].Return?
    ensures Links(ImporterHandles(w.(ba := w.ba[1..]), w.ba[0]))
  {
    var m, w' := w.ba[0], ImporterHandles(w.(ba := w.ba[1..]), w.ba[0]);
    if Descs(m) == [] {
      NothingGranted(w, m);
      hide Links, ImporterHandles;
      QuietHead(w, w');
    } else {
      var d := Descs(m)[0];
      assert m in w.ba && Slim(m) && Descs(m) == [d];
      OneTaken(w, m, d);
      hide Tidy, Linked, LinkedSoon, Bound, ImporterHandles;
      GrantLinks(w, w', m, d);
    }
  }

  lemma NothingGranted(w: World, m: Message)
    requires w.ba != [] && m == w.ba[0] && m.Return? && Descs(m) == []
    ensures ImporterHandles(w.(ba := w.ba[1..]), m) == w.(ba := w.ba[1..])
    ensures Plain(m)
  {
  }

  /** What one descriptor brings. */
  ghost predicate Taken(w: World, w': World, d: Desc) {
    && Learned(w, w')
    && (forall p :: p in w'.imports ==> p in w.imports || IsGrantOf(d, p))
    && (forall p :: IsGrantOf(d, p) ==> p in w'.imports && (d.SenderPromise? ==> w'.imports[p].isPromise))
  }

  lemma OneTaken(w: World, m: Message, d: Desc)
    requires w.ba != [] && m == w.ba[0] && m.Return? && Descs(m) == [d]
    ensures var w' := ImporterHandles(w.(ba := w.ba[1..]), m);
      w' == w.(ba := w.ba[1..], imports := w'.imports) && Taken(w, w', d)
  {
    assert [d][1..] == [];
    var imports := if d.SenderHosted? then AddImport(w.imports, d.id, false)
                   else if d.SenderPromise? then AddImport(w.imports, d.id, true) else w.imports;
    assert TakeIn(imports, []) == imports;
    assert TakeIn(w.imports, [d]) == imports;
    assert w.imports.Keys <= imports.Keys;
  }

  lemma GrantLinks(w: World, w': World, m: Message, d: Desc)
    requires Links(w) && w.ba != [] && w.ba[0] == m && m.Return? && Descs(m) == [d]
    requires w'.exports == w.exports && w'.ba == w.ba[1..] && Taken(w, w', d)
    ensures Links(w')
  {
    hide Tidy, Linked, LinkedSoon, Bound;
    forall p | 0 <= p < |w'.exports|
      ensures Tidy(w', p)
    {
      GrantTidy(w, w', m, d, p);
    }
    forall p | p in w'.imports
      ensures Linked(w', p)
    {
      LearnedLinked(w, w', p);
    }
    forall id: nat | Bound(w, id)
      ensures Bound(w', id)
    {
      BoundBehind(w, w', id);
    }
    forall i | 0 <= i < |w'.ba|
      ensures LinkedSoon(w', i)
    {
      LinkedSoonBehind(w, w', i);
    }
  }

  lemma GrantTidy(w: World, w': World, m: Message, d: Desc, p: nat)
    requires p < |w.exports| && Tidy(w, p) && w.ba != [] && w.ba[0] == m && m.Return? && Descs(m) == [d]
    requires w'.exports == w.exports && w'.ba == w.ba[1..] && Taken(w, w', d)
    ensures Tidy(w', p)
  {
    assert d in Descs(m);
    if !IsGrantOf(d, p) {
      assert !Mentions(m, p);
      hide Mentions, HandsOver;
      TidyBehind(w, w', p);
    } else {
      assert Mentions(m, p);
    }
  }

  lemma LearnedLinked(w: World, w': World, p: nat)
    requires p in w'.imports && Learned(w, w') && w'.exports == w.exports && (p in w.imports ==> Linked(w, p))
    ensures Linked(w', p)
  {
  }

  /** What a resolution brings: import `p` resolves, and what it resolves to may be new. */
  ghost predicate Heard(w: World, w': World, p: nat, found: Found, desc: Option<Desc>)
  {
    && p in w.imports && w.imports.Keys <= w'.imports.Keys
    && w'.imports[p].client.resolved == Some(found)
    && (forall q :: q in w.imports && q != p ==>
          && w'.imports[q].client.resolved == w.imports[q].client.resolved
          && (w.imports[q].isPromise ==> w'.imports[q].isPromise))
    && (forall q :: q in w'.imports && q !in w.imports ==>
          w'.imports[q].client.resolved.None? && desc.Some? && IsGrantOf(desc.value, q))
    && (found.Remote? ==> desc.Some? && IsGrantOf(desc.value, found.id))
  }

  /** A promise that is being announced is known to the importer as one, and unresolved. */
  lemma Expected(w: World)
    requires Links(w) && Shape(w) && w.ba != [] && w.ba[0].Resolve?
    ensures var p := w.ba[0].promiseId;
      && p < |w.exports| && w.exports[p].promise && w.exports[p].settled
      && p in w.imports && w.imports[p].isPromise && Resolved(w, p) == 0 && Resolves(w.ba[1..], p) == 0
  {
    var m := w.ba[0];
    assert m in w.ba && BaOk(w, m);
    assert Tidy(w, m.promiseId);
    assert Mentions(m, m.promiseId);
  }

  lemma HeadIsOk(w: World)
    requires Shape(w) && w.ba != []
    ensures BaOk(w, w.ba[0])
  {
    assert w.ba[0] in w.ba;
  }

  lemma ResolveHears(w: World) returns (found: Found)
    requires w.ba != [] && w.ba[0].Resolve? && BaOk(w, w.ba[0])
    requires w.ba[0].promiseId in w.imports && w.imports[w.ba[0].promiseId].isPromise
    requires !w.imports[w.ba[0].promiseId].client.closed
    ensures var w' := ImporterHandles(w.(ba := w.ba[1..]), w.ba[0]);
      && w'.exports == w.exports && w'.ba == w.ba[1..]
      && Heard(w, w', w.ba[0].promiseId, found, if Descs(w.ba[0]) == [] then None else Some(Descs(w.ba[0])[0]))
    ensures forall id :: LeadsTo(w.ba[0], id) <==> found == Remote(id)
  {
    hide HostOf, SameObject;
    var m, p := w.ba[0], w.ba[0].promiseId;
    var w1 := w.(ba := w.ba[1..]);
    match m.resolution
    case ToException =>
      found := Broken;
      assert ImporterHandles(w1, m) == SetResolved(w1, p, Broken);
    case ToCap(SenderHosted(id, obj)) =>
      found := Remote(id);
      RemoteIsHeard(w, m, id, obj);
    case ToCap(ReceiverHosted(k, obj)) => found := Own(ImportedCap(k, obj));
    case ToCap(ReceiverAnswer(q, serial)) => found := Own(PromisedAnswer(q, serial));
  }

  lemma RemoteIsHeard(w: World, m: Message, id: nat, obj: nat)
    requires w.ba != [] && m == w.ba[0] && m.Resolve? && m.resolution == ToCap(SenderHosted(id, obj))
    requires m.promiseId in w.imports && w.imports[m.promiseId].isPromise && !w.imports[m.promiseId].client.closed
    ensures var w' := ImporterHandles(w.(ba := w.ba[1..]), m);
      w'.exports == w.exports && w'.ba == w.ba[1..] && Heard(w, w', m.promiseId, Remote(id), Some(Descs(m)[0]))
  {
    assert w.imports.Keys <= AddImport(w.imports, id, false).Keys;
  }

  lemma OpenImport(w: World, p: nat)
    requires Struct(w) && p in w.imports
    ensures p < |w.exports| && !w.imports[p].client.closed
  {
    assert Placed(w, p);
  }

  lemma ResolveHead(w: World)
    requires Links(w) && Struct(w) && w.ba != [] && w.ba[0].Resolve?
    ensures Links(ImporterHandles(w.(ba := w.ba[1..]), w.ba[0]))
  {
    hide ImporterHandles, Shape;
    Expected(w);
    HeadIsOk(w);
    OpenImport(w, w.ba[0].promiseId);
    var found := ResolveHears(w);
    HeardLinks(w, ImporterHandles(w.(ba := w.ba[1..]), w.ba[0]), w.ba[0], found);
  }

  lemma HeardLinks(w: World, w': World, m: Message, found: Found)
    requires Links(w) && Shape(w) && w.ba != [] && w.ba[0] == m && m.Resolve?
    requires w'.exports == w.exports && w'.ba == w.ba[1..]
    requires Heard(w, w', m.promiseId, found, if Descs(m) == [] then None else Some(Descs(m)[0]))
    requires forall id :: LeadsTo(m, id) <==> found == Remote(id)
    ensures Links(w')
  {
    Expected(w);
    hide Shape, Tidy, Linked, LinkedSoon, Bound;
    forall q | 0 <= q < |w'.exports|
      ensures Tidy(w', q)
    {
      HeardTidy(w, w', m, found, q);
    }
    forall q | q in w'.imports
      ensures Linked(w', q)
    {
      HeardLinked(w, w', m, found, q);
    }
    forall id: nat | Bound(w, id)
      ensures Bound(w', id)
    {
      BoundBehind(w, w', id);
    }
    forall i | 0 <= i < |w'.ba|
      ensures LinkedSoon(w', i)
    {
      LinkedSoonBehind(w, w', i);
    }
  }

  lemma HeardTidy(w: World, w': World, m: Message, found: Found, q: nat)
    requires q < |w.exports| && Tidy(w, q) && w.ba != [] && w.ba[0] == m && m.Resolve? && w'.exports == w.exports && w'.ba == w.ba[1..]
    requires m.promiseId < |w.exports| && w.exports[m.promiseId].promise && w.exports[m.promiseId].settled
    requires Resolves(w.ba[1..], m.promiseId) == 0
    requires Heard(w, w', m.promiseId, found, if Descs(m) == [] then None else Some(Descs(m)[0]))
    ensures Tidy(w', q)
  {
    if q != m.promiseId {
      if Mentions(m, q) {
        assert !HandsOver(m, q);
      } else {
        hide Mentions, HandsOver;
        assert q in w'.imports && q !in w.imports ==> Mentions(m, q) by {
          NewIsMentioned(w, w', m, found, q);
        }
        TidyBehind(w, w', q);
      }
    }
  }

  lemma NewIsMentioned(w: World, w': World, m: Message, found: Found, q: nat)
    requires m.Resolve? && Heard(w, w', m.promiseId, found, if Descs(m) == [] then None else Some(Descs(m)[0]))
    ensures q in w'.imports && q !in w.imports ==> Mentions(m, q)
  {
    if q in w'.imports && q !in w.imports {
      assert Descs(m)[0] in Descs(m);
    }
  }

  lemma HeardLinked(w: World, w': World, m: Message, found: Found, q: nat)
    requires q in w'.imports && (q in w.imports ==> Linked(w, q))
    requires w.ba != [] && w.ba[0] == m && m.Resolve? && w'.exports == w.exports && LinkedSoon(w, 0)
    requires Resolved(w, m.promiseId) == 0 && m.promiseId < |w.exports|
    requires Heard(w, w', m.promiseId, found, if Descs(m) == [] then None else Some(Descs(m)[0]))
    requires forall id :: LeadsTo(m, id) <==> found == Remote(id)
    ensures Linked(w', q)
  {
    if q == m.promiseId {
      if found.Remote? {
        assert LeadsTo(m, found.id);
        if w.exports[found.id].promise && found.id != q {
          assert w.ba[0..] == w.ba;
          BoundIsCircle(w, found.id);
        }
      }
    }
  }

  lemma BoundIsCircle(w: World, id: nat)
    requires Bound(w, id) && Resolves(w.ba, id) == 0
    ensures Circle(w, id)
  {
    if !Circle(w, id) {
      var obj: nat :| Resolve(id, ToCap(SenderHosted(id, obj))) in w.ba;
      ResolveCounts(w.ba, Resolve(id, ToCap(SenderHosted(id, obj))));
    }
  }

  lemma EchoChangesNoLink(w: World)
    requires w.ba != [] && w.ba[0].Disembargo?
    ensures var w' := ImporterHandles(w.(ba := w.ba[1..]), w.ba[0]);
      SameImports(w, w') && w'.exports == w.exports && w'.ba == w.ba[1..]
  {
  }

  lemma ImporterLinks(w: World)
    requires Inv(w) && Links(w) && w.ba != []
    ensures Links(ImporterHandles(w.(ba := w.ba[1..]), w.ba[0]))
  {
    hide Tidy, Linked, LinkedSoon, Line, Kept, ImporterHandles, Shape, Embargoes, Numbered, Placed;
    match w.ba[0]
    case Return(_, _, _, _) => GrantHead(w);
    case Resolve(_, _) => ResolveHead(w);
    case Disembargo(_, _) =>
      EchoChangesNoLink(w);
      QuietHead(w, ImporterHandles(w.(ba := w.ba[1..]), w.ba[0]));
    case _ =>
      assert w.ba[0] in w.ba;
      OtherIsPlain(w);
      QuietHead(w, ImporterHandles(w.(ba := w.ba[1..]), w.ba[0]));
  }

  lemma OtherIsPlain(w: World)
    requires w.ba != [] && !w.ba[0].Return? && !w.ba[0].Resolve? && !w.ba[0].Disembargo? && Slim(w.ba[0])
    ensures Plain(w.ba[0])
    ensures var w' := ImporterHandles(w.(ba := w.ba[1..]), w.ba[0]);
      SameImports(w, w') && w'.exports == w.exports && w'.ba == w.ba[1..]
  {
  }

  // ---------------------------------------------------------------------------------------------
  // Every action

  lemma IssueChangesNoLink(w: World, p: nat, body: Body)
    requires p in w.imports
    ensures var w' := CallImport(w, p, body);
      SameImports(w, w') && w'.exports == w.exports && w'.ba == w.ba
    decreases p
  {
    var entry := w.imports[p];
    if entry.client.Call(body).1.Passed? {
      match entry.client.resolved
      case Some(Remote(id)) =>
        if id < p && id in w.imports {
          IssueChangesNoLink(w, id, body);
        }
      case _ =>
    }
  }

  lemma ExporterChangesNoLink(w: World) returns (more: seq<Message>)
    requires w.ab != []
    ensures var w' := ExporterHandles(w.(ab := w.ab[1..]), w.ab[0]);
      && SameImports(w, w') && SameExports(w, w') && w'.ba == w.ba + more
      && forall m :: m in more ==> !m.Resolve? && Slim(m)
  {
    var m := w.ab[0];
    more := [];
    assert w.ba + more == w.ba;
    if m.Disembargo? && m.context.SenderLoopback? {
      more := [Disembargo(ReceiverLoopback(m.context.id), m.target)];
    } else if m.Call? && m.target.ImportedCap? && m.target.id < |w.exports| {
      var x := w.exports[m.target.id].client;
      if x.Call(m.body).1.Passed? && x.resolved.value.Back? {
        more := [CallAt(x.resolved.value.k, m.body)];
      }
    }
  }

  lemma ActLinks(w: World, a: Action)
    requires Inv(w) && Links(w) && Enabled(w, a)
    ensures Links(Act(w, a))
  {
    hide Links, Inv, SettleCap, SettleError, ImporterHandles, ExporterHandles, ExportPromise, ExportOwn, CallImport, FirstWith;
    match a
    case DoIssue(p) =>
      var body := Body(p, |w.issued|);
      IssueChangesNoLink(w.(issued := w.issued + [body]), p, body);
      QuietKeeps(w, Act(w, a), []);
    case DoExportPromise => PromiseLinks(w);
    case DoRegrant(p) =>
      GrantIsSingle(Grant(SenderPromise(p, 0)), SenderPromise(p, 0));
      QuietKeeps(w, Act(w, a), [Grant(SenderPromise(p, 0))]);
    case DoExportOwn(obj) => OwnLinks(w, obj);
    case DoSettleCap(p, host) =>
      if w.exports[p].settled {
        SettledAlready(w, p, host);
      } else {
        match host
        case Here(obj) => SettleHereLinks(w, p, obj);
        case Back(k) => SettleBackLinks(w, p, k);
      }
    case DoSettleError(p) => SettleErrorLinks(w, p);
    case ImporterReceives => ImporterLinks(w);
    case ExporterReceives =>
      var more := ExporterChangesNoLink(w);
      QuietKeeps(w, Act(w, a), more);
    case ImporterChats(m) => QuietKeeps(w, Act(w, a), []);
    case ExporterChats(m) => QuietKeeps(w, Act(w, a), [m]);
  }

  lemma SettledAlready(w: World, p: nat, host: Host)
    requires p < |w.exports| && w.exports[p].settled
    ensures SettleCap(w, p, host) == w
  {
  }

  lemma BeginHasNoLinks()
    ensures Links(Begin())
  {
  }

  lemma {:induction false} RunLinks(run: seq<World>, i: nat)
    requires Run(run) && i < |run|
    ensures Inv(run[i]) && Links(run[i])
  {
    hide Inv, Links;
    RunIsOk(run, i);
    if i == 0 {
      BeginHasNoLinks();
    } else {
      RunLinks(run, i - 1);
      assert Next(run[i - 1], run[(i - 1) + 1]);
      var a :| Enabled(run[i - 1], a) && run[i] == Act(run[i - 1], a);
      ActLinks(run[i - 1], a);
    }
  }

  // ---------------------------------------------------------------------------------------------
  // What the importer is told stays what it was told

  /** Promise `p` has settled, and the importer was told, or will be, that it is export `first`. */
  ghost predicate Told(w: World, p: nat, first: nat) {
    && p < |w.exports| && w.exports[p].settled
    && (forall m :: m in w.ba && m.Resolve? && m.promiseId == p ==> LeadsTo(m, first))
    && (p in w.imports && w.imports[p].client.resolved.Some? ==> w.imports[p].client.resolved == Some(Remote(first)))
  }

  lemma ToldStays(w: World, a: Action, p: nat, first: nat)
    requires Inv(w) && Links(w) && Enabled(w, a) && Told(w, p, first)
    ensures Told(Act(w, a), p, first)
  {
    hide Links, Inv, ImporterHandles, ExporterHandles, CallImport, FirstWith, LeadsTo;
    match a
    case DoIssue(q) =>
      var body := Body(q, |w.issued|);
      IssueChangesNoLink(w.(issued := w.issued + [body]), q, body);
    case DoSettleCap(q, host) =>
      if !w.exports[q].settled {
        match host
        case Here(obj) =>
        case Back(k) =>
          OpenExportOf(w, q);
          CallsArePlain(k, w.exports[q].client.queue);
      }
    case ImporterReceives => ToldAfterHead(w, p, first);
    case ExporterReceives =>
      var more := ExporterChangesNoLink(w);
    case _ =>
  }

  lemma OpenExportOf(w: World, p: nat)
    requires Inv(w) && p < |w.exports|
    ensures !w.exports[p].client.closed
  {
    hide Line, Kept;
    OpenExport(w, p);
  }

  lemma ToldAfterHead(w: World, p: nat, first: nat)
    requires Inv(w) && Links(w) && w.ba != [] && Told(w, p, first)
    ensures Told(ImporterHandles(w.(ba := w.ba[1..]), w.ba[0]), p, first)
  {
    hide Tidy, Linked, LinkedSoon, Line, Kept, ImporterHandles, Shape, Embargoes, Numbered, Placed, LeadsTo;
    var m, w' := w.ba[0], ImporterHandles(w.(ba := w.ba[1..]), w.ba[0]);
    assert m in w.ba;
    if m.Return? {
      if Descs(m) == [] {
        NothingGranted(w, m);
      } else {
        assert Slim(m) && Descs(m) == [Descs(m)[0]];
        OneTaken(w, m, Descs(m)[0]);
      }
    } else if m.Resolve? {
      Expected(w);
      HeadIsOk(w);
      OpenImport(w, m.promiseId);
      var found := ResolveHears(w);
      if m.promiseId == p {
        assert LeadsTo(m, first);
      }
    } else if m.Disembargo? {
      EchoChangesNoLink(w);
    } else {
      OtherIsPlain(w);
    }
  }

  lemma {:induction false} ToldForGood(run: seq<World>, i: nat, k: nat, p: nat, first: nat)
    requires Run(run) && i <= k < |run| && Told(run[i], p, first)
    ensures Told(run[k], p, first)
    decreases k
  {
    hide Inv, Links, Told, Act, Enabled;
    if i < k {
      ToldForGood(run, i, k - 1, p, first);
      RunLinks(run, k - 1);
      assert Next(run[k - 1], run[(k - 1) + 1]);
      var a :| Enabled(run[k - 1], a) && run[k] == Act(run[k - 1], a);
      ToldStays(run[k - 1], a, p, first);
    }
  }

  // ---------------------------------------------------------------------------------------------
  // When a call goes around a circle

  /** The export a promise is announced as when it settles to `obj`. */
  function AnnouncedAs(w: World, p: nat, obj: nat): nat
    requires p < |w.exports|
  {
    var k := FirstWith(w.exports, obj);
    if k < p then k else p
  }

  lemma AnnouncedOnce(w: World, p: nat, obj: nat)
    requires Inv(w) && Links(w) && p < |w.exports| && !w.exports[p].settled
    ensures Told(SettleCap(w, p, Here(obj)), p, AnnouncedAs(w, p, obj))
  {
    hide Links, Inv;
    OpenExportOf(w, p);
    Unannounced(w, p);
    var x := w.exports[p].(settled := true, client := w.exports[p].client.Resolve(Here(obj)).0);
    FirstAfter(w.exports, p, x, obj);
    var w' := SettleCap(w, p, Here(obj));
    forall m | m in w'.ba && m.Resolve? && m.promiseId == p
      ensures LeadsTo(m, AnnouncedAs(w, p, obj))
    {
      if m in w.ba {
        ResolveCounts(w.ba, m);
      }
    }
  }

  lemma Unannounced(w: World, p: nat)
    requires Inv(w) && Links(w) && p < |w.exports| && !w.exports[p].settled
    ensures Resolves(w.ba, p) == 0 && Resolved(w, p) == 0
  {
    assert Tidy(w, p);
  }

  lemma FirstAfter(exports: seq<ExportEntry>, p: nat, x: ExportEntry, obj: nat)
    requires p < |exports| && x.client.resolved == Some(Here(obj))
    ensures FirstWith(exports[p := x], obj) == if FirstWith(exports, obj) < p then FirstWith(exports, obj) else p
  {
    var after := exports[p := x];
    assert after[p].client.resolved == Some(Here(obj));
    assert forall j :: 0 <= j < p ==> after[j] == exports[j];
  }

  /** A call on an import that stands for export `first` is lost if that was handed over as a promise,
      and goes to it otherwise. */
  lemma LedAround(w: World, p: nat, first: nat, body: Body)
    requires Struct(w) && Links(w) && p in w.imports && w.imports[p].client.resolved == Some(Remote(first))
    ensures first < |w.exports|
    ensures w.exports[first].promise ==> CallImport(w, p, body) == Fail(w, [body], Circular(first))
    ensures !w.exports[first].promise ==>
      && CallImport(w, p, body) == w.(ab := w.ab + [CallOn(first, body)])
      && HostOf(w, first) == HostOf(w, p) && HostOf(w, p).Some? && HostOf(w, p).value.Here?
  {
    hide Numbered, Shape, Embargoes, CallsOn, CallsAfter, Marks, Resolves, GrantFirst, LinkedSoon;
    OpenImport(w, p);
    assert Placed(w, p) && Linked(w, p) && Tidy(w, p);
    assert first <= p && first in w.imports;
    assert Placed(w, first) && Tidy(w, first);
  }

  lemma ActKeepsSlot(w: World, a: Action, q: nat)
    requires Inv(w) && Enabled(w, a) && q < |w.exports|
    ensures var w' := Act(w, a);
      && q < |w'.exports| && w'.exports[q].promise == w.exports[q].promise
      && (w.exports[q].settled ==> w'.exports[q].settled && HostOf(w', q) == HostOf(w, q))
  {
    hide Inv, ImporterHandles, ExporterHandles, CallImport, FirstWith;
    match a
    case DoIssue(p) =>
      var body := Body(p, |w.issued|);
      IssueChangesNoLink(w.(issued := w.issued + [body]), p, body);
    case DoSettleCap(p, host) => OpenExportOf(w, p);
    case DoSettleError(p) => OpenExportOf(w, p);
    case ImporterReceives => ImporterKeepsExports(w.(ba := w.ba[1..]), w.ba[0]);
    case ExporterReceives =>
      var more := ExporterChangesNoLink(w);
    case _ =>
  }

  lemma ImporterKeepsExports(w: World, m: Message)
    ensures ImporterHandles(w, m).exports == w.exports
  {
  }

  lemma {:induction false} SlotStays(run: seq<World>, i: nat, k: nat, q: nat)
    requires Run(run) && i <= k < |run| && q < |run[i].exports|
    ensures q < |run[k].exports| && run[k].exports[q].promise == run[i].exports[q].promise
    ensures run[i].exports[q].settled ==> run[k].exports[q].settled && HostOf(run[k], q) == HostOf(run[i], q)
    decreases k
  {
    hide Inv, HostOf, Act, Enabled;
    if i < k {
      SlotStays(run, i, k - 1, q);
      RunIsOk(run, k - 1);
      assert Next(run[k - 1], run[(k - 1) + 1]);
      var a :| Enabled(run[k - 1], a) && run[k] == Act(run[k - 1], a);
      ActKeepsSlot(run[k - 1], a, q);
    }
  }

  lemma AnnouncedSlot(w: World, p: nat, obj: nat)
    requires Inv(w) && p < |w.exports| && !w.exports[p].settled
    ensures var first, w' := AnnouncedAs(w, p, obj), SettleCap(w, p, Here(obj));
      && first < |w'.exports| == |w.exports| && w'.exports[first].promise == w.exports[first].promise
      && HostOf(w', p) == Some(Here(obj)) == HostOf(w', first) && w'.exports[first].settled
  {
    hide Inv;
    OpenExportOf(w, p);
    var first := AnnouncedAs(w, p, obj);
    HostIsSettled(w, first);
  }

  lemma HostIsSettled(w: World, p: nat)
    requires Inv(w) && p < |w.exports|
    ensures HostOf(w, p).Some? ==> w.exports[p].settled
  {
    assert Placed(w, p);
  }

  lemma IssueIsNew(w: World, p: nat)
    requires Inv(w) && Links(w) && p in w.imports
    ensures var body := Body(p, |w.issued|);
      var w1 := w.(issued := w.issued + [body]);
      Struct(w1) && Links(w1) && body !in w.failed && Issue(w, p) == CallImport(w1, p, body)
  {
    hide Links, Struct, Line, Kept, CallImport;
    var body := Body(p, |w.issued|);
    RecordIssue(w, body);
    StructIsNumbered(w);
    QuietKeeps(w, w.(issued := w.issued + [body]), []);
  }

  /** Exactly which calls are lost.  When a promise settles to an object of the exporter, every call
      issued on it after the importer has taken in the resolution fails if and only if the first export
      with that object, the promise's own included, was handed over as a promise; otherwise the call
      is sent to that export, which delivers to the object. */
  lemma LaterCallsAreLostIff(run: seq<World>, i: nat, k: nat, p: nat, obj: nat)
    requires Run(run) && i < k < |run|
    requires p < |run[i].exports| && !run[i].exports[p].settled && run[i + 1] == Act(run[i], DoSettleCap(p, Here(obj)))
    requires p in run[k].imports && run[k].imports[p].client.resolved.Some?
    ensures var first, w, body := AnnouncedAs(run[i], p, obj), run[k], Body(p, |run[k].issued|);
      && first < |w.exports| && w.exports[first].promise == run[i].exports[first].promise
      && (body in Issue(w, p).failed <==> run[i].exports[first].promise)
      && (run[i].exports[first].promise ==> Issue(w, p).failed[body] == Circular(first))
      && (!run[i].exports[first].promise ==>
            && Issue(w, p) == w.(issued := w.issued + [body], ab := w.ab + [CallOn(first, body)])
            && HostOf(w, first) == Some(Here(obj)))
  {
    hide Inv, Links, Struct, Told, CallImport, FirstWith, AnnouncedAs, Act;
    var first := AnnouncedAs(run[i], p, obj);
    RunLinks(run, i);
    SettlesBy(run[i], p, Here(obj));
    AnnouncedOnce(run[i], p, obj);
    AnnouncedSlot(run[i], p, obj);
    ToldForGood(run, i + 1, k, p, first);
    SlotStays(run, i + 1, k, first);
    RunLinks(run, k);
    ToldIs(run[k], p, first);
    var body := Body(p, |run[k].issued|);
    IssueIsNew(run[k], p);
    LedAround(run[k].(issued := run[k].issued + [body]), p, first, body);
  }

  lemma SettlesBy(w: World, p: nat, host: Host)
    requires p < |w.exports|
    ensures Act(w, DoSettleCap(p, host)) == SettleCap(w, p, host)
  {
  }

  lemma ToldIs(w: World, p: nat, first: nat)
    requires Told(w, p, first) && p in w.imports && w.imports[p].client.resolved.Some?
    ensures w.imports[p].client.resolved == Some(Remote(first))
  {
  }

  /** The export a call was sent to delivers it to the object. */
  lemma SentCallsAreDelivered(run: seq<World>, k: nat, first: nat, obj: nat, body: Body)
    requires Run(run) && k < |run| && HostOf(run[k], first) == Some(Here(obj))
    ensures ExporterHandles(run[k], CallOn(first, body)) == Deliver(run[k], [body], AtExporter(obj))
  {
    hide Inv;
    RunIsOk(run, k);
    OpenExportOf(run[k], first);
  }

  /** A call is answered with an error only because a queue was full, its promise was rejected, or its
      reference settled to an object of the exporter and was led to an export of that object that was
      handed over as a promise, whose import resolves to itself. */
  lemma FailuresAreExplained(run: seq<World>, i: nat, b: Body)
    requires Run(run) && i < |run| && b in run[i].failed
    ensures run[i].failed[b].Rejected? ==>
      b.ref < |run[i].exports| && run[i].exports[b.ref].settled && run[i].exports[b.ref].client.resolved.None?
    ensures run[i].failed[b].Circular? ==>
      var id := run[i].failed[b].id;
      && b.ref < |run[i].exports| && HostOf(run[i], b.ref).Some? && HostOf(run[i], b.ref).value.Here?
      && id < |run[i].exports| && run[i].exports[id].promise && HostOf(run[i], id) == HostOf(run[i], b.ref)
      && id in run[i].imports && run[i].imports[id].client.resolved == Some(Remote(id))
  {
    RunLinks(run, i);
    assert ReasonOk(run[i], b, run[i].failed[b]);
    if run[i].failed[b].Circular? {
      assert Tidy(run[i], run[i].failed[b].id);
    }
  }

  /** A promise that settles to a capability of the importer loses no call but to a full queue. */
  lemma PathToImporterIsSafe(run: seq<World>, i: nat, b: Body)
    requires Run(run) && i < |run| && b in run[i].failed
    requires b.ref < |run[i].exports| && run[i].exports[b.ref].client.resolved.Some?
    requires run[i].exports[b.ref].client.resolved.value.Back?
    ensures run[i].failed[b].QueueFull?
  {
    FailuresAreExplained(run, i, b);
  }

  // ---------------------------------------------------------------------------------------------
  // A promise announced as itself

  /** A promise that settles to an object of the exporter is announced as the very import it resolves
      if and only if no earlier export is that object. */
  lemma AnnouncedAsItselfIff(w: World, p: nat, obj: nat)
    requires p < |w.exports| && !w.exports[p].settled && !w.exports[p].client.closed
    ensures var w' := SettleCap(w, p, Here(obj));
      && w'.ba != []
      && (w'.ba[|w'.ba| - 1] == Resolve(p, ToCap(SenderHosted(p, 0)))
          <==> forall j :: 0 <= j < p ==> w.exports[j].client.resolved != Some(Here(obj)))
  {
    var x := w.exports[p].(settled := true, client := ExportState(false, Some(Here(obj)), []));
    var exports := w.exports[p := x];
    assert exports[p].client.resolved == Some(Here(obj));
    assert forall j :: 0 <= j < p ==> exports[j] == w.exports[j];
  }

  /** From then on every call on it fails, in every state. */
  lemma CircularCallsFail(run: seq<World>, i: nat, p: nat)
    requires Run(run) && i < |run| && p in run[i].imports && run[i].imports[p].client.resolved == Some(Remote(p))
    ensures var w := run[i];
      Issue(w, p) == Fail(w.(issued := w.issued + [Body(p, |w.issued|)]), [Body(p, |w.issued|)], Circular(p))
  {
    RunIsOk(run, i);
    assert Placed(run[i], p);
  }

  /** A run that gets there: a promise is handed over, settles to an object of the exporter, and is
      called. */
  function CircularRun(): seq<World> {
    var promise, found := ExportEntry(true, false, NewExport()), ExportEntry(true, true, ExportState(false, Some(Here(7)), []));
    var waiting := ImportEntry(true, NewImport());
    var circular := ImportEntry(false, ImportState(false, Some(Remote(0)), None, []));
    var w0 := Begin();
    var w1 := w0.(exports := [promise], ba := [Grant(SenderPromise(0, 0))]);
    var w2 := w1.(imports := map[0 := waiting], ba := []);
    var w3 := w2.(exports := [found], ba := [Resolve(0, ToCap(SenderHosted(0, 0)))]);
    var w4 := w3.(imports := map[0 := circular], ba := []);
    var w5 := w4.(issued := [Body(0, 0)], failed := map[Body(0, 0) := Circular(0)]);
    [w0, w1, w2, w3, w4, w5]
  }

  lemma CircularHandOver()
    ensures Next(CircularRun()[0], CircularRun()[1]) && Next(CircularRun()[1], CircularRun()[2])
  {
    var run := CircularRun();
    var desc := SenderPromise(0, 0);
    assert [desc][1..] == [];
    assert run[1].ba[1..] == [];
    assert run[1] == Act(run[0], DoExportPromise);
    assert run[2] == Act(run[1], ImporterReceives);
  }

  lemma CircularSettles()
    ensures Next(CircularRun()[2], CircularRun()[3]) && Next(CircularRun()[3], CircularRun()[4])
  {
    var run := CircularRun();
    assert FirstWith(run[3].exports, 7) == 0;
    assert run[3].ba[1..] == [];
    assert run[3] == Act(run[2], DoSettleCap(0, Here(7)));
    assert run[4] == Act(run[3], ImporterReceives);
  }

  lemma CircularIsCalled()
    ensures Next(CircularRun()[4], CircularRun()[5])
    ensures CircularRun()[5].failed == map[Body(0, 0) := Circular(0)]
  {
    assert CircularRun()[5] == Act(CircularRun()[4], DoIssue(0));
  }

  lemma CircularIsReachable()
    ensures Run(CircularRun()) && CircularRun()[5].failed == map[Body(0, 0) := Circular(0)]
  {
    hide Next;
    CircularHandOver();
    CircularSettles();
    CircularIsCalled();
  }

  // ---------------------------------------------------------------------------------------------
  // A promise that was rejected

  ghost predicate WasRejected(w: World, p: nat) {
    p < |w.exports| && w.exports[p].settled && HostOf(w, p).None?
  }

  lemma RejectedHolds(w: World, a: Action, p: nat)
    requires Inv(w) && Enabled(w, a) && WasRejected(w, p)
    ensures WasRejected(Act(w, a), p) && HeldAtExporter(w, p) <= HeldAtExporter(Act(w, a), p)
  {
    ActKeepsSlot(w, a, p);
    hide Inv, ImporterHandles, CallImport, FirstWith;
    match a
    case DoIssue(q) =>
      var body := Body(q, |w.issued|);
      IssueChangesNoLink(w.(issued := w.issued + [body]), q, body);
    case DoSettleCap(q, host) => OpenExportOf(w, q);
    case DoSettleError(q) => OpenExportOf(w, q);
    case ImporterReceives => ImporterKeepsExports(w.(ba := w.ba[1..]), w.ba[0]);
    case _ =>
  }

  lemma {:induction false} RejectedHoldsOn(run: seq<World>, i: nat, k: nat, p: nat)
    requires Run(run) && i <= k < |run| && WasRejected(run[i], p)
    ensures WasRejected(run[k], p) && HeldAtExporter(run[i], p) <= HeldAtExporter(run[k], p)
    decreases k
  {
    hide Inv, WasRejected, HeldAtExporter, Act, Enabled;
    if i < k {
      RejectedHoldsOn(run, i, k - 1, p);
      RunIsOk(run, k - 1);
      assert Next(run[k - 1], run[(k - 1) + 1]);
      var a :| Enabled(run[k - 1], a) && run[k] == Act(run[k - 1], a);
      RejectedHolds(run[k - 1], a, p);
    }
  }

  /** A call that a held queue holds is neither delivered nor failed. */
  lemma HeldIsOpen(w: World, p: nat, b: Body)
    requires Inv(w) && p < |w.exports| && b in HeldAtExporter(w, p)
    ensures b !in w.failed && forall d :: d in w.delivered ==> d.body != b
  {
    hide Struct, Kept, CallsOn, DeliveredOf, Line;
    HeldIsOwn(w, p);
    StructIsNumbered(w);
    KeptSorted(w, p);
    assert Line(w, p) == Kept(w, p);
    LineIsJoin(w, p);
    var parts := PartsOf(w, p);
    var rest := parts.b + parts.c + parts.d + parts.e;
    assert Join(parts) == parts.a + rest;
    KeptIsNotFailed(w, p);
    forall d | d in w.delivered
      ensures d.body != b
    {
      if d.body == b {
        var j :| 0 <= j < |w.delivered| && w.delivered[j] == d;
        DeliveredHas(w.delivered, j);
        PartsAreOrdered(parts.a, rest, b, b);
      }
    }
  }

  lemma KeptIsNotFailed(w: World, p: nat)
    ensures forall b :: b in Kept(w, p) ==> b !in w.failed
  {
    hide Minus, Of;
    MinusKeeps(Of(w.issued, p), w.failed.Keys);
  }

  /** A call that arrives at a promise export after its rejection is held, or refused when the queue is
      full; held once, it is still held, neither delivered nor answered, in every later state. */
  lemma LateCallsAreHeldForGood(run: seq<World>, i: nat, k: nat, p: nat)
    requires Run(run) && i < k < |run| && WasRejected(run[i], p)
    requires run[i].ab != [] && run[i].ab[0].Call? && run[i].ab[0].target.ImportedCap? && run[i].ab[0].target.id == p
    requires run[i + 1] == Act(run[i], ExporterReceives)
    ensures var b := run[i].ab[0].body;
      if |HeldAtExporter(run[i], p)| < 64
      then b in HeldAtExporter(run[k], p) && b !in run[k].failed && forall d :: d in run[k].delivered ==> d.body != b
      else b in run[i + 1].failed && run[i + 1].failed[b] == QueueFull
  {
    hide Inv, FirstWith;
    RunIsOk(run, i);
    OpenExportOf(run[i], p);
    if |HeldAtExporter(run[i], p)| < 64 {
      var b := run[i].ab[0].body;
      assert b in HeldAtExporter(run[i + 1], p);
      assert WasRejected(run[i + 1], p);
      RejectedHoldsOn(run, i + 1, k, p);
      RunIsOk(run, k);
      HeldIsOpen(run[k], p, b);
    }
  }
}
