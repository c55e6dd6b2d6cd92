/**
 Calls on one reference arrive in the order they were issued, although the path to their target
 shortens while they are under way: what every step of `OrderWorld` keeps.
 */
module EOrder {
  import opened Options
  import opened IdTables
  import opened RpcMessages
  import opened PromiseClients
  import opened OrderWorld

  // ---------------------------------------------------------------------------------------------
  // Views of the channels and of the record

  /** The calls on reference `p`, whichever export they name. */
  function CallsOn(ch: seq<Message>, p: nat): seq<Body> {
    if ch == [] then []
    else (if ch[0].Call? && ch[0].body.ref == p then [ch[0].body] else []) + CallsOn(ch[1..], p)
  }

  function Of(bodies: seq<Body>, p: nat): seq<Body> {
    if bodies == [] then []
    else (if bodies[0].ref == p then [bodies[0]] else []) + Of(bodies[1..], p)
  }

  function DeliveredOf(ds: seq<Delivery>, p: nat): seq<Body> {
    if ds == [] then []
    else (if ds[0].body.ref == p then [ds[0].body] else []) + DeliveredOf(ds[1..], p)
  }

  function Minus(bodies: seq<Body>, gone: set<Body>): seq<Body> {
    if bodies == [] then []
    else (if bodies[0] in gone then [] else [bodies[0]]) + Minus(bodies[1..], gone)
  }

  predicate IsMark(m: Message, e: nat) {
    m.Disembargo? && m.context.id == e
  }

  /** Disembargo messages for embargo `e`. */
  function Marks(ch: seq<Message>, e: nat): nat {
    if ch == [] then 0 else (if IsMark(ch[0], e) then 1 else 0) + Marks(ch[1..], e)
  }

  /** The calls on `p` behind the first Disembargo for `e`. */
  function CallsAfter(ch: seq<Message>, e: nat, p: nat): seq<Body> {
    if ch == [] then []
    else if IsMark(ch[0], e) then CallsOn(ch[1..], p)
    else CallsAfter(ch[1..], e, p)
  }

  function Resolves(ch: seq<Message>, p: nat): nat {
    if ch == [] then 0
    else (if ch[0].Resolve? && ch[0].promiseId == p then 1 else 0) + Resolves(ch[1..], p)
  }

  lemma {:induction false} CallsOnAppend(a: seq<Message>, b: seq<Message>, p: nat)
    ensures CallsOn(a + b, p) == CallsOn(a, p) + CallsOn(b, p)
  {
    if a == [] {
      assert a + b == b;
    } else {
      assert (a + b)[1..] == a[1..] + b;
      CallsOnAppend(a[1..], b, p);
      var head := if a[0].Call? && a[0].body.ref == p then [a[0].body] else [];
      assert head + (CallsOn(a[1..], p) + CallsOn(b, p)) == head + CallsOn(a[1..], p) + CallsOn(b, p);
    }
  }

  lemma {:induction false} OfAppend(a: seq<Body>, b: seq<Body>, p: nat)
    ensures Of(a + b, p) == Of(a, p) + Of(b, p)
  {
    if a == [] {
      assert a + b == b;
    } else {
      assert (a + b)[1..] == a[1..] + b;
      OfAppend(a[1..], b, p);
      var head := if a[0].ref == p then [a[0]] else [];
      assert head + (Of(a[1..], p) + Of(b, p)) == head + Of(a[1..], p) + Of(b, p);
    }
  }

  lemma {:induction false} DeliveredAppend(a: seq<Delivery>, b: seq<Delivery>, p: nat)
    ensures DeliveredOf(a + b, p) == DeliveredOf(a, p) + DeliveredOf(b, p)
  {
    if a == [] {
      assert a + b == b;
    } else {
      assert (a + b)[1..] == a[1..] + b;
      DeliveredAppend(a[1..], b, p);
      var head := if a[0].body.ref == p then [a[0].body] else [];
      assert head + (DeliveredOf(a[1..], p) + DeliveredOf(b, p)) == head + DeliveredOf(a[1..], p) + DeliveredOf(b, p);
    }
  }

  lemma {:induction false} MinusAppend(a: seq<Body>, b: seq<Body>, gone: set<Body>)
    ensures Minus(a + b, gone) == Minus(a, gone) + Minus(b, gone)
  {
    if a == [] {
      assert a + b == b;
    } else {
      assert (a + b)[1..] == a[1..] + b;
      MinusAppend(a[1..], b, gone);
      var head := if a[0] in gone then [] else [a[0]];
      assert head + (Minus(a[1..], gone) + Minus(b, gone)) == head + Minus(a[1..], gone) + Minus(b, gone);
    }
  }

  lemma {:induction false} MarksAppend(a: seq<Message>, b: seq<Message>, e: nat)
    ensures Marks(a + b, e) == Marks(a, e) + Marks(b, e)
  {
    if a == [] {
      assert a + b == b;
    } else {
      assert (a + b)[1..] == a[1..] + b;
      MarksAppend(a[1..], b, e);
    }
  }

  lemma {:induction false} ResolvesAppend(a: seq<Message>, b: seq<Message>, p: nat)
    ensures Resolves(a + b, p) == Resolves(a, p) + Resolves(b, p)
  {
    if a == [] {
      assert a + b == b;
    } else {
      assert (a + b)[1..] == a[1..] + b;
      ResolvesAppend(a[1..], b, p);
    }
  }

  lemma {:induction false} CallsAfterAppend(a: seq<Message>, b: seq<Message>, e: nat, p: nat)
    ensures CallsAfter(a + b, e, p)
         == if Marks(a, e) > 0 then CallsAfter(a, e, p) + CallsOn(b, p) else CallsAfter(b, e, p)
  {
    if a == [] {
      assert a + b == b;
    } else {
      assert (a + b)[1..] == a[1..] + b;
      CallsAfterAppend(a[1..], b, e, p);
      CallsOnAppend(a[1..], b, p);
    }
  }

  /** What one appended message changes. */
  lemma AppendOne(ch: seq<Message>, m: Message, e: nat, p: nat)
    ensures CallsOn(ch + [m], p) == CallsOn(ch, p) + (if m.Call? && m.body.ref == p then [m.body] else [])
    ensures Marks(ch + [m], e) == Marks(ch, e) + (if IsMark(m, e) then 1 else 0)
    ensures Resolves(ch + [m], p) == Resolves(ch, p) + (if m.Resolve? && m.promiseId == p then 1 else 0)
    ensures CallsAfter(ch + [m], e, p)
         == if Marks(ch, e) > 0 then CallsAfter(ch, e, p) + (if m.Call? && m.body.ref == p then [m.body] else []) else []
  {
    CallsOnAppend(ch, [m], p);
    MarksAppend(ch, [m], e);
    ResolvesAppend(ch, [m], p);
    CallsAfterAppend(ch, [m], e, p);
  }

  /** Forwarding the calls a promise held. */
  lemma {:induction false} CallsToAll(k: Target, bodies: seq<Body>, p: nat, e: nat)
    ensures CallsOn(CallsTo(k, bodies), p) == Of(bodies, p)
    ensures Marks(CallsTo(k, bodies), e) == 0 && Resolves(CallsTo(k, bodies), p) == 0
    ensures forall m :: m in CallsTo(k, bodies) ==> m.Call? && m.target == k && m.body in bodies
  {
    if bodies != [] {
      CallsToAll(k, bodies[1..], p, e);
    }
  }

  lemma {:induction false} DeliveredAll(bodies: seq<Body>, place: Place, p: nat)
    ensures DeliveredOf(DeliveredAt(bodies, place), p) == Of(bodies, p)
  {
    if bodies != [] {
      assert DeliveredAt(bodies, place)[1..] == DeliveredAt(bodies[1..], place);
      DeliveredAll(bodies[1..], place, p);
    }
  }

  lemma {:induction false} OfAll(bodies: seq<Body>, p: nat)
    ensures (forall b :: b in bodies ==> b.ref == p) ==> Of(bodies, p) == bodies
    ensures (forall b :: b in bodies ==> b.ref != p) ==> Of(bodies, p) == []
    ensures forall b :: b in Of(bodies, p) ==> b.ref == p && b in bodies
  {
    if bodies != [] {
      OfAll(bodies[1..], p);
    }
  }

  lemma {:induction false} MinusKeeps(bodies: seq<Body>, gone: set<Body>)
    ensures (forall b :: b in bodies ==> b !in gone) ==> Minus(bodies, gone) == bodies
    ensures (forall b :: b in bodies ==> b in gone) ==> Minus(bodies, gone) == []
    ensures forall b :: b in Minus(bodies, gone) ==> b in bodies && b !in gone
  {
    if bodies != [] {
      MinusKeeps(bodies[1..], gone);
    }
  }

  lemma {:induction false} MinusTwice(bodies: seq<Body>, gone: set<Body>, more: set<Body>)
    ensures Minus(bodies, gone + more) == Minus(Minus(bodies, gone), more)
  {
    if bodies != [] {
      MinusTwice(bodies[1..], gone, more);
      var head := if bodies[0] in gone then [] else [bodies[0]];
      assert Minus(head + Minus(bodies[1..], gone), more) == Minus(head, more) + Minus(Minus(bodies[1..], gone), more) by {
        MinusAppend(head, Minus(bodies[1..], gone), more);
      }
    }
  }

  // ---------------------------------------------------------------------------------------------
  // The line of calls on one reference

  function HeldAtExporter(w: World, p: nat): seq<Body> {
    if p < |w.exports| then w.exports[p].client.queue else []
  }

  function HeldAtImporter(w: World, p: nat): seq<Body> {
    if p in w.imports then w.imports[p].client.queue else []
  }

  /** Every call on `p` that has not failed, from the first delivered to the last issued. */
  function Line(w: World, p: nat): seq<Body> {
    DeliveredOf(w.delivered, p) + CallsOn(w.ba, p) + HeldAtExporter(w, p) + CallsOn(w.ab, p) + HeldAtImporter(w, p)
  }

  /** The calls issued on `p`, in order, minus those answered with an error. */
  function Kept(w: World, p: nat): seq<Body> {
    Minus(Of(w.issued, p), w.failed.Keys)
  }

  // ---------------------------------------------------------------------------------------------
  // The invariant

  function HostOf(w: World, p: nat): Option<Host> {
    if p < |w.exports| then w.exports[p].client.resolved else None
  }

  predicate SameObject(w: World, id: nat, p: nat) {
    HostOf(w, id).Some? && HostOf(w, id).value.Here? && HostOf(w, id) == HostOf(w, p)
  }

  /** Calls are numbered as they are issued. */
  predicate Numbered(w: World) {
    && (forall i :: 0 <= i < |w.issued| ==> w.issued[i].n == i)
    && (forall b :: b in w.failed ==> b.n < |w.issued|)
  }

  predicate AbOk(w: World, m: Message) {
    match m
    case Call(_, _, target, _, body) =>
      && target.ImportedCap? && target.id < |w.exports| && body.ref < |w.exports|
      && (target.id == body.ref || SameObject(w, target.id, body.ref))
    case Disembargo(context, _) => context.SenderLoopback?
    case Resolve(_, _) => false
    case _ => true
  }

  predicate BaOk(w: World, m: Message) {
    match m
    case Call(_, _, target, _, body) => HostOf(w, body.ref) == Some(Back(target))
    case Disembargo(context, _) => context.ReceiverLoopback?
    case Resolve(p, resolution) =>
      && p < |w.exports| && w.exports[p].settled
      && (match resolution
          case ToException => HostOf(w, p).None?
          case ToCap(SenderHosted(id, _)) => id <= p && SameObject(w, id, p)
          case ToCap(ReceiverHosted(k, obj)) => HostOf(w, p) == Some(Back(ImportedCap(k, obj)))
          case ToCap(ReceiverAnswer(q, serial)) => HostOf(w, p) == Some(Back(PromisedAnswer(q, serial)))
          case _ => false)
    case Return(_, _, _, Results(descs)) =>
      forall d :: d in descs ==> (d.SenderHosted? || d.SenderPromise? ==> d.id < |w.exports|)
    case _ => true
  }

  predicate DeliveryOk(w: World, d: Delivery) {
    match HostOf(w, d.body.ref)
    case None => false
    case Some(Here(obj)) => d.place == AtExporter(obj)
    case Some(Back(k)) => d.place == AtImporter(k)
  }

  /** Why a call may fail for another reason than a full queue: its promise was rejected, or it was
      announced as the very import it resolves. */
  predicate ReasonOk(w: World, b: Body, reason: Reason) {
    match reason
    case QueueFull => true
    case Rejected => b.ref < |w.exports| && w.exports[b.ref].settled && HostOf(w, b.ref).None?
    case Circular(id) =>
      id in w.imports && w.imports[id].client.resolved == Some(Remote(id)) && SameObject(w, id, b.ref)
  }

  predicate Shape(w: World) {
    && (forall m :: m in w.ab ==> AbOk(w, m))
    && (forall m :: m in w.ba ==> BaOk(w, m))
    && (forall d :: d in w.delivered ==> DeliveryOk(w, d))
    && (forall b :: b in w.failed ==> ReasonOk(w, b, w.failed[b]))
    && (forall p :: p in w.imports ==> p < |w.exports|)
  }

  /** Every embargo has exactly one Disembargo on its way. */
  ghost predicate Embargoes(w: World) {
    && w.disembargoes.Valid()
    && (forall e: nat :: Marks(w.ab, e) + Marks(w.ba, e) == if w.disembargoes.Find(e).Some? then 1 else 0)
    && (forall e: nat :: w.disembargoes.Find(e).Some? ==>
          var p := w.disembargoes.Find(e).value;
          p in w.imports && w.imports[p].client.embargo == Some(e))
  }

  /** No call on `p` is behind the Disembargo of `e`. */
  predicate Swept(w: World, p: nat, e: nat) {
    && CallsAfter(w.ab, e, p) == []
    && CallsAfter(w.ba, e, p) == []
    && (Marks(w.ba, e) > 0 ==> CallsOn(w.ab, p) == [])
  }

  predicate ImportPlaced(w: World, p: nat)
    requires p in w.imports
  {
    var i := w.imports[p].client;
    && !i.closed
    && (forall b :: b in i.queue ==> b.ref == p)
    && (i.embargo.None? ==> i.queue == [])
    && match i.resolved
       case None => i.embargo.None?
       case Some(Broken) => i.embargo.None? && HostOf(w, p).None?
       case Some(Remote(id)) => i.embargo.None? && id <= p && id in w.imports && SameObject(w, id, p)
       case Some(Own(k)) =>
         && HostOf(w, p) == Some(Back(k))
         && (i.embargo.None? ==> CallsOn(w.ab, p) == [] && CallsOn(w.ba, p) == [])
         && (i.embargo.Some? ==> w.disembargoes.Find(i.embargo.value) == Some(p) && Swept(w, p, i.embargo.value))
  }

  function Resolved(w: World, p: nat): nat {
    if p in w.imports && w.imports[p].client.resolved.Some? then 1 else 0
  }

  predicate Placed(w: World, p: nat)
    requires p < |w.exports|
  {
    var x := w.exports[p];
    && !x.client.closed
    && (forall b :: b in x.client.queue ==> b.ref == p)
    && (x.client.resolved.Some? ==> x.settled && x.client.queue == [])
    && (x.client.resolved == None || x.client.resolved.value.Here? ==> CallsOn(w.ba, p) == [])
    && Resolves(w.ba, p) + Resolved(w, p) <= (if x.settled then 1 else 0)
    && (p in w.imports ==> ImportPlaced(w, p))
  }

  ghost predicate Struct(w: World) {
    && Numbered(w)
    && Shape(w)
    && Embargoes(w)
    && (forall p :: 0 <= p < |w.exports| ==> Placed(w, p))
  }

  ghost predicate Inv(w: World) {
    Struct(w) && forall p: nat :: Line(w, p) == Kept(w, p)
  }

  // ---------------------------------------------------------------------------------------------
  // The record of issued and failed calls

  predicate Sorted(bodies: seq<Body>) {
    forall i, j :: 0 <= i < j < |bodies| ==> bodies[i].n < bodies[j].n
  }

  lemma SortedCons(b: Body, rest: seq<Body>)
    requires Sorted(rest) && forall x :: x in rest ==> b.n < x.n
    ensures Sorted([b] + rest)
  {
  }

  lemma {:induction false} OfSorted(bodies: seq<Body>, p: nat)
    requires Sorted(bodies)
    ensures Sorted(Of(bodies, p))
  {
    hide Sorted;
    NoneSorted();
    if bodies != [] {
      TailIsAbove(bodies);
      OfSorted(bodies[1..], p);
      OfAll(bodies[1..], p);
      if bodies[0].ref == p {
        SortedCons(bodies[0], Of(bodies[1..], p));
      } else {
        assert Of(bodies, p) == Of(bodies[1..], p);
      }
    }
  }

  lemma TailIsAbove(bodies: seq<Body>)
    requires Sorted(bodies) && bodies != []
    ensures Sorted(bodies[1..]) && forall b :: b in bodies[1..] ==> bodies[0].n < b.n
  {
  }

  lemma NoneSorted()
    ensures Sorted([])
  {
  }

  lemma {:induction false} MinusSorted(bodies: seq<Body>, gone: set<Body>)
    requires Sorted(bodies)
    ensures Sorted(Minus(bodies, gone))
  {
    hide Sorted;
    NoneSorted();
    if bodies != [] {
      TailIsAbove(bodies);
      MinusSorted(bodies[1..], gone);
      MinusKeeps(bodies[1..], gone);
      if bodies[0] !in gone {
        SortedCons(bodies[0], Minus(bodies[1..], gone));
      } else {
        assert Minus(bodies, gone) == Minus(bodies[1..], gone);
      }
    }
  }

  lemma KeptSorted(w: World, p: nat)
    requires Numbered(w)
    ensures Sorted(Kept(w, p))
    ensures forall b :: b in Kept(w, p) ==> b.ref == p && b.n < |w.issued|
  {
    hide Minus, Of;
    OfSorted(w.issued, p);
    OfAll(w.issued, p);
    MinusSorted(Of(w.issued, p), w.failed.Keys);
    MinusKeeps(Of(w.issued, p), w.failed.Keys);
  }

  /** Calls that fail leave the line of their own reference, and no other. */
  lemma FailLeaves(w: World, bodies: seq<Body>, reason: Reason, p: nat, pre: seq<Body>, post: seq<Body>)
    requires Numbered(w) && Kept(w, p) == pre + bodies + post
    ensures Kept(Fail(w, bodies, reason), p) == pre + post
  {
    hide Minus, Of;
    var gone := set b | b in bodies;
    KeptSorted(w, p);
    assert Fail(w, bodies, reason).failed.Keys == w.failed.Keys + gone;
    MinusTwice(Of(w.issued, p), w.failed.Keys, gone);
    MinusAppend(pre + bodies, post, gone);
    MinusAppend(pre, bodies, gone);
    MinusKeeps(bodies, gone);
    forall b | b in pre || b in post
      ensures b !in gone
    {
      forall x | x in bodies
        ensures x.n != b.n
      {
        assert pre + bodies + post == pre + (bodies + post);
        if b in pre {
          PartsAreOrdered(pre, bodies + post, b, x);
        } else {
          PartsAreOrdered(pre + bodies, post, x, b);
        }
      }
    }
    MinusKeeps(pre, gone);
    MinusKeeps(post, gone);
  }

  /** Of two parts of a sorted sequence everything in the first is below everything in the second. */
  lemma PartsAreOrdered(a: seq<Body>, b: seq<Body>, x: Body, y: Body)
    requires Sorted(a + b) && x in a && y in b
    ensures x.n < y.n
  {
    var i :| 0 <= i < |a| && a[i] == x;
    var j :| 0 <= j < |b| && b[j] == y;
    assert (a + b)[i] == x && (a + b)[|a| + j] == y;
  }

  lemma FailKeepsOthers(w: World, bodies: seq<Body>, reason: Reason, p: nat)
    requires Numbered(w) && forall b :: b in bodies ==> b.ref != p
    ensures Kept(Fail(w, bodies, reason), p) == Kept(w, p)
  {
    hide Minus, Of;
    var gone := set b | b in bodies;
    KeptSorted(w, p);
    assert Fail(w, bodies, reason).failed.Keys == w.failed.Keys + gone;
    MinusTwice(Of(w.issued, p), w.failed.Keys, gone);
    MinusKeeps(Kept(w, p), gone);
  }

  lemma IssuedGrows(w: World, b: Body, p: nat)
    requires Numbered(w) && b.n == |w.issued|
    ensures Kept(w.(issued := w.issued + [b]), p) == Kept(w, p) + (if b.ref == p then [b] else [])
    ensures Numbered(w.(issued := w.issued + [b]))
  {
    hide Minus, Of;
    OfAppend(w.issued, [b], p);
    OfAll([b], p);
    var more := if b.ref == p then [b] else [];
    MinusAppend(Of(w.issued, p), more, w.failed.Keys);
    MinusKeeps(more, w.failed.Keys);
  }

  lemma BeginIsOk()
    ensures Inv(Begin())
  {
    hide Placed, BaOk, AbOk, DeliveryOk;
    EmptyIsValid<nat>();
  }
}
