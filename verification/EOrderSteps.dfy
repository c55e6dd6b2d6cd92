/**
 What the elementary changes to a world (a message more or less in a channel, a delivery, a failure, an
 import or an export that changes, an embargo raised or lifted) keep of the invariant of `EOrder`.  The
 actions of `EOrderRuns` are made of these.
 */
module EOrderSteps {
  import opened Options
  import opened IdTables
  import opened RpcMessages
  import opened PromiseClients
  import opened OrderWorld
  import opened EOrder

  // ---------------------------------------------------------------------------------------------
  // Exports only settle

  predicate HostsKept(w: World, w': World) {
    && |w.exports| <= |w'.exports|
    && forall p :: 0 <= p < |w.exports| ==>
         && (w.exports[p].settled ==> w'.exports[p].settled && HostOf(w', p) == HostOf(w, p))
         && (HostOf(w, p).Some? ==> HostOf(w', p) == HostOf(w, p))
  }

  lemma ShapeKept(w: World, w': World)
    requires Shape(w) && HostsKept(w, w')
    requires w' == w.(exports := w'.exports)
    ensures Shape(w')
  {
    forall m | m in w'.ab
      ensures AbOk(w', m)
    {
      assert AbOk(w, m);
    }
    forall m | m in w'.ba
      ensures BaOk(w', m)
    {
      assert BaOk(w, m);
    }
    forall d | d in w'.delivered
      ensures DeliveryOk(w', d)
    {
      assert DeliveryOk(w, d);
    }
    forall b | b in w'.failed
      ensures ReasonOk(w', b, w'.failed[b])
    {
      assert ReasonOk(w, b, w.failed[b]);
    }
  }

  /** With the same exports and imports, only what is new in the channels and records matters. */
  lemma ShapeWith(w: World, w': World)
    requires w'.exports == w.exports && w'.imports == w.imports
    requires forall p :: p in w.imports ==> p < |w.exports|
    requires forall m :: m in w'.ab ==> AbOk(w, m)
    requires forall m :: m in w'.ba ==> BaOk(w, m)
    requires forall d :: d in w'.delivered ==> DeliveryOk(w, d)
    requires forall b :: b in w'.failed ==> ReasonOk(w, b, w'.failed[b])
    ensures Shape(w')
  {
    forall m | m in w'.ab
      ensures AbOk(w', m)
    {
      assert AbOk(w, m);
    }
    forall m | m in w'.ba
      ensures BaOk(w', m)
    {
      assert BaOk(w, m);
    }
    forall d | d in w'.delivered
      ensures DeliveryOk(w', d)
    {
      assert DeliveryOk(w, d);
    }
    forall b | b in w'.failed
      ensures ReasonOk(w', b, w'.failed[b])
    {
      assert ReasonOk(w, b, w'.failed[b]);
    }
  }

  /** Placement and embargoes only look at exports, imports, disembargoes and channels. */
  lemma PlacedSame(w: World, w': World)
    requires Struct(w)
    requires w'.exports == w.exports && w'.imports == w.imports && w'.disembargoes == w.disembargoes
    requires w'.ab == w.ab && w'.ba == w.ba
    requires Numbered(w') && Shape(w')
    ensures Struct(w')
  {
    hide Shape, Numbered, Resolves, CallsOn, CallsAfter, Marks, SameObject;
    forall p | 0 <= p < |w'.exports|
      ensures Placed(w', p)
    {
      assert Placed(w, p);
      if p in w.imports {
        SameObjects(w, w', p);
      }
    }
  }

  lemma SameObjects(w: World, w': World, p: nat)
    requires w'.exports == w.exports
    ensures forall id :: SameObject(w, id, p) == SameObject(w', id, p)
  {
  }

  /** Two worlds look alike to reference `p`. */
  predicate Alike(w: World, w': World, p: nat) {
    && w'.exports == w.exports
    && (forall q :: q in w.imports ==> q in w'.imports)
    && (p in w'.imports ==> p in w.imports && w'.imports[p].client == w.imports[p].client)
    && CallsOn(w'.ab, p) == CallsOn(w.ab, p) && CallsOn(w'.ba, p) == CallsOn(w.ba, p)
    && Resolves(w'.ba, p) == Resolves(w.ba, p)
    && (p in w.imports && w.imports[p].client.embargo.Some? ==>
          var e := w.imports[p].client.embargo.value;
          && w'.disembargoes.Find(e) == w.disembargoes.Find(e)
          && CallsAfter(w'.ab, e, p) == CallsAfter(w.ab, e, p) && CallsAfter(w'.ba, e, p) == CallsAfter(w.ba, e, p)
          && Marks(w'.ba, e) == Marks(w.ba, e))
  }

  lemma PlacedAlike(w: World, w': World, p: nat)
    requires p < |w.exports| && Placed(w, p) && Alike(w, w', p)
    ensures Placed(w', p)
  {
    hide SameObject, CallsOn, CallsAfter, Marks, Resolves;
    SameObjects(w, w', p);
  }

  // ---------------------------------------------------------------------------------------------
  // Messages come and go

  lemma PlacedAbGrows(w: World, m: Message, p: nat)
    requires p < |w.exports| && Placed(w, p) && !m.Disembargo? && !m.Resolve?
    requires m.Call? && m.body.ref == p && p in w.imports ==>
      !(w.imports[p].client.resolved.Some? && w.imports[p].client.resolved.value.Own?)
    ensures Placed(w.(ab := w.ab + [m]), p)
  {
    hide SameObject, CallsOn, Resolves, CallsAfter, Marks;
    SameObjects(w, w.(ab := w.ab + [m]), p);
    AppendOne(w.ab, m, if p in w.imports then w.imports[p].client.embargo.GetOr(0) else 0, p);
  }

  lemma PlacedBaGrows(w: World, m: Message, p: nat)
    requires p < |w.exports| && Placed(w, p) && !m.Disembargo? && BaOk(w, m)
    requires m.Call? && m.body.ref == p && p in w.imports ==>
      var i := w.imports[p].client;
      i.resolved.Some? && i.resolved.value.Own? ==> i.embargo.Some? && Marks(w.ba, i.embargo.value) == 0
    requires m.Resolve? && m.promiseId == p ==> Resolves(w.ba, p) + Resolved(w, p) == 0
    ensures Placed(w.(ba := w.ba + [m]), p)
  {
    hide SameObject, CallsOn, Resolves, CallsAfter, Marks;
    SameObjects(w, w.(ba := w.ba + [m]), p);
    AppendOne(w.ba, m, if p in w.imports then w.imports[p].client.embargo.GetOr(0) else 0, p);
  }

  /** The importer sends a call or chatter. */
  lemma AbGrows(w: World, m: Message)
    requires Struct(w) && AbOk(w, m) && !m.Disembargo?
    requires m.Call? && m.body.ref in w.imports ==>
      !(w.imports[m.body.ref].client.resolved.Some? && w.imports[m.body.ref].client.resolved.value.Own?)
    ensures Struct(w.(ab := w.ab + [m]))
  {
    hide BaOk, DeliveryOk, ReasonOk, SameObject, Placed;
    var w' := w.(ab := w.ab + [m]);
    ShapeWith(w, w');
    forall e: nat
      ensures Marks(w'.ab, e) == Marks(w.ab, e)
    {
      AppendOne(w.ab, m, e, 0);
    }
    forall p | 0 <= p < |w'.exports| {
      PlacedAbGrows(w, m, p);
    }
  }

  /** The exporter sends a call, a resolution or chatter. */
  lemma BaGrows(w: World, m: Message)
    requires Struct(w) && BaOk(w, m) && !m.Disembargo?
    requires m.Call? && m.body.ref in w.imports ==>
      var i := w.imports[m.body.ref].client;
      i.resolved.Some? && i.resolved.value.Own? ==> i.embargo.Some? && Marks(w.ba, i.embargo.value) == 0
    requires m.Resolve? ==> Resolves(w.ba, m.promiseId) + Resolved(w, m.promiseId) == 0
    ensures Struct(w.(ba := w.ba + [m]))
  {
    hide AbOk, BaOk, DeliveryOk, ReasonOk, SameObject, Placed;
    var w' := w.(ba := w.ba + [m]);
    ShapeWith(w, w');
    forall e: nat
      ensures Marks(w'.ba, e) == Marks(w.ba, e)
    {
      AppendOne(w.ba, m, e, 0);
    }
    forall p | 0 <= p < |w'.exports| {
      PlacedBaGrows(w, m, p);
    }
  }

  /** The exporter takes a message that is no Disembargo from the channel. */
  lemma AbShrinks(w: World)
    requires Struct(w) && w.ab != [] && !w.ab[0].Disembargo?
    ensures Struct(w.(ab := w.ab[1..])) && AbOk(w, w.ab[0])
    ensures w.ab[0].Call? ==> forall e: nat :: CallsAfter(w.ab, e, w.ab[0].body.ref) == CallsAfter(w.ab[1..], e, w.ab[0].body.ref)
  {
    hide AbOk, BaOk, DeliveryOk, ReasonOk, SameObject;
    var w' := w.(ab := w.ab[1..]);
    assert forall m :: m in w'.ab ==> m in w.ab;
    ShapeWith(w, w');
    forall p | 0 <= p < |w'.exports|
      ensures Placed(w', p)
    {
      assert Placed(w, p);
      SameObjects(w, w', p);
    }
  }

  /** The importer takes a message that is no Disembargo from the channel. */
  lemma BaShrinks(w: World)
    requires Struct(w) && w.ba != [] && !w.ba[0].Disembargo?
    ensures Struct(w.(ba := w.ba[1..])) && BaOk(w, w.ba[0])
    ensures w.ba[0].Resolve? ==> Resolves(w.ba[1..], w.ba[0].promiseId) + Resolved(w, w.ba[0].promiseId) == 0
  {
    hide AbOk, DeliveryOk, ReasonOk, SameObject;
    var w' := w.(ba := w.ba[1..]);
    assert forall m :: m in w'.ba ==> m in w.ba;
    assert BaOk(w, w.ba[0]);
    ShapeWith(w, w');
    forall p | 0 <= p < |w'.exports|
      ensures Placed(w', p)
    {
      assert Placed(w, p);
      SameObjects(w, w', p);
    }
    if w.ba[0].Resolve? {
      assert Placed(w, w.ba[0].promiseId);
    }
  }

  // ---------------------------------------------------------------------------------------------
  // The records grow

  lemma DeliverKeeps(w: World, bodies: seq<Body>, place: Place)
    requires Struct(w) && forall b :: b in bodies ==> DeliveryOk(w, Delivery(b, place))
    ensures Struct(Deliver(w, bodies, place))
  {
    hide AbOk, BaOk, DeliveryOk, ReasonOk, Placed, Embargoes;
    var w' := Deliver(w, bodies, place);
    assert forall d :: d in DeliveredAt(bodies, place) ==> d.body in bodies && d == Delivery(d.body, place);
    ShapeWith(w, w');
    PlacedSame(w, w');
  }

  lemma FailKeeps(w: World, bodies: seq<Body>, reason: Reason)
    requires Struct(w) && forall b :: b in bodies ==> b.n < |w.issued| && ReasonOk(w, b, reason)
    ensures Struct(Fail(w, bodies, reason))
  {
    hide AbOk, BaOk, DeliveryOk, ReasonOk, Placed, Embargoes;
    var w' := Fail(w, bodies, reason);
    ShapeWith(w, w');
    PlacedSame(w, w');
  }

  // ---------------------------------------------------------------------------------------------
  // The embargo handshake

  lemma {:induction false} NothingAfterNoMark(ch: seq<Message>, e: nat, p: nat)
    requires Marks(ch, e) == 0
    ensures CallsAfter(ch, e, p) == []
  {
    if ch != [] {
      NothingAfterNoMark(ch[1..], e, p);
    }
  }

  /** The exporter echoes a Disembargo. */
  lemma EchoKeeps(w: World)
    requires Struct(w) && w.ab != [] && w.ab[0].Disembargo?
    ensures w.ab[0].context.SenderLoopback?
    ensures Struct(ExporterHandles(w.(ab := w.ab[1..]), w.ab[0]))
  {
    hide DeliveryOk, ReasonOk, SameObject, Placed;
    assert AbOk(w, w.ab[0]);
    var e := w.ab[0].context.id;
    var m := Disembargo(ReceiverLoopback(e), w.ab[0].target);
    var w' := w.(ab := w.ab[1..], ba := w.ba + [m]);
    assert forall x :: x in w'.ab ==> x in w.ab;
    ShapeWith(w, w');
    forall f: nat
      ensures Marks(w'.ab, f) + Marks(w'.ba, f) == Marks(w.ab, f) + Marks(w.ba, f)
    {
      AppendOne(w.ba, m, f, 0);
    }
    forall p | 0 <= p < |w'.exports|
      ensures Placed(w', p)
    {
      PlacedEcho(w, m, p);
    }
  }

  lemma PlacedEcho(w: World, m: Message, p: nat)
    requires p < |w.exports| && Placed(w, p) && Embargoes(w)
    requires w.ab != [] && w.ab[0].Disembargo? && m.Disembargo? && m.context.id == w.ab[0].context.id
    ensures Placed(w.(ab := w.ab[1..], ba := w.ba + [m]), p)
  {
    hide SameObject, CallsOn, Resolves, CallsAfter, Marks;
    var w' := w.(ab := w.ab[1..], ba := w.ba + [m]);
    SameObjects(w, w', p);
    var f := if p in w.imports then w.imports[p].client.embargo.GetOr(0) else 0;
    AppendOne(w.ba, m, f, p);
    DisembargoDropped(w.ab, f, p);
    if IsMark(m, f) {
      assert Marks(w.ab, f) + Marks(w.ba, f) <= 1;
      NothingAfterNoMark(w.ab[1..], f, p);
    }
  }

  /** The importer hears the echo: the embargo ends with every earlier call delivered. */
  lemma EchoFinds(w: World)
    requires Struct(w) && w.ba != [] && w.ba[0].Disembargo?
    ensures w.ba[0].context.ReceiverLoopback?
    ensures var e := w.ba[0].context.id;
      && w.disembargoes.Find(e).Some?
      && var p := w.disembargoes.Find(e).value;
      && p in w.imports && p < |w.exports|
      && w.imports[p].client.embargo == Some(e)
      && w.imports[p].client.resolved.Some? && w.imports[p].client.resolved.value.Own?
      && HostOf(w, p) == Some(Back(w.imports[p].client.resolved.value.k))
      && CallsOn(w.ab, p) == [] && CallsOn(w.ba, p) == [] && HeldAtExporter(w, p) == []
  {
    var e := w.ba[0].context.id;
    assert BaOk(w, w.ba[0]);
    assert Marks(w.ab, e) + Marks(w.ba, e) > 0;
    var p := w.disembargoes.Find(e).value;
    assert Placed(w, p);
  }

  lemma LiftKeeps(w: World)
    requires Struct(w) && w.ba != [] && w.ba[0].Disembargo?
    ensures Struct(ImporterHandles(w.(ba := w.ba[1..]), w.ba[0]))
  {
    hide AbOk, BaOk, ReasonOk, SameObject, Placed, Embargoes;
    EchoFinds(w);
    var e := w.ba[0].context.id;
    var p := w.disembargoes.Find(e).value;
    var i := w.imports[p].client;
    var place := AtImporter(i.resolved.value.k);
    var w1 := w.(ba := w.ba[1..], disembargoes := w.disembargoes.Drop(e),
                 imports := w.imports[p := w.imports[p].(client := i.(embargo := None, queue := []))]);
    assert forall b :: b in i.queue ==> b.ref == p by { PlacedQueue(w, p); }
    LiftEmbargoes(w, w1, e, p);
    forall q | 0 <= q < |w1.exports|
      ensures Placed(w1, q)
    {
      assert Placed(w, q);
      PlacedLift(w, w1, e, p, q);
    }
    LiftShape(w, w1, p);
    forall b | b in i.queue
      ensures DeliveryOk(w1, Delivery(b, place))
    {
    }
    DeliverKeeps(w1, i.queue, place);
  }

  lemma PlacedQueue(w: World, p: nat)
    requires p < |w.exports| && Placed(w, p) && p in w.imports
    ensures forall b :: b in w.imports[p].client.queue ==> b.ref == p
    ensures forall b :: b in w.exports[p].client.queue ==> b.ref == p
  {
  }

  /** Imports may change as long as none disappears and no resolution changes. */
  predicate ImportsKept(w: World, w': World) {
    && (forall p :: p in w.imports ==> p in w'.imports)
    && (forall p :: p in w.imports && w.imports[p].client.resolved.Some? ==>
          w'.imports[p].client.resolved == w.imports[p].client.resolved)
    && (forall p :: p in w'.imports ==> p < |w.exports|)
  }

  lemma ShapeImports(w: World, w': World)
    requires Shape(w) && ImportsKept(w, w') && w'.exports == w.exports
    requires w'.delivered == w.delivered && w'.failed == w.failed
    requires forall m :: m in w'.ab ==> AbOk(w, m)
    requires forall m :: m in w'.ba ==> BaOk(w, m)
    ensures Shape(w')
  {
    forall m | m in w'.ab
      ensures AbOk(w', m)
    {
      assert AbOk(w, m);
    }
    forall m | m in w'.ba
      ensures BaOk(w', m)
    {
      assert BaOk(w, m);
    }
    forall d | d in w'.delivered
      ensures DeliveryOk(w', d)
    {
      assert DeliveryOk(w, d);
    }
    forall b | b in w'.failed
      ensures ReasonOk(w', b, w'.failed[b])
    {
      assert ReasonOk(w, b, w.failed[b]);
    }
  }

  lemma LiftShape(w: World, w1: World, p: nat)
    requires Shape(w) && w.ba != [] && p in w.imports
    requires w1.imports.Keys == w.imports.Keys
    requires forall q :: q in w.imports ==> w1.imports[q].client.resolved == w.imports[q].client.resolved
    requires w1 == w.(ba := w.ba[1..], disembargoes := w1.disembargoes, imports := w1.imports)
    ensures Shape(w1)
  {
    hide AbOk, BaOk, DeliveryOk, ReasonOk;
    assert forall m :: m in w1.ba ==> m in w.ba;
    ShapeImports(w, w1);
  }

  lemma LiftEmbargoes(w: World, w1: World, e: nat, p: nat)
    requires Embargoes(w) && w.ba != [] && IsMark(w.ba[0], e) && w.disembargoes.Find(e) == Some(p) && p in w.imports
    requires w1.ab == w.ab && w1.ba == w.ba[1..] && w1.disembargoes == w.disembargoes.Drop(e)
    requires w1.imports.Keys == w.imports.Keys
    requires forall q :: q in w.imports && q != p ==> w1.imports[q] == w.imports[q]
    ensures Embargoes(w1)
  {
    DropRecycles(w.disembargoes, e);
    forall f: nat
      ensures Marks(w1.ab, f) + Marks(w1.ba, f) == if w1.disembargoes.Find(f).Some? then 1 else 0
      ensures w1.disembargoes.Find(f).Some? ==>
        var q := w1.disembargoes.Find(f).value;
        q in w1.imports && w1.imports[q].client.embargo == Some(f)
    {
      assert Marks(w.ab, f) + Marks(w.ba, f) == if w.disembargoes.Find(f).Some? then 1 else 0;
    }
  }

  lemma PlacedLift(w: World, w1: World, e: nat, p: nat, q: nat)
    requires Embargoes(w) && w.ba != [] && IsMark(w.ba[0], e) && w.disembargoes.Find(e) == Some(p) && p in w.imports
    requires w1 == w.(ba := w.ba[1..], disembargoes := w.disembargoes.Drop(e),
                      imports := w.imports[p := w.imports[p].(client := w.imports[p].client.(embargo := None, queue := []))])
    requires q < |w.exports| && Placed(w, q)
    requires CallsOn(w.ab, p) == [] && CallsOn(w.ba, p) == []
    requires w.imports[p].client.resolved.Some? && w.imports[p].client.resolved.value.Own?
    ensures Placed(w1, q)
  {
    hide SameObject, CallsOn, CallsAfter, Marks, Resolves;
    SameObjects(w, w1, q);
    DropRecycles(w.disembargoes, e);
    if q in w.imports && w.imports[q].client.embargo.Some? && q != p {
      assert w.imports[q].client.embargo.value != e;
      DisembargoDropped(w.ba, w.imports[q].client.embargo.value, q);
    } else {
      DisembargoDropped(w.ba, e + 1, q);
    }
  }

  /** A Disembargo at the head matters to its own embargo alone. */
  lemma DisembargoDropped(ch: seq<Message>, f: nat, q: nat)
    requires ch != [] && ch[0].Disembargo?
    ensures CallsOn(ch[1..], q) == CallsOn(ch, q) && Resolves(ch[1..], q) == Resolves(ch, q)
    ensures Marks(ch, f) == Marks(ch[1..], f) + (if IsMark(ch[0], f) then 1 else 0)
    ensures CallsAfter(ch, f, q) == if IsMark(ch[0], f) then CallsOn(ch[1..], q) else CallsAfter(ch[1..], f, q)
  {
  }

  // ---------------------------------------------------------------------------------------------
  // Imports appear and resolve

  /** New imports are fresh and known ones keep their client. */
  predicate Widened(w: World, w': World) {
    && (forall p :: p in w.imports ==> p in w'.imports && w'.imports[p].client == w.imports[p].client)
    && (forall p :: p in w'.imports && p !in w.imports ==> w'.imports[p].client == NewImport())
    && (forall p :: p in w'.imports ==> p < |w.exports|)
  }

  lemma WidenKeeps(w: World, w': World)
    requires Struct(w) && Widened(w, w') && w' == w.(imports := w'.imports)
    ensures Struct(w')
  {
    hide AbOk, BaOk, ReasonOk, DeliveryOk, SameObject;
    ShapeImports(w, w');
    forall p | 0 <= p < |w'.exports|
      ensures Placed(w', p)
    {
      assert Placed(w, p);
      SameObjects(w, w', p);
    }
  }

  lemma {:induction false} TakeInWidens(w: World, descs: seq<Desc>)
    requires forall p :: p in w.imports ==> p < |w.exports|
    requires forall d :: d in descs ==> (d.SenderHosted? || d.SenderPromise? ==> d.id < |w.exports|)
    ensures Widened(w, w.(imports := TakeIn(w.imports, descs)))
    decreases |descs|
  {
    if descs != [] {
      var d := descs[0];
      var w1 := w.(imports := if d.SenderHosted? then AddImport(w.imports, d.id, false)
                              else if d.SenderPromise? then AddImport(w.imports, d.id, true) else w.imports);
      TakeInWidens(w1, descs[1..]);
    }
  }

  /** What an import may resolve to without an embargo. */
  predicate MayBecome(w: World, p: nat, found: Found) {
    match found
    case Broken => HostOf(w, p).None?
    case Remote(id) => id <= p && id in w.imports && SameObject(w, id, p)
    case Own(_) => false
  }

  /** A promise import settles to an error or to another import. */
  lemma SetResolvedKeeps(w: World, p: nat, found: Found)
    requires Struct(w) && p in w.imports && w.exports[p].settled
    requires Resolves(w.ba, p) + Resolved(w, p) == 0
    requires MayBecome(w, p, found)
    ensures Struct(SetResolved(w, p, found))
  {
    hide AbOk, BaOk, ReasonOk, DeliveryOk, SameObject, Placed, Embargoes;
    var w' := SetResolved(w, p, found);
    assert Placed(w, p);
    NotResolvedYet(w, p);
    ShapeImports(w, w');
    EmbargoesKept(w, w');
    forall q | 0 <= q < |w'.exports|
      ensures Placed(w', q)
    {
      assert Placed(w, q);
      PlacedResolved(w, w', p, q);
    }
  }

  lemma EmbargoesKept(w: World, w': World)
    requires Embargoes(w) && w' == w.(imports := w'.imports) && w.imports.Keys <= w'.imports.Keys
    requires forall p :: p in w.imports ==> w'.imports[p].client.embargo == w.imports[p].client.embargo
    ensures Embargoes(w')
  {
  }

  lemma PlacedResolved(w: World, w': World, p: nat, q: nat)
    requires q < |w.exports| && Placed(w, q)
    requires p in w.imports && w.imports[p].client == NewImport() && p < |w.exports| && w.exports[p].settled
    requires Resolves(w.ba, p) == 0
    requires w' == w.(imports := w'.imports) && w'.imports.Keys == w.imports.Keys
    requires forall r :: r in w.imports && r != p ==> w'.imports[r] == w.imports[r]
    requires w'.imports[p].client.resolved.Some?
    requires w'.imports[p].client == NewImport().SetResolved(w'.imports[p].client.resolved.value)
    requires MayBecome(w, p, w'.imports[p].client.resolved.value)
    ensures Placed(w', q)
  {
    hide SameObject;
    SameObjects(w, w', q);
  }

  /** A promise import settles to the importer's own capability and goes under embargo. */
  lemma EmbargoKeeps(w: World, p: nat, k: Target)
    requires Struct(w) && p in w.imports && w.imports[p].isPromise
    requires w.exports[p].settled && HostOf(w, p) == Some(Back(k))
    requires Resolves(w.ba, p) + Resolved(w, p) == 0
    ensures Struct(HandleResolve(w, p, ToCap(Naming(k))))
  {
    hide BaOk, ReasonOk, DeliveryOk, SameObject, Placed, Embargoes, Shape;
    var w' := HandleResolve(w, p, ToCap(Naming(k)));
    var e := w.disembargoes.NextId();
    var m := Disembargo(SenderLoopback(e), ImportedCap(p, 0));
    assert Placed(w, p);
    PlacedQueue(w, p);
    NotResolvedYet(w, p);
    EmbargoTables(w, w', p, m);
    EmbargoShape(w, w', p, m);
    forall q | 0 <= q < |w'.exports|
      ensures Placed(w', q)
    {
      assert Placed(w, q);
      PlacedEmbargo(w, w', p, k, m, q);
    }
  }

  lemma EmbargoShape(w: World, w': World, p: nat, m: Message)
    requires Shape(w) && AbOk(w, m) && p in w.imports && w.imports[p].client.resolved.None?
    requires w'.imports.Keys == w.imports.Keys && forall q :: q in w.imports && q != p ==> w'.imports[q] == w.imports[q]
    requires w' == w.(imports := w'.imports, disembargoes := w'.disembargoes, ab := w.ab + [m])
    ensures Shape(w')
  {
    hide AbOk, BaOk, DeliveryOk, ReasonOk;
    ShapeImports(w, w');
  }

  lemma NotResolvedYet(w: World, p: nat)
    requires p < |w.exports| && Placed(w, p) && p in w.imports && Resolved(w, p) == 0
    ensures w.imports[p].client == NewImport()
  {
  }

  lemma EmbargoTables(w: World, w': World, p: nat, m: Message)
    requires Embargoes(w) && p in w.imports && w.imports[p].client.embargo.None?
    requires IsMark(m, w.disembargoes.NextId())
    requires w'.ab == w.ab + [m] && w'.ba == w.ba && w'.disembargoes == w.disembargoes.Alloc(p)
    requires w'.imports.Keys == w.imports.Keys && w'.imports[p].client.embargo == Some(w.disembargoes.NextId())
    requires forall q :: q in w.imports && q != p ==> w'.imports[q] == w.imports[q]
    ensures Embargoes(w')
    ensures Marks(w.ab, w.disembargoes.NextId()) == 0 && Marks(w.ba, w.disembargoes.NextId()) == 0
    ensures w.disembargoes.Valid()
  {
    var e := w.disembargoes.NextId();
    AllocIsFresh(w.disembargoes, p);
    assert Marks(w.ab, e) + Marks(w.ba, e) == 0;
    forall f: nat
      ensures Marks(w'.ab, f) + Marks(w'.ba, f) == if w'.disembargoes.Find(f).Some? then 1 else 0
      ensures w'.disembargoes.Find(f).Some? ==>
        var q := w'.disembargoes.Find(f).value;
        q in w'.imports && w'.imports[q].client.embargo == Some(f)
    {
      assert Marks(w.ab, f) + Marks(w.ba, f) == if w.disembargoes.Find(f).Some? then 1 else 0;
      AppendOne(w.ab, m, f, 0);
    }
  }

  lemma PlacedEmbargo(w: World, w': World, p: nat, k: Target, m: Message, q: nat)
    requires q < |w.exports| && Placed(w, q) && w.disembargoes.Valid()
    requires p in w.imports && w.imports[p].client == NewImport() && HostOf(w, p) == Some(Back(k))
    requires Resolves(w.ba, p) == 0 && p < |w.exports| && w.exports[p].settled
    requires m.Disembargo? && m.context == SenderLoopback(w.disembargoes.NextId())
    requires w' == w.(imports := w'.imports, ab := w.ab + [m], disembargoes := w.disembargoes.Alloc(p))
    requires w'.imports == w.imports[p := ImportEntry(false, ImportState(false, Some(Own(k)), Some(w.disembargoes.NextId()), []))]
    requires Marks(w.ab, w.disembargoes.NextId()) == 0 && Marks(w.ba, w.disembargoes.NextId()) == 0
    ensures Placed(w', q)
  {
    hide SameObject, Resolves;
    AllocIsFresh(w.disembargoes, p);
    var f := if q in w'.imports then w'.imports[q].client.embargo.GetOr(0) else 0;
    AppendOne(w.ab, m, f, q);
    if q == p {
      NothingAfterNoMark(w.ba, f, q);
    } else {
      hide Placed, CallsOn, CallsAfter, Marks;
      PlacedEmbargoOther(w, w', m, q);
    }
  }

  lemma PlacedEmbargoOther(w: World, w': World, m: Message, q: nat)
    requires q < |w.exports| && Placed(w, q) && w.disembargoes.Valid()
    requires m.Disembargo? && m.context == SenderLoopback(w.disembargoes.NextId())
    requires w'.exports == w.exports && w'.ba == w.ba && w'.ab == w.ab + [m]
    requires forall f: nat :: w.disembargoes.Find(f).Some? ==> w'.disembargoes.Find(f) == w.disembargoes.Find(f)
    requires w'.imports.Keys == w.imports.Keys && (q in w.imports ==> w'.imports[q] == w.imports[q])
    ensures Placed(w', q)
  {
    hide SameObject, Resolves;
    var f := if q in w.imports then w.imports[q].client.embargo.GetOr(0) else 0;
    AppendOne(w.ab, m, f, q);
    if q in w.imports && w.imports[q].client.embargo.Some? && Marks(w.ab, f) == 0 {
      NothingAfterNoMark(w.ab, f, q);
    }
    PlacedAlike(w, w', q);
  }

  // ---------------------------------------------------------------------------------------------
  // Exports appear, hold calls and settle

  lemma {:induction false} NothingOnUnknown(w: World, ch: seq<Message>, p: nat)
    requires p >= |w.exports| && forall m :: m in ch ==> AbOk(w, m) || BaOk(w, m)
    ensures CallsOn(ch, p) == [] && Resolves(ch, p) == 0
  {
    if ch != [] {
      NothingOnUnknown(w, ch[1..], p);
      assert ch[0] in ch;
    }
  }

  /** A new export is added at the end of the table. */
  lemma ExportsGrow(w: World, x: ExportEntry)
    requires Struct(w) && !x.client.closed && x.client.queue == [] && (x.client.resolved.Some? ==> x.settled)
    ensures Struct(w.(exports := w.exports + [x]))
  {
    hide AbOk, BaOk, ReasonOk, DeliveryOk;
    var w' := w.(exports := w.exports + [x]);
    ShapeKept(w, w');
    NothingOnUnknown(w, w.ba, |w.exports|);
    forall p | 0 <= p < |w'.exports|
      ensures Placed(w', p)
    {
      if p < |w.exports| {
        assert Placed(w, p);
      }
    }
  }

  /** An unsettled export holds one call more. */
  lemma HoldKeeps(w: World, p: nat, body: Body)
    requires Struct(w) && p < |w.exports| && HostOf(w, p).None? && body.ref == p
    ensures Struct(w.(exports := w.exports[p := w.exports[p].(client := w.exports[p].client.(queue := w.exports[p].client.queue + [body]))]))
  {
    hide AbOk, BaOk, ReasonOk, DeliveryOk, SameObject;
    var w' := w.(exports := w.exports[p := w.exports[p].(client := w.exports[p].client.(queue := w.exports[p].client.queue + [body]))]);
    ShapeKept(w, w');
    forall q | 0 <= q < |w'.exports|
      ensures Placed(w', q)
    {
      assert Placed(w, q);
      SameHosts(w, w', q);
    }
  }

  lemma SameHosts(w: World, w': World, p: nat)
    requires HostsKept(w, w')
    requires forall q :: HostOf(w', q) == HostOf(w, q)
    ensures forall id :: SameObject(w', id, p) == SameObject(w, id, p)
  {
  }

  /** A promise export settles: it holds no call any more, and its resolution is still unannounced. */
  lemma SettledKeeps(w: World, p: nat, host: Option<Host>)
    requires Struct(w) && p < |w.exports| && !w.exports[p].settled
    ensures HostOf(w, p).None? && Resolves(w.ba, p) + Resolved(w, p) == 0
    ensures var w' := w.(exports := w.exports[p := w.exports[p].(settled := true, client := ExportState(false, host, []))]);
      Struct(w') && HostsKept(w, w')
  {
    hide AbOk, BaOk, ReasonOk, DeliveryOk;
    var w' := w.(exports := w.exports[p := w.exports[p].(settled := true, client := ExportState(false, host, []))]);
    assert Placed(w, p);
    ShapeKept(w, w');
    forall q | 0 <= q < |w'.exports|
      ensures Placed(w', q)
    {
      assert Placed(w, q);
    }
  }

  /** The calls a promise held go back to the importer, in one go. */
  lemma {:induction false} ForwardKeeps(w: World, p: nat, k: Target, bodies: seq<Body>)
    requires Struct(w) && HostOf(w, p) == Some(Back(k))
    requires forall b :: b in bodies ==> b.ref == p
    requires Resolved(w, p) == 0
    ensures Struct(w.(ba := w.ba + CallsTo(k, bodies)))
    ensures Resolves(w.ba + CallsTo(k, bodies), p) == Resolves(w.ba, p)
    decreases |bodies|
  {
    hide Struct, Resolves;
    if bodies == [] {
      assert w.ba + CallsTo(k, bodies) == w.ba;
    } else {
      var m := CallAt(k, bodies[0]);
      assert CallsTo(k, bodies) == [m] + CallsTo(k, bodies[1..]);
      BaGrows(w, m);
      AppendOne(w.ba, m, 0, p);
      var w1 := w.(ba := w.ba + [m]);
      ForwardKeeps(w1, p, k, bodies[1..]);
      assert w1.ba + CallsTo(k, bodies[1..]) == w.ba + CallsTo(k, bodies);
    }
  }
}
