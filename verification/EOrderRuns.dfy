/** Every action keeps the invariant of `EOrder`, and what that means for every run. */
module EOrderRuns {
  import opened Options
  import opened IdTables
  import opened RpcMessages
  import opened PromiseClients
  import opened OrderWorld
  import opened EOrder
  import opened EOrderSteps

  // ---------------------------------------------------------------------------------------------
  // The line in parts

  /** Delivered, on the way back, held by the exporter, on the way out, held by the importer. */
  datatype Parts = Parts(a: seq<Body>, b: seq<Body>, c: seq<Body>, d: seq<Body>, e: seq<Body>)

  function PartsOf(w: World, p: nat): Parts {
    Parts(DeliveredOf(w.delivered, p), CallsOn(w.ba, p), HeldAtExporter(w, p), CallsOn(w.ab, p), HeldAtImporter(w, p))
  }

  function Join(p: Parts): seq<Body> {
    p.a + p.b + p.c + p.d + p.e
  }

  /** The line with a stretch between what the exporter holds and what is on the way out. */
  function With(p: Parts, x: seq<Body>): seq<Body> {
    p.a + p.b + p.c + x + p.d + p.e
  }

  lemma LineIsJoin(w: World, p: nat)
    ensures Line(w, p) == Join(PartsOf(w, p))
  {
  }

  /** A stretch that joins one of its neighbours stays where it is. */
  lemma Shift(p: Parts, x: seq<Body>)
    ensures Join(p.(c := p.c + x)) == With(p, x) == Join(p.(d := x + p.d))
    ensures p.c == [] ==> Join(p.(b := p.b + x)) == With(p, x)
    ensures p.b == [] && p.c == [] ==> Join(p.(a := p.a + x)) == With(p, x)
    ensures x == [] ==> Join(p) == With(p, x)
    ensures With(p, x) == (p.a + p.b + p.c) + x + (p.d + p.e) && Join(p) == (p.a + p.b + p.c) + (p.d + p.e)
  {
  }

  /** A stretch at the end. */
  lemma AtEnd(p: Parts, x: seq<Body>)
    ensures Join(p.(e := p.e + x)) == Join(p) + x
    ensures p.e == [] ==> Join(p.(d := p.d + x)) == Join(p) + x
    ensures p.b == [] && p.c == [] && p.d == [] && p.e == [] ==> Join(p.(a := p.a + x)) == Join(p) + x
    ensures x == [] ==> Join(p) == Join(p) + x
  {
  }

  /** Steps forward that leave the line as it is. */
  lemma Advance(p: Parts, x: seq<Body>)
    ensures Join(p.(a := p.a + x)) == Join(p.(b := x + p.b))
    ensures Join(p.(b := p.b + p.c, c := [])) == Join(p)
    ensures p.b == [] ==> Join(p.(a := p.a + p.c, c := [])) == Join(p)
    ensures p.b == [] && p.c == [] && p.d == [] ==> Join(p.(a := p.a + p.e, e := [])) == Join(p)
    ensures Join(p) == (p.a + p.b) + p.c + (p.d + p.e) && Join(p.(c := [])) == (p.a + p.b) + (p.d + p.e)
  {
  }

  // ---------------------------------------------------------------------------------------------
  // Issuing a call

  /** A call on an import that stands for an object of the exporter goes to some export of that
      object, or runs around a circle. */
  lemma {:induction false} HereRoute(w: World, id: nat, body: Body) returns (r: nat, sent: bool)
    requires Struct(w) && id in w.imports && SameObject(w, id, body.ref)
    ensures sent ==> r < |w.exports| && SameObject(w, r, body.ref) && CallImport(w, id, body) == w.(ab := w.ab + [CallOn(r, body)])
    ensures !sent ==> ReasonOk(w, body, Circular(r)) && CallImport(w, id, body) == Fail(w, [body], Circular(r))
    decreases id
  {
    hide AbOk, BaOk, DeliveryOk, Embargoes, Numbered;
    assert Placed(w, id);
    var i := w.imports[id].client;
    if i.resolved.None? {
      r, sent := id, true;
    } else {
      var next := i.resolved.value.id;
      if next < id {
        r, sent := HereRoute(w, next, body);
      } else {
        r, sent := id, false;
      }
    }
  }

  /** What issuing a call on `p` can come to. */
  datatype Outcome = SentTo(target: Target) | HeldBack | Done(place: Place) | Lost(reason: Reason)

  predicate Comes(w: World, p: nat, body: Body, o: Outcome)
    requires p in w.imports
  {
    var i := w.imports[p].client;
    match o
    case SentTo(target) =>
      && CallImport(w, p, body) == w.(ab := w.ab + [CallAt(target, body)])
      && AbOk(w, CallAt(target, body)) && i.queue == [] && !(i.resolved.Some? && i.resolved.value.Own?)
    case HeldBack =>
      && CallImport(w, p, body) == w.(imports := w.imports[p := w.imports[p].(client := i.(queue := i.queue + [body]))])
      && i.embargo.Some?
    case Done(place) =>
      && CallImport(w, p, body) == Deliver(w, [body], place)
      && place.AtImporter? && HostOf(w, p) == Some(Back(place.k)) && HeldAtExporter(w, p) == [] && i.queue == []
      && CallsOn(w.ab, p) == [] && CallsOn(w.ba, p) == []
    case Lost(reason) =>
      CallImport(w, p, body) == Fail(w, [body], reason) && ReasonOk(w, body, reason)
  }

  lemma IssueComes(w: World, p: nat, body: Body) returns (o: Outcome)
    requires Struct(w) && p in w.imports && body.ref == p
    ensures Comes(w, p, body, o)
  {
    hide BaOk, DeliveryOk, Embargoes, Numbered, CallsOn, CallsAfter, Marks;
    assert Placed(w, p);
    var i := w.imports[p].client;
    if i.embargo.Some? {
      o := if |i.queue| < 64 then HeldBack else Lost(QueueFull);
    } else if i.resolved.None? {
      o := SentTo(ImportedCap(p, 0));
    } else {
      match i.resolved.value
      case Own(k) => o := Done(AtImporter(k));
      case Broken => o := Lost(Rejected);
      case Remote(id) =>
        var r, sent := HereRoute(w, p, body);
        o := if sent then SentTo(ImportedCap(r, 0)) else Lost(Circular(r));
    }
  }

  lemma RecordIssue(w: World, body: Body)
    requires Inv(w) && body.n == |w.issued|
    ensures var w1 := w.(issued := w.issued + [body]);
      && Struct(w1)
      && forall q: nat :: Kept(w1, q) == Line(w1, q) + (if q == body.ref then [body] else [])
  {
    hide AbOk, BaOk, DeliveryOk, ReasonOk, Placed, Embargoes, Kept;
    var w1 := w.(issued := w.issued + [body]);
    IssuedGrows(w, body, 0);
    ShapeWith(w, w1);
    PlacedSame(w, w1);
    forall q: nat
      ensures Kept(w1, q) == Line(w1, q) + (if q == body.ref then [body] else [])
    {
      IssuedGrows(w, body, q);
      assert Line(w, q) == Kept(w, q);
    }
  }

  lemma IssueKeeps(w: World, p: nat)
    requires Inv(w) && p in w.imports
    ensures Inv(Issue(w, p))
  {
    hide Struct, Kept, Line, Comes;
    var body := Body(p, |w.issued|);
    var w1 := w.(issued := w.issued + [body]);
    RecordIssue(w, body);
    StructIsNumbered(w1);
    var o := IssueComes(w1, p, body);
    IssueStruct(w1, p, body, o);
    forall q: nat
      ensures Line(Issue(w, p), q) == Kept(Issue(w, p), q)
    {
      IssueLine(w1, p, body, o, q);
    }
  }

  lemma IssueStruct(w: World, p: nat, body: Body, o: Outcome)
    requires Struct(w) && p in w.imports && body.ref == p && body.n < |w.issued| && Comes(w, p, body, o)
    ensures Struct(CallImport(w, p, body))
  {
    hide CallImport, Struct, AbOk, BaOk;
    match o
    case SentTo(target) => AbGrows(w, CallAt(target, body));
    case Lost(reason) => FailKeeps(w, [body], reason);
    case Done(place) => DeliverKeeps(w, [body], place);
    case HeldBack => HoldBackKeeps(w, p, body);
  }

  lemma HoldBackKeeps(w: World, p: nat, body: Body)
    requires Struct(w) && p in w.imports && body.ref == p && w.imports[p].client.embargo.Some?
    ensures var i := w.imports[p].client;
      Struct(w.(imports := w.imports[p := w.imports[p].(client := i.(queue := i.queue + [body]))]))
  {
    hide AbOk, BaOk, DeliveryOk, ReasonOk, SameObject, Embargoes, CallsOn, CallsAfter, Marks, Resolves;
    var i := w.imports[p].client;
    var w' := w.(imports := w.imports[p := w.imports[p].(client := i.(queue := i.queue + [body]))]);
    ShapeImports(w, w');
    EmbargoesKept(w, w');
    forall q | 0 <= q < |w'.exports|
      ensures Placed(w', q)
    {
      assert Placed(w, q);
      SameObjects(w, w', q);
    }
  }

  lemma IssueLine(w: World, p: nat, body: Body, o: Outcome, q: nat)
    requires Numbered(w) && p in w.imports && body.ref == p && Comes(w, p, body, o)
    requires Kept(w, q) == Line(w, q) + (if q == body.ref then [body] else [])
    ensures Line(CallImport(w, p, body), q) == Kept(CallImport(w, p, body), q)
  {
    hide CallImport, Struct, AbOk, BaOk, Kept, CallsOn, DeliveredOf, ReasonOk, Join, Line;
    var w' := CallImport(w, p, body);
    var x := if q == body.ref then [body] else [];
    LineIsJoin(w, q);
    LineIsJoin(w', q);
    AtEnd(PartsOf(w, q), x);
    match o
    case SentTo(target) =>
      KeptOnRecord(w, w', q);
      AppendOne(w.ab, CallAt(target, body), 0, q);
      assert PartsOf(w', q) == if x == [] then PartsOf(w, q) else PartsOf(w, q).(d := PartsOf(w, q).d + x);
    case HeldBack =>
      KeptOnRecord(w, w', q);
      if q == p {
        assert PartsOf(w', q) == PartsOf(w, q).(e := PartsOf(w, q).e + x);
      } else {
        assert PartsOf(w', q) == PartsOf(w, q);
      }
    case Done(place) =>
      KeptOnRecord(w, w', q);
      DeliverOne(w, body, place, q);
      assert PartsOf(w', q) == if x == [] then PartsOf(w, q) else PartsOf(w, q).(a := PartsOf(w, q).a + x);
    case Lost(reason) =>
      assert PartsOf(w', q) == PartsOf(w, q);
      if q == p {
        assert Line(w, p) + [body] == Line(w, p) + [body] + [];
        FailLeaves(w, [body], reason, p, Line(w, p), []);
      } else {
        FailKeepsOthers(w, [body], reason, q);
      }
  }

  lemma StructIsNumbered(w: World)
    requires Struct(w)
    ensures Numbered(w)
  {
  }

  lemma KeptOnRecord(w: World, w': World, q: nat)
    requires w'.issued == w.issued && w'.failed == w.failed
    ensures Kept(w', q) == Kept(w, q)
  {
  }

  lemma DeliverOne(w: World, body: Body, place: Place, q: nat)
    ensures DeliveredOf(Deliver(w, [body], place).delivered, q)
         == DeliveredOf(w.delivered, q) + (if body.ref == q then [body] else [])
  {
    DeliveredAppend(w.delivered, DeliveredAt([body], place), q);
    DeliveredAll([body], place, q);
  }

  // ---------------------------------------------------------------------------------------------
  // The exporter receives

  /** What a call on export `id` comes to, when `w` is the world with the call taken from the
      channel. */
  predicate Arrives(w: World, id: nat, body: Body, o: Outcome) {
    var p := body.ref;
    var w' := ExporterHandles(w, CallOn(id, body));
    id < |w.exports| && p < |w.exports| &&
    match o
    case SentTo(k) =>
      && w' == w.(ba := w.ba + [CallAt(k, body)])
      && id == p && HostOf(w, p) == Some(Back(k)) && HeldAtExporter(w, p) == []
    case HeldBack =>
      && id == p && HostOf(w, p).None?
      && w' == w.(exports := w.exports[p := w.exports[p].(client := w.exports[p].client.(queue := w.exports[p].client.queue + [body]))])
    case Done(place) =>
      && w' == Deliver(w, [body], place)
      && place.AtExporter? && HostOf(w, p) == Some(Here(place.obj)) && CallsOn(w.ba, p) == [] && HeldAtExporter(w, p) == []
    case Lost(reason) => w' == Fail(w, [body], reason) && reason.QueueFull?
  }

  lemma CallArrives(w: World, id: nat, body: Body) returns (o: Outcome)
    requires Struct(w) && AbOk(w, CallOn(id, body))
    ensures Arrives(w, id, body, o)
  {
    hide BaOk, DeliveryOk, ReasonOk, Embargoes, Numbered, ImportPlaced, CallsOn, CallsAfter, Marks;
    assert Placed(w, id);
    assert Placed(w, body.ref);
    var x := w.exports[id].client;
    if x.resolved.None? {
      o := if |x.queue| < 64 then HeldBack else Lost(QueueFull);
    } else {
      match x.resolved.value
      case Here(obj) => o := Done(AtExporter(obj));
      case Back(k) => o := SentTo(k);
    }
  }

  /** The target and parameters a message names beside its export do not matter to the exporter. */
  lemma SameCall(w: World, m: Message)
    requires m.Call? && m.target.ImportedCap?
    ensures ExporterHandles(w, m) == ExporterHandles(w, CallOn(m.target.id, m.body))
    ensures AbOk(w, m) == AbOk(w, CallOn(m.target.id, m.body))
  {
  }

  lemma ExporterCallStruct(w: World, id: nat, body: Body, o: Outcome)
    requires Struct(w) && Arrives(w, id, body, o) && body.n < |w.issued|
    requires body.ref in w.imports ==>
      var i := w.imports[body.ref].client;
      i.resolved.Some? && i.resolved.value.Own? ==> i.embargo.Some? && Marks(w.ba, i.embargo.value) == 0
    ensures Struct(ExporterHandles(w, CallOn(id, body)))
  {
    hide ExporterHandles, Struct;
    match o
    case SentTo(k) => BaGrows(w, CallAt(k, body));
    case HeldBack => HoldKeeps(w, body.ref, body);
    case Done(place) => DeliverKeeps(w, [body], place);
    case Lost(reason) => FailKeeps(w, [body], reason);
  }

  lemma ExporterCallLine(w: World, id: nat, body: Body, o: Outcome, q: nat)
    requires Numbered(w) && Arrives(w, id, body, o)
    requires Kept(w, q) == With(PartsOf(w, q), if q == body.ref then [body] else [])
    ensures Line(ExporterHandles(w, CallOn(id, body)), q) == Kept(ExporterHandles(w, CallOn(id, body)), q)
  {
    hide ExporterHandles, Kept, CallsOn, DeliveredOf, Join, With, Line;
    var x := if q == body.ref then [body] else [];
    var w' := ExporterHandles(w, CallOn(id, body));
    LineIsJoin(w', q);
    Shift(PartsOf(w, q), x);
    match o
    case SentTo(k) =>
      KeptOnRecord(w, w', q);
      AppendOne(w.ba, CallAt(k, body), 0, q);
      assert PartsOf(w', q) == if x == [] then PartsOf(w, q) else PartsOf(w, q).(b := PartsOf(w, q).b + x);
    case HeldBack =>
      KeptOnRecord(w, w', q);
      assert PartsOf(w', q) == if x == [] then PartsOf(w, q) else PartsOf(w, q).(c := PartsOf(w, q).c + x);
    case Done(place) =>
      KeptOnRecord(w, w', q);
      DeliverOne(w, body, place, q);
      assert PartsOf(w', q) == if x == [] then PartsOf(w, q) else PartsOf(w, q).(a := PartsOf(w, q).a + x);
    case Lost(reason) =>
      assert PartsOf(w', q) == PartsOf(w, q);
      if q == body.ref {
        var p := PartsOf(w, q);
        FailLeaves(w, [body], reason, q, p.a + p.b + p.c, p.d + p.e);
      } else {
        FailKeepsOthers(w, [body], reason, q);
      }
  }

  lemma ExporterReceivesKeeps(w: World)
    requires Inv(w) && w.ab != []
    ensures Inv(ExporterHandles(w.(ab := w.ab[1..]), w.ab[0]))
  {
    hide Struct, Kept, Line, Placed, AbOk, Arrives, ExporterHandles;
    var m, w1 := w.ab[0], w.(ab := w.ab[1..]);
    if m.Disembargo? {
      EchoKeeps(w);
      forall q: nat
        ensures Line(ExporterHandles(w1, m), q) == Kept(ExporterHandles(w1, m), q)
      {
        assert Line(w, q) == Kept(w, q);
        EchoLine(w, q);
      }
    } else {
      AbShrinks(w);
      if m.Call? {
        CallReceived(w);
      } else {
        forall q: nat
          ensures Line(ExporterHandles(w1, m), q) == Kept(ExporterHandles(w1, m), q)
        {
          assert Line(w, q) == Kept(w, q);
          ChatterLine(w, q);
        }
        assert ExporterHandles(w1, m) == w1 by { ChatterIsIgnored(w1, m); }
      }
    }
  }

  lemma ChatterIsIgnored(w: World, m: Message)
    requires !m.Call? && !m.Disembargo?
    ensures ExporterHandles(w, m) == w
  {
  }

  /** Worlds with the same parts and records have the same line. */
  lemma SameLine(w: World, w': World, q: nat)
    requires PartsOf(w', q) == PartsOf(w, q) && w'.issued == w.issued && w'.failed == w.failed
    ensures Line(w', q) == Line(w, q) && Kept(w', q) == Kept(w, q)
  {
    hide CallsOn, DeliveredOf;
    KeptOnRecord(w, w', q);
  }

  lemma EchoLine(w: World, q: nat)
    requires w.ab != [] && w.ab[0].Disembargo?
    ensures var w' := ExporterHandles(w.(ab := w.ab[1..]), w.ab[0]);
      Line(w', q) == Line(w, q) && Kept(w', q) == Kept(w, q)
  {
    hide Kept, Line;
    var m := w.ab[0];
    AppendOne(w.ba, Disembargo(ReceiverLoopback(m.context.id), m.target), 0, q);
    SameLine(w, ExporterHandles(w.(ab := w.ab[1..]), m), q);
  }

  lemma ChatterLine(w: World, q: nat)
    requires w.ab != [] && !w.ab[0].Disembargo? && !w.ab[0].Call?
    ensures var w' := ExporterHandles(w.(ab := w.ab[1..]), w.ab[0]);
      Line(w', q) == Line(w, q) && Kept(w', q) == Kept(w, q)
  {
    hide Kept, Line;
    SameLine(w, ExporterHandles(w.(ab := w.ab[1..]), w.ab[0]), q);
  }

  lemma CallReceived(w: World)
    requires Inv(w) && w.ab != [] && w.ab[0].Call?
    ensures Inv(ExporterHandles(w.(ab := w.ab[1..]), w.ab[0]))
  {
    hide Struct, Kept, Line, Placed, AbOk, Arrives, ExporterHandles, CallsOn, CallsAfter, Marks, Swept, HostOf, ImportPlaced;
    var m, w1 := w.ab[0], w.(ab := w.ab[1..]);
    AbShrinks(w);
    assert Struct(w1);
    CallIsImported(w, m);
    SameCall(w1, m);
    AbOkSame(w, w1, m);
    var o := CallArrives(w1, m.target.id, m.body);
    HeadIsIssued(w);
    CallersImport(w);
    ExporterCallStruct(w1, m.target.id, m.body, o);
    StructIsNumbered(w1);
    forall q: nat
      ensures Line(ExporterHandles(w1, m), q) == Kept(ExporterHandles(w1, m), q)
    {
      assert Line(w, q) == Kept(w, q);
      HeadInLine(w, q);
      ExporterCallLine(w1, m.target.id, m.body, o, q);
    }
  }

  lemma AbOkSame(w: World, w': World, m: Message)
    requires AbOk(w, m) && w'.exports == w.exports
    ensures AbOk(w', m)
  {
  }

  lemma BaOkSame(w: World, w': World, m: Message)
    requires BaOk(w, m) && w'.exports == w.exports
    ensures BaOk(w', m)
  {
  }

  lemma CallIsImported(w: World, m: Message)
    requires AbOk(w, m) && m.Call?
    ensures m.target.ImportedCap?
  {
  }

  lemma HeadInLine(w: World, q: nat)
    requires w.ab != [] && w.ab[0].Call?
    ensures var w1 := w.(ab := w.ab[1..]);
      && Kept(w1, q) == Kept(w, q)
      && Line(w, q) == With(PartsOf(w1, q), if q == w.ab[0].body.ref then [w.ab[0].body] else [])
  {
    hide Kept, DeliveredOf, Line, Join, With;
    var w1 := w.(ab := w.ab[1..]);
    var x := if q == w.ab[0].body.ref then [w.ab[0].body] else [];
    KeptOnRecord(w, w1, q);
    LineIsJoin(w, q);
    Shift(PartsOf(w1, q), x);
    assert PartsOf(w, q) == PartsOf(w1, q).(d := x + PartsOf(w1, q).d);
  }

  lemma HeadIsIssued(w: World)
    requires Inv(w) && w.ab != [] && w.ab[0].Call?
    ensures w.ab[0].body.n < |w.issued|
  {
    hide Kept, DeliveredOf, Struct;
    var p := w.ab[0].body.ref;
    StructIsNumbered(w);
    KeptSorted(w, p);
    assert w.ab[0].body in CallsOn(w.ab, p);
    assert Line(w, p) == Kept(w, p);
    assert w.ab[0].body in Line(w, p);
  }

  /** While a call is on its way to the exporter, its import is not resolved to a capability of the
      importer, or the Disembargo is still behind the call. */
  lemma CallersImport(w: World)
    requires Struct(w) && w.ab != [] && w.ab[0].Call?
    ensures w.ab[0].body.ref in w.imports ==>
      var i := w.imports[w.ab[0].body.ref].client;
      i.resolved.Some? && i.resolved.value.Own? ==> i.embargo.Some? && Marks(w.ba, i.embargo.value) == 0
  {
    hide AbOk, BaOk, DeliveryOk, ReasonOk, Embargoes, Numbered;
    var p := w.ab[0].body.ref;
    if p in w.imports {
      assert Placed(w, p);
    }
  }

  // ---------------------------------------------------------------------------------------------
  // The importer receives

  lemma ImporterReceivesKeeps(w: World)
    requires Inv(w) && w.ba != []
    ensures Inv(ImporterHandles(w.(ba := w.ba[1..]), w.ba[0]))
  {
    hide Struct, Kept, Line, ImporterHandles;
    match w.ba[0]
    case Call(_, _, _, _, _) => CallReturns(w);
    case Resolve(_, _) => ResolveReceived(w);
    case Disembargo(_, _) => EchoReceived(w);
    case Return(_, _, _, _) => GrantReceived(w);
    case _ =>
      BaShrinks(w);
      OtherReceived(w);
      forall q: nat
        ensures Line(ImporterHandles(w.(ba := w.ba[1..]), w.ba[0]), q) == Kept(ImporterHandles(w.(ba := w.ba[1..]), w.ba[0]), q)
      {
        assert Line(w, q) == Kept(w, q);
        SameLine(w, w.(ba := w.ba[1..]), q);
      }
  }

  lemma OtherReceived(w: World)
    requires w.ba != [] && !w.ba[0].Call? && !w.ba[0].Resolve? && !w.ba[0].Disembargo? && !w.ba[0].Return?
    ensures ImporterHandles(w.(ba := w.ba[1..]), w.ba[0]) == w.(ba := w.ba[1..])
    ensures forall q: nat :: PartsOf(w.(ba := w.ba[1..]), q) == PartsOf(w, q)
  {
  }

  /** A call the exporter sent back is delivered. */
  lemma CallReturns(w: World)
    requires Inv(w) && w.ba != [] && w.ba[0].Call?
    ensures Inv(ImporterHandles(w.(ba := w.ba[1..]), w.ba[0]))
  {
    hide Struct, Kept, Line, Join, DeliveredOf, CallsOn;
    var m, w1 := w.ba[0], w.(ba := w.ba[1..]);
    BaShrinks(w);
    var w' := Deliver(w1, [m.body], AtImporter(m.target));
    assert ImporterHandles(w1, m) == w';
    DeliverKeeps(w1, [m.body], AtImporter(m.target));
    forall q: nat
      ensures Line(w', q) == Kept(w', q)
    {
      assert Line(w, q) == Kept(w, q);
      ReturnLine(w, q);
    }
  }

  lemma ReturnLine(w: World, q: nat)
    requires w.ba != [] && w.ba[0].Call?
    ensures var w' := Deliver(w.(ba := w.ba[1..]), [w.ba[0].body], AtImporter(w.ba[0].target));
      Line(w', q) == Line(w, q) && Kept(w', q) == Kept(w, q)
  {
    hide Kept, Line, Join, DeliveredOf;
    var m := w.ba[0];
    var w' := Deliver(w.(ba := w.ba[1..]), [m.body], AtImporter(m.target));
    var x := if q == m.body.ref then [m.body] else [];
    KeptOnRecord(w, w', q);
    LineIsJoin(w, q);
    LineIsJoin(w', q);
    DeliverOne(w, m.body, AtImporter(m.target), q);
    var p := PartsOf(w, q).(b := CallsOn(w.ba[1..], q));
    Advance(p, x);
    assert PartsOf(w, q) == p.(b := x + p.b);
    assert PartsOf(w', q) == p.(a := p.a + x);
  }

  /** Capabilities handed over become imports. */
  lemma GrantReceived(w: World)
    requires Inv(w) && w.ba != [] && w.ba[0].Return?
    ensures Inv(ImporterHandles(w.(ba := w.ba[1..]), w.ba[0]))
  {
    hide Struct, Kept, Line, Widened, CallsOn, DeliveredOf;
    var m, w1 := w.ba[0], w.(ba := w.ba[1..]);
    BaShrinks(w);
    var w' := ImporterHandles(w1, m);
    if m.outcome.Results? {
      ImportsInTable(w1);
      TakeInWidens(w1, m.outcome.caps);
      assert Widened(w1, w');
      WidenKeeps(w1, w');
    } else {
      assert w' == w1;
    }
    forall q: nat
      ensures Line(w', q) == Kept(w', q)
    {
      assert Line(w, q) == Kept(w, q);
      assert CallsOn(w.ba, q) == CallsOn(w1.ba, q) by { SkipHead(w.ba, q); }
      if m.outcome.Results? {
        WidenLine(w1, w', q);
      }
      SameLine(w, w', q);
    }
  }

  lemma SkipHead(ch: seq<Message>, q: nat)
    requires ch != [] && !ch[0].Call?
    ensures CallsOn(ch, q) == CallsOn(ch[1..], q)
  {
  }

  lemma ImportsInTable(w: World)
    requires Struct(w)
    ensures forall p :: p in w.imports ==> p < |w.exports|
  {
  }

  lemma WidenLine(w: World, w': World, q: nat)
    requires Widened(w, w') && w' == w.(imports := w'.imports)
    ensures PartsOf(w', q) == PartsOf(w, q)
  {
  }

  /** A resolution is taken in. */
  lemma ResolveReceived(w: World)
    requires Inv(w) && w.ba != [] && w.ba[0].Resolve?
    ensures Inv(ImporterHandles(w.(ba := w.ba[1..]), w.ba[0]))
  {
    hide Struct, Kept, Line, CallsOn, DeliveredOf, BaOk;
    var m, w1 := w.ba[0], w.(ba := w.ba[1..]);
    BaShrinks(w);
    BaOkSame(w, w1, m);
    ResolveStruct(w1, m.promiseId, m.resolution);
    var w' := ImporterHandles(w1, m);
    forall q: nat
      ensures Line(w', q) == Kept(w', q)
    {
      assert Line(w, q) == Kept(w, q);
      SkipHead(w.ba, q);
      ResolveLine(w1, m.promiseId, m.resolution, q);
      SameLine(w, w', q);
    }
  }

  lemma ResolveStruct(w: World, p: nat, resolution: Resolution)
    requires Struct(w) && BaOk(w, Resolve(p, resolution)) && Resolves(w.ba, p) + Resolved(w, p) == 0
    ensures Struct(HandleResolve(w, p, resolution))
  {
    hide Struct, Resolves, Resolved;
    if p in w.imports && w.imports[p].isPromise {
      match resolution
      case ToException => SetResolvedKeeps(w, p, Broken);
      case ToCap(SenderHosted(id, obj)) =>
        var w1 := w.(imports := AddImport(w.imports, id, false));
        ImportsInTable(w);
        WidenKeeps(w, w1);
        ResolvedSame(w, w1, p);
        SetResolvedKeeps(w1, p, Remote(id));
      case ToCap(ReceiverHosted(k, obj)) => EmbargoKeeps(w, p, ImportedCap(k, obj));
      case ToCap(ReceiverAnswer(k, serial)) => EmbargoKeeps(w, p, PromisedAnswer(k, serial));
      case _ =>
    }
  }

  lemma ResolvedSame(w: World, w': World, p: nat)
    requires Widened(w, w') && p in w.imports
    ensures Resolved(w', p) == Resolved(w, p)
  {
  }

  lemma ResolveLine(w: World, p: nat, resolution: Resolution, q: nat)
    ensures var w' := HandleResolve(w, p, resolution);
      PartsOf(w', q) == PartsOf(w, q) && w'.issued == w.issued && w'.failed == w.failed
  {
    hide CallsOn, DeliveredOf, PutUnderEmbargo;
    if p in w.imports && w.imports[p].isPromise {
      match resolution
      case ToCap(ReceiverHosted(k, obj)) => EmbargoLine(w, p, ImportedCap(k, obj), q);
      case ToCap(ReceiverAnswer(k, serial)) => EmbargoLine(w, p, PromisedAnswer(k, serial), q);
      case _ =>
    }
  }

  lemma EmbargoLine(w: World, p: nat, k: Target, q: nat)
    requires p in w.imports
    ensures var w' := PutUnderEmbargo(w, p, k);
      PartsOf(w', q) == PartsOf(w, q) && w'.issued == w.issued && w'.failed == w.failed
  {
    hide CallsOn, DeliveredOf;
    AppendOne(w.ab, Disembargo(SenderLoopback(w.disembargoes.NextId()), ImportedCap(p, 0)), 0, q);
  }

  /** The echo of a Disembargo lets the held calls through. */
  lemma EchoReceived(w: World)
    requires Inv(w) && w.ba != [] && w.ba[0].Disembargo?
    ensures Inv(ImporterHandles(w.(ba := w.ba[1..]), w.ba[0]))
  {
    hide Struct, Kept, Line;
    LiftKeeps(w);
    var w' := ImporterHandles(w.(ba := w.ba[1..]), w.ba[0]);
    forall q: nat
      ensures Line(w', q) == Kept(w', q)
    {
      assert Line(w, q) == Kept(w, q);
      LiftLine(w, q);
    }
  }

  lemma LiftLine(w: World, q: nat)
    requires Struct(w) && w.ba != [] && w.ba[0].Disembargo?
    ensures var w' := ImporterHandles(w.(ba := w.ba[1..]), w.ba[0]);
      Line(w', q) == Line(w, q) && Kept(w', q) == Kept(w, q)
  {
    hide Struct, Kept, Line, Join, CallsOn, DeliveredOf;
    EchoFinds(w);
    var p := w.disembargoes.Find(w.ba[0].context.id).value;
    HeldIsOwn(w, p);
    var i := w.imports[p].client;
    var w' := ImporterHandles(w.(ba := w.ba[1..]), w.ba[0]);
    KeptOnRecord(w, w', q);
    LineIsJoin(w, q);
    LineIsJoin(w', q);
    SkipHead(w.ba, q);
    DeliverMany(w, i.queue, AtImporter(i.resolved.value.k), q);
    Advance(PartsOf(w, q), []);
    if q == p {
      assert PartsOf(w', q) == PartsOf(w, q).(a := PartsOf(w, q).a + i.queue, e := []);
    } else {
      assert PartsOf(w', q) == PartsOf(w, q);
    }
  }

  lemma HeldIsOwn(w: World, p: nat)
    requires Struct(w) && p < |w.exports|
    ensures p in w.imports ==> forall b :: b in w.imports[p].client.queue ==> b.ref == p
    ensures forall b :: b in w.exports[p].client.queue ==> b.ref == p
  {
    assert Placed(w, p);
  }

  /** Delivering calls of one reference. */
  lemma DeliverMany(w: World, bodies: seq<Body>, place: Place, q: nat)
    ensures DeliveredOf(Deliver(w, bodies, place).delivered, q) == DeliveredOf(w.delivered, q) + Of(bodies, q)
    ensures (forall b :: b in bodies ==> b.ref == q) ==> Of(bodies, q) == bodies
    ensures (forall b :: b in bodies ==> b.ref != q) ==>
      Of(bodies, q) == [] && DeliveredOf(Deliver(w, bodies, place).delivered, q) == DeliveredOf(w.delivered, q)
  {
    DeliveredAppend(w.delivered, DeliveredAt(bodies, place), q);
    DeliveredAll(bodies, place, q);
    OfAll(bodies, q);
  }

  // ---------------------------------------------------------------------------------------------
  // The exporter acts

  /** A message that carries no call changes no line. */
  lemma BaLine(w: World, m: Message, q: nat)
    requires !m.Call?
    ensures var w' := w.(ba := w.ba + [m]);
      Line(w', q) == Line(w, q) && Kept(w', q) == Kept(w, q)
  {
    hide Kept, Line;
    AppendOne(w.ba, m, 0, q);
    SameLine(w, w.(ba := w.ba + [m]), q);
  }

  lemma BaSendKeeps(w: World, m: Message)
    requires Inv(w) && BaOk(w, m) && !m.Disembargo? && !m.Call?
    requires m.Resolve? ==> Resolves(w.ba, m.promiseId) + Resolved(w, m.promiseId) == 0
    ensures Inv(w.(ba := w.ba + [m]))
  {
    hide Struct, Kept, Line;
    BaGrows(w, m);
    forall q: nat
      ensures Line(w.(ba := w.ba + [m]), q) == Kept(w.(ba := w.ba + [m]), q)
    {
      assert Line(w, q) == Kept(w, q);
      BaLine(w, m, q);
    }
  }

  lemma ExportKeeps(w: World, x: ExportEntry)
    requires Inv(w) && !x.client.closed && x.client.queue == [] && (x.client.resolved.Some? ==> x.settled)
    ensures Inv(w.(exports := w.exports + [x]))
  {
    hide Struct, Kept, Line;
    var w' := w.(exports := w.exports + [x]);
    ExportsGrow(w, x);
    forall q: nat
      ensures Line(w', q) == Kept(w', q)
    {
      assert Line(w, q) == Kept(w, q);
      SameLine(w, w', q);
    }
  }

  lemma ExportPromiseKeeps(w: World)
    requires Inv(w)
    ensures Inv(ExportPromise(w))
  {
    hide Inv;
    var x := ExportEntry(true, false, NewExport());
    var w1 := w.(exports := w.exports + [x]);
    ExportKeeps(w, x);
    BaSendKeeps(w1, Grant(SenderPromise(|w.exports|, 0)));
  }

  lemma ExportOwnKeeps(w: World, obj: nat)
    requires Inv(w)
    ensures Inv(ExportOwn(w, obj))
  {
    hide Inv;
    var id := FirstWith(w.exports, obj);
    var x := ExportEntry(false, true, ExportState(false, Some(Here(obj)), []));
    if id < |w.exports| {
      BaSendKeeps(w, Grant(SenderHosted(id, 0)));
    } else {
      ExportKeeps(w, x);
      BaSendKeeps(w.(exports := w.exports + [x]), Grant(SenderHosted(id, 0)));
    }
  }

  /** The promise's held calls, by the way they leave. */
  lemma HeldIsIssued(w: World, p: nat)
    requires Inv(w) && p < |w.exports|
    ensures forall b :: b in w.exports[p].client.queue ==> b.ref == p && b.n < |w.issued|
  {
    hide Struct, Kept, CallsOn, DeliveredOf;
    HeldIsOwn(w, p);
    StructIsNumbered(w);
    KeptSorted(w, p);
    assert Line(w, p) == Kept(w, p);
    forall b | b in w.exports[p].client.queue
      ensures b.n < |w.issued|
    {
      assert b in Line(w, p);
    }
  }

  lemma OpenExport(w: World, p: nat)
    requires Struct(w) && p < |w.exports|
    ensures !w.exports[p].client.closed
    ensures w.exports[p].client.resolved.None? ==> CallsOn(w.ba, p) == []
  {
    assert Placed(w, p);
  }

  lemma SettleBackKeeps(w: World, p: nat, k: Target)
    requires Inv(w) && p < |w.exports| && !w.exports[p].settled
    ensures Inv(SettleCap(w, p, Back(k)))
  {
    hide Struct, Kept, Line;
    var held := w.exports[p].client.queue;
    var w1 := w.(exports := w.exports[p := w.exports[p].(settled := true, client := ExportState(false, Some(Back(k)), []))]);
    var w2 := w1.(ba := w.ba + CallsTo(k, held));
    OpenExport(w, p);
    HeldIsIssued(w, p);
    SettledKeeps(w, p, Some(Back(k)));
    assert Resolved(w1, p) == Resolved(w, p);
    ForwardKeeps(w1, p, k, held);
    forall q: nat
      ensures Line(w2, q) == Kept(w2, q)
    {
      assert Line(w, q) == Kept(w, q);
      ForwardLine(w, w2, p, k, q);
    }
    assert Inv(w2);
    BaSendKeeps(w2, Resolve(p, ToCap(Naming(k))));
    assert SettleCap(w, p, Back(k)) == w2.(ba := w2.ba + [Resolve(p, ToCap(Naming(k)))]);
  }

  lemma ForwardLine(w: World, w2: World, p: nat, k: Target, q: nat)
    requires p < |w.exports| && forall b :: b in w.exports[p].client.queue ==> b.ref == p
    requires w2 == w.(exports := w.exports[p := w.exports[p].(settled := true, client := ExportState(false, Some(Back(k)), []))],
                      ba := w.ba + CallsTo(k, w.exports[p].client.queue))
    ensures Line(w2, q) == Line(w, q) && Kept(w2, q) == Kept(w, q)
  {
    hide Kept, Line, Join, CallsOn, DeliveredOf;
    var held := w.exports[p].client.queue;
    KeptOnRecord(w, w2, q);
    LineIsJoin(w, q);
    LineIsJoin(w2, q);
    CallsOnAppend(w.ba, CallsTo(k, held), q);
    CallsToAll(k, held, q, 0);
    OfAll(held, q);
    Advance(PartsOf(w, q), []);
    if q == p {
      assert PartsOf(w2, q) == PartsOf(w, q).(b := PartsOf(w, q).b + held, c := []);
    } else {
      assert PartsOf(w2, q) == PartsOf(w, q);
    }
  }

  lemma SettleHereKeeps(w: World, p: nat, obj: nat)
    requires Inv(w) && p < |w.exports| && !w.exports[p].settled
    ensures Inv(SettleCap(w, p, Here(obj)))
  {
    hide Struct, Kept, Line;
    var held := w.exports[p].client.queue;
    var w1 := w.(exports := w.exports[p := w.exports[p].(settled := true, client := ExportState(false, Some(Here(obj)), []))]);
    var w2 := Deliver(w1, held, AtExporter(obj));
    OpenExport(w, p);
    HeldIsIssued(w, p);
    SettledKeeps(w, p, Some(Here(obj)));
    assert Resolved(w1, p) == Resolved(w, p);
    DeliverKeeps(w1, held, AtExporter(obj));
    forall q: nat
      ensures Line(w2, q) == Kept(w2, q)
    {
      assert Line(w, q) == Kept(w, q);
      DeliverHeldLine(w, w2, p, obj, q);
    }
    assert Inv(w2);
    var id := FirstWith(w1.exports, obj);
    assert w1.exports[p].client.resolved == Some(Here(obj));
    assert id <= p;
    BaSendKeeps(w2, Resolve(p, ToCap(SenderHosted(id, 0))));
    assert SettleCap(w, p, Here(obj)) == w2.(ba := w2.ba + [Resolve(p, ToCap(SenderHosted(id, 0)))]);
  }

  lemma DeliverHeldLine(w: World, w2: World, p: nat, obj: nat, q: nat)
    requires p < |w.exports| && CallsOn(w.ba, p) == [] && forall b :: b in w.exports[p].client.queue ==> b.ref == p
    requires w2 == Deliver(w.(exports := w.exports[p := w.exports[p].(settled := true, client := ExportState(false, Some(Here(obj)), []))]),
                           w.exports[p].client.queue, AtExporter(obj))
    ensures Line(w2, q) == Line(w, q) && Kept(w2, q) == Kept(w, q)
  {
    hide Kept, Line, Join, CallsOn, DeliveredOf;
    var held := w.exports[p].client.queue;
    KeptOnRecord(w, w2, q);
    LineIsJoin(w, q);
    LineIsJoin(w2, q);
    DeliverMany(w, held, AtExporter(obj), q);
    Advance(PartsOf(w, q), []);
    if q == p {
      assert PartsOf(w2, q) == PartsOf(w, q).(a := PartsOf(w, q).a + held, c := []);
    } else {
      assert PartsOf(w2, q) == PartsOf(w, q);
    }
  }

  lemma SettleErrorKeeps(w: World, p: nat)
    requires Inv(w) && p < |w.exports|
    ensures Inv(SettleError(w, p))
  {
    hide Struct, Kept, Line;
    if !w.exports[p].settled {
      var held := w.exports[p].client.queue;
      var w1 := w.(exports := w.exports[p := w.exports[p].(settled := true, client := ExportState(false, None, []))]);
      var w2 := Fail(w1, held, Rejected);
      OpenExport(w, p);
      HeldIsIssued(w, p);
      SettledKeeps(w, p, None);
      assert Resolved(w1, p) == Resolved(w, p);
      FailKeeps(w1, held, Rejected);
      forall q: nat
        ensures Line(w2, q) == Kept(w2, q)
      {
        assert Line(w, q) == Kept(w, q);
        RejectLine(w, w2, p, q);
      }
      assert Inv(w2);
      BaSendKeeps(w2, Resolve(p, ToException));
      assert SettleError(w, p) == w2.(ba := w2.ba + [Resolve(p, ToException)]);
    }
  }

  lemma RejectLine(w: World, w2: World, p: nat, q: nat)
    requires Struct(w) && Line(w, q) == Kept(w, q)
    requires p < |w.exports| && forall b :: b in w.exports[p].client.queue ==> b.ref == p
    requires w2 == Fail(w.(exports := w.exports[p := w.exports[p].(settled := true, client := ExportState(false, None, []))]),
                        w.exports[p].client.queue, Rejected)
    ensures Line(w2, q) == Kept(w2, q)
  {
    StructIsNumbered(w);
    hide Struct, Kept, Line, Join, CallsOn, DeliveredOf;
    var held := w.exports[p].client.queue;
    LineIsJoin(w, q);
    LineIsJoin(w2, q);
    KeptOnRecord(Fail(w, held, Rejected), w2, q);
    var parts := PartsOf(w, q);
    Advance(parts, []);
    if q == p {
      assert PartsOf(w2, q) == parts.(c := []);
      FailLeaves(w, held, Rejected, q, parts.a + parts.b, parts.d + parts.e);
    } else {
      assert PartsOf(w2, q) == parts;
      FailKeepsOthers(w, held, Rejected, q);
    }
  }

  lemma AbChatKeeps(w: World, m: Message)
    requires Inv(w) && IsChatter(m)
    ensures Inv(w.(ab := w.ab + [m]))
  {
    hide Struct, Kept, Line;
    AbGrows(w, m);
    var w' := w.(ab := w.ab + [m]);
    forall q: nat
      ensures Line(w', q) == Kept(w', q)
    {
      assert Line(w, q) == Kept(w, q);
      AppendOne(w.ab, m, 0, q);
      SameLine(w, w', q);
    }
  }

  // ---------------------------------------------------------------------------------------------
  // Runs

  lemma ActKeeps(w: World, a: Action)
    requires Inv(w) && Enabled(w, a)
    ensures Inv(Act(w, a))
  {
    hide Inv;
    match a
    case DoIssue(p) => IssueKeeps(w, p);
    case DoExportPromise => ExportPromiseKeeps(w);
    case DoRegrant(p) => BaSendKeeps(w, Grant(SenderPromise(p, 0)));
    case DoExportOwn(obj) => ExportOwnKeeps(w, obj);
    case DoSettleCap(p, host) =>
      if !w.exports[p].settled {
        match host
        case Here(obj) => SettleHereKeeps(w, p, obj);
        case Back(k) => SettleBackKeeps(w, p, k);
      }
    case DoSettleError(p) => SettleErrorKeeps(w, p);
    case ImporterReceives => ImporterReceivesKeeps(w);
    case ExporterReceives => ExporterReceivesKeeps(w);
    case ImporterChats(m) => AbChatKeeps(w, m);
    case ExporterChats(m) => BaSendKeeps(w, m);
  }

  lemma {:induction false} RunIsOk(run: seq<World>, i: nat)
    requires Run(run) && i < |run|
    ensures Inv(run[i])
  {
    hide Inv;
    if i == 0 {
      BeginIsOk();
    } else {
      RunIsOk(run, i - 1);
      assert Next(run[i - 1], run[(i - 1) + 1]);
      var a :| Enabled(run[i - 1], a) && run[i] == Act(run[i - 1], a);
      ActKeeps(run[i - 1], a);
    }
  }

  /** E-order.  In every reachable state, for every reference: the calls delivered, then those on the
      way back to the importer, then those its promise export holds, then those on the way to the
      exporter, then those the importer holds under embargo, are exactly the calls issued on the
      reference, in order, minus those answered with an error. */
  lemma CallsStayInOrder(run: seq<World>, i: nat, p: nat)
    requires Run(run) && i < |run|
    ensures var w := run[i];
      DeliveredOf(w.delivered, p) + CallsOn(w.ba, p) + HeldAtExporter(w, p) + CallsOn(w.ab, p) + HeldAtImporter(w, p)
      == Minus(Of(w.issued, p), w.failed.Keys)
  {
    RunIsOk(run, i);
    assert Line(run[i], p) == Kept(run[i], p);
  }

  /** So of two calls delivered on one reference the one issued first is delivered first. */
  lemma DeliveryFollowsIssue(run: seq<World>, i: nat, j: nat, k: nat)
    requires Run(run) && i < |run|
    requires j < k < |run[i].delivered| && run[i].delivered[j].body.ref == run[i].delivered[k].body.ref
    ensures run[i].delivered[j].body.n < run[i].delivered[k].body.n
  {
    var p, ds := run[i].delivered[j].body.ref, run[i].delivered;
    hide DeliveredOf;
    DeliveredSorted(run, i, p);
    var x, y := ds[..k], ds[k..];
    Glued(ds, k);
    assert x[j] == ds[j] && y[0] == ds[k];
    DeliveredAppend(x, y, p);
    DeliveredHas(x, j);
    DeliveredHas(y, 0);
    PartsAreOrdered(DeliveredOf(x, p), DeliveredOf(y, p), x[j].body, y[0].body);
  }

  lemma Glued<T>(s: seq<T>, k: nat)
    requires k <= |s|
    ensures s[..k] + s[k..] == s
  {
  }

  lemma DeliveredSorted(run: seq<World>, i: nat, p: nat)
    requires Run(run) && i < |run|
    ensures Sorted(DeliveredOf(run[i].delivered, p))
  {
    hide Struct, Kept, Line, Join, DeliveredOf;
    var w := run[i];
    RunIsOk(run, i);
    StructIsNumbered(w);
    KeptSorted(w, p);
    assert Line(w, p) == Kept(w, p);
    LineIsJoin(w, p);
    StartsWithDelivered(PartsOf(w, p));
  }

  lemma StartsWithDelivered(p: Parts)
    ensures p.a <= Join(p)
  {
  }

  lemma {:induction false} DeliveredHas(ds: seq<Delivery>, j: nat)
    requires j < |ds|
    ensures ds[j].body in DeliveredOf(ds, ds[j].body.ref)
  {
    if j > 0 {
      DeliveredHas(ds[1..], j - 1);
    }
  }

  /** Once nothing on the reference is under way or held, every call was delivered or answered with an
      error. */
  lemma QuietMeansDelivered(run: seq<World>, i: nat, p: nat)
    requires Run(run) && i < |run|
    requires var w := run[i];
      CallsOn(w.ba, p) == [] && HeldAtExporter(w, p) == [] && CallsOn(w.ab, p) == [] && HeldAtImporter(w, p) == []
    ensures DeliveredOf(run[i].delivered, p) == Minus(Of(run[i].issued, p), run[i].failed.Keys)
  {
    CallsStayInOrder(run, i, p);
  }

  /** Every delivered call reached what its reference settled to, by whichever path it came. */
  lemma CallsReachTheResolution(run: seq<World>, i: nat, d: Delivery)
    requires Run(run) && i < |run| && d in run[i].delivered
    ensures d.body.ref < |run[i].exports|
    ensures match run[i].exports[d.body.ref].client.resolved
      case None => false
      case Some(Here(obj)) => d.place == AtExporter(obj)
      case Some(Back(k)) => d.place == AtImporter(k)
  {
    RunIsOk(run, i);
    assert DeliveryOk(run[i], d);
  }

  /** While an embargo stands, exactly one Disembargo for it is in a channel, so it can end, and the
      importer's table and client agree on it. */
  lemma EmbargoesAreAnswered(run: seq<World>, i: nat, p: nat)
    requires Run(run) && i < |run| && p in run[i].imports && run[i].imports[p].client.embargo.Some?
    ensures var e := run[i].imports[p].client.embargo.value;
      && run[i].disembargoes.Find(e) == Some(p)
      && Marks(run[i].ab, e) + Marks(run[i].ba, e) == 1
  {
    RunIsOk(run, i);
    assert Placed(run[i], p);
  }

  /** No embargo, no call outstanding on the long way: new calls may take the short one. */
  lemma ShortPathIsClear(run: seq<World>, i: nat, p: nat)
    requires Run(run) && i < |run| && p in run[i].imports
    requires run[i].imports[p].client.embargo.None?
    requires run[i].imports[p].client.resolved.Some? && run[i].imports[p].client.resolved.value.Own?
    ensures CallsOn(run[i].ab, p) == [] && CallsOn(run[i].ba, p) == []
    ensures HeldAtExporter(run[i], p) == [] && HeldAtImporter(run[i], p) == []
  {
    RunIsOk(run, i);
    assert Placed(run[i], p);
  }
}
