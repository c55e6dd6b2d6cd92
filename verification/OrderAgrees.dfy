/**
 The importer and exporter of `OrderWorld` are those of `ConnTables`, seen without reference counts: the
 same imports appear, the same promises are waited for, the same Disembargo is sent, and the same export
 slot is found.
 */
module OrderAgrees {
  import opened Options
  import opened IdTables
  import opened RpcMessages
  import opened PromiseClients
  import T = ConnTables
  import W = OrderWorld

  /** The two import tables hold the same ids, and wait for the same promises. */
  ghost predicate Agree(c: T.Conn, w: W.World) {
    && c.imports.Keys == w.imports.Keys
    && forall id :: id in c.imports ==> c.imports[id].isPromise == w.imports[id].isPromise
  }

  /** The same message, its history aside. */
  predicate Alike(m: Message, m': Message) {
    match m
    case Disembargo(context, ImportedCap(id, _)) => m'.Disembargo? && m'.context == context && m'.target.ImportedCap? && m'.target.id == id
    case _ => m == m'
  }

  lemma {:induction false} TakenInAlike(c: T.Conn, w: W.World, descs: seq<Desc>)
    requires Agree(c, w) && T.Populate(c, descs).Some?
    ensures Agree(T.Populate(c, descs).value, w.(imports := W.TakeIn(w.imports, descs)))
    decreases |descs|
  {
    if descs != [] {
      var d := descs[0];
      match d
      case SenderHosted(id, obj) => TakenInAlike(AddOne(c, d), w.(imports := W.AddImport(w.imports, id, false)), descs[1..]);
      case SenderPromise(id, obj) => TakenInAlike(AddOne(c, d), w.(imports := W.AddImport(w.imports, id, true)), descs[1..]);
      case _ => TakenInAlike(c, w, descs[1..]);
    }
  }

  function AddOne(c: T.Conn, d: Desc): T.Conn
    requires d.SenderHosted? || d.SenderPromise?
  {
    c.(imports := T.AddImport(c.imports, d.id, d.obj, d.SenderPromise?))
  }

  /** The resolutions both models know. */
  ghost predicate Known(c: T.Conn, resolution: Resolution) {
    match resolution
    case ToException => true
    case ToCap(SenderHosted(_, _)) => true
    case ToCap(ReceiverHosted(k, _)) => c.exports.Find(k).Some?
    case ToCap(ReceiverAnswer(q, _)) => q in c.answers
    case _ => false
  }

  lemma TakenInOne(c: T.Conn, desc: Desc)
    requires Known(c, ToCap(desc))
    ensures T.Populate(c, [desc]) == Some(if desc.SenderHosted? then AddOne(c, desc) else c)
  {
    var c' := if desc.SenderHosted? then AddOne(c, desc) else c;
    assert [desc][1..] == [] && T.Populate(c', []) == Some(c');
  }

  /** A Resolve that arrives changes both tables alike, and both send the same. */
  lemma ResolvedAlike(c: T.Conn, w: W.World, p: nat, resolution: Resolution)
    requires Agree(c, w) && Known(c, resolution)
    ensures var (c', out) := T.HandleResolve(c, Resolve(p, resolution), w.disembargoes.NextId());
      var w' := W.HandleResolve(w, p, resolution);
      && Agree(c', w') && !(c'.aborted && !c.aborted)
      && (if p in c.imports && c.imports[p].isPromise
          then |w'.ab| == |w.ab| + |out| && w.ab <= w'.ab
               && forall i :: 0 <= i < |out| ==> Alike(out[i], w'.ab[|w.ab| + i])
          else w' == w && c' == c && forall m :: m in out ==> m.Release?)
  {
    hide T.Populate, W.PutUnderEmbargo;
    if p in c.imports && c.imports[p].isPromise && resolution.ToCap? {
      var c1 := c.(imports := c.imports[p := c.imports[p].(isPromise := false)]);
      TakenInOne(c1, resolution.desc);
      match resolution.desc {
        case SenderHosted(_, _) => HostedAlike(c, w, p, resolution.desc);
        case ReceiverHosted(k, obj) => EmbargoedAlike(c, w, p, ImportedCap(k, obj));
        case ReceiverAnswer(q, serial) => EmbargoedAlike(c, w, p, PromisedAnswer(q, serial));
      }
    }
  }

  lemma EmbargoedAlike(c: T.Conn, w: W.World, p: nat, k: Target)
    requires Agree(c, w) && p in c.imports
    ensures var w' := W.PutUnderEmbargo(w, p, k);
      && Agree(c.(imports := c.imports[p := c.imports[p].(isPromise := false)]), w')
      && w'.ab == w.ab + [Disembargo(SenderLoopback(w.disembargoes.NextId()), ImportedCap(p, 0))]
  {
  }

  lemma HostedAlike(c: T.Conn, w: W.World, p: nat, desc: Desc)
    requires Agree(c, w) && p in c.imports && desc.SenderHosted?
    ensures var c1 := c.(imports := c.imports[p := c.imports[p].(isPromise := false)]);
      Agree(AddOne(c1, desc), W.SetResolved(w.(imports := W.AddImport(w.imports, desc.id, false)), p, W.Remote(desc.id)))
  {
  }

  /** A Disembargo is answered alike by either side: a request comes back with its id and its target, and an
      echo is not answered. */
  lemma EchoedAlike(w: W.World, m: Message)
    requires m.Disembargo?
    ensures W.ExporterHandles(w, m) == w.(ba := w.ba + T.HandleDisembargo(m))
    ensures W.ImporterHandles(w, m).ab == w.ab + T.HandleDisembargo(m)
    ensures T.HandleDisembargo(m) == if m.context.SenderLoopback? then [Disembargo(ReceiverLoopback(m.context.id), m.target)] else []
  {
    assert w.ab + [] == w.ab && w.ba + [] == w.ba;
  }

  /** Settling a promise to something announces it once, behind the calls that were held, and names what it
      was settled to; settling it again does nothing. */
  lemma SettlementIsAnnounced(w: W.World, p: nat, host: W.Host)
    requires p < |w.exports| && !w.exports[p].client.closed
    ensures var w' := W.SettleCap(w, p, host);
      if w.exports[p].settled then w' == w
      else
        && |w'.exports| == |w.exports| && w'.exports[p].settled && w'.exports[p].client.resolved == Some(host)
        && |w'.ba| > 0
        && var last := w'.ba[|w'.ba| - 1];
        && last.Resolve? && last.promiseId == p && last.resolution.ToCap?
        && var desc := last.resolution.desc;
        match host
        case Here(obj) =>
          && w'.ba[..|w'.ba| - 1] == w.ba
          && desc.SenderHosted? && desc.id < |w'.exports| && w'.exports[desc.id].client.resolved == Some(host)
        case Back(ImportedCap(id, x)) =>
          w'.ba[..|w'.ba| - 1] == w.ba + W.CallsTo(host.k, w.exports[p].client.queue) && desc == ReceiverHosted(id, x)
        case Back(PromisedAnswer(q, x)) =>
          w'.ba[..|w'.ba| - 1] == w.ba + W.CallsTo(host.k, w.exports[p].client.queue) && desc == ReceiverAnswer(q, x)
  {
    if !w.exports[p].settled && host.Here? {
      var w1 := w.(exports := w.exports[p := w.exports[p].(settled := true, client := w.exports[p].client.Resolve(host).0)]);
      assert w1.exports[p].client.resolved == Some(host);
      var first := W.FirstWith(w1.exports, host.obj);
      assert first < |w1.exports|;
    }
  }

  /** So does an error, behind nothing: the calls held fail at once. */
  lemma ErrorIsAnnounced(w: W.World, p: nat)
    requires p < |w.exports|
    ensures var w' := W.SettleError(w, p);
      if w.exports[p].settled then w' == w
      else
        && w'.ba == w.ba + [Resolve(p, ToException)]
        && w'.exports == w.exports[p := w'.exports[p]] && w'.exports[p].settled && w'.exports[p].client.queue == []
        && w'.exports[p].client.resolved == w.exports[p].client.resolved
        && forall b :: b in w.exports[p].client.queue ==> b in w'.failed && w'.failed[b] == W.Rejected
  {
  }

  /** An object is handed over through an export that is it, and gets a new one only if there was none. */
  lemma OwnIsHandedOver(w: W.World, obj: nat)
    ensures var w' := W.ExportOwn(w, obj);
      && |w'.ba| == |w.ba| + 1 && w'.ba[..|w.ba|] == w.ba && w.exports <= w'.exports
      && Descs(w'.ba[|w.ba|]) == [SenderHosted(W.FirstWith(w'.exports, obj), 0)]
      && W.FirstWith(w'.exports, obj) < |w'.exports|
      && ((exists x :: x in w.exports && x.client.resolved == Some(W.Here(obj))) <==> w'.exports == w.exports)
  {
    var id := W.FirstWith(w.exports, obj);
    var w' := W.ExportOwn(w, obj);
    if id < |w.exports| {
      assert w.exports[id] in w.exports;
    } else {
      assert w'.exports[|w.exports|].client.resolved == Some(W.Here(obj));
      assert forall x :: x in w.exports ==> x.client.resolved != Some(W.Here(obj));
      assert w'.exports != w.exports;
    }
  }

  /** A slot of the one table is the object exactly when that of the other is the same client. */
  ghost predicate SameSlots(t: IdTable<T.Export>, exports: seq<W.ExportEntry>, host: nat, obj: nat, norm: T.Norm) {
    && |t.slots| == |exports|
    && forall i :: 0 <= i < |exports| ==>
         (t.slots[i].Some? && norm(t.slots[i].value.obj) == norm(obj) <==> exports[i].client.resolved == Some(W.Here(host)))
  }

  /** An object is announced through the same slot in both; when no slot is the object both open a new
      one, which for a table with recycled ids is an empty slot. */
  lemma FoundAlike(t: IdTable<T.Export>, exports: seq<W.ExportEntry>, host: nat, obj: nat, norm: T.Norm)
    requires SameSlots(t, exports, host, obj, norm) && t.Valid()
    ensures var id, first := T.AddExportId(t, obj, norm), W.FirstWith(exports, host);
      if first < |exports| then id == first
      else id == t.NextId() && t.Find(id).None? && (t.free == [] ==> id == first)
  {
    var k, first := T.SameClientFrom(t.slots, obj, norm, 0), W.FirstWith(exports, host);
    assert first < |exports| ==> exports[first].client.resolved == Some(W.Here(host));
    assert k < |t.slots| ==> t.slots[k].Some? && norm(t.slots[k].value.obj) == norm(obj);
  }
}
