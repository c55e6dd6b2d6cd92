/**
 One vat calls references it imported from another while the exporter settles them: the clients, the
 channels and the embargo handshake of src/rpc/conn.ts, with references kept open.
 */
module OrderWorld {
  import opened Options
  import opened IdTables
  import opened RpcMessages
  import opened PromiseClients

  /** What an import resolves to: something of the importer's own, which is one of its exports or one of
      its answers, an import (possibly itself), or an error. */
  datatype Found = Own(k: Target) | Remote(id: nat) | Broken

  /** What an export resolves to: an object of the exporter, or something of the importer's. */
  datatype Host = Here(obj: nat) | Back(k: Target)

  datatype ImportEntry = ImportEntry(isPromise: bool, client: ImportState<Found>)

  /** `promise`: the slot was handed over as a promise (an entry of exportPromises). */
  datatype ExportEntry = ExportEntry(promise: bool, settled: bool, client: ExportState<Host>)

  datatype Place = AtImporter(k: Target) | AtExporter(obj: nat)

  datatype Delivery = Delivery(body: Body, place: Place)

  /** Why a call was answered with an error. */
  datatype Reason = QueueFull | Rejected | Circular(id: nat)

  /** `ab` carries what the importer sent.  `issued`, `failed` and `delivered` record every call. */
  datatype World = World(
    imports: map<nat, ImportEntry>,
    disembargoes: IdTable<nat>,
    exports: seq<ExportEntry>,
    ab: seq<Message>,
    ba: seq<Message>,
    issued: seq<Body>,
    failed: map<Body, Reason>,
    delivered: seq<Delivery>)

  function Begin(): World {
    World(map[], Empty(), [], [], [], [], map[], [])
  }

  // ---------------------------------------------------------------------------------------------
  // Messages

  /** A call on the receiver's export `id`.  Question ids and payloads play no part here. */
  function CallOn(id: nat, body: Body): Message {
    CallAt(ImportedCap(id, 0), body)
  }

  function CallAt(target: Target, body: Body): Message {
    Call(0, 0, target, [], body)
  }

  function CallsTo(target: Target, bodies: seq<Body>): seq<Message> {
    if bodies == [] then [] else [CallAt(target, bodies[0])] + CallsTo(target, bodies[1..])
  }

  /** How something of the receiver's own is described to it. */
  function Naming(target: Target): Desc {
    match target
    case ImportedCap(id, obj) => ReceiverHosted(id, obj)
    case PromisedAnswer(q, serial) => ReceiverAnswer(q, serial)
  }

  /** A message that hands over one capability. */
  function Grant(desc: Desc): Message {
    Return(0, 0, false, Results([desc]))
  }

  /** Traffic that concerns neither calls nor promises. */
  predicate IsChatter(m: Message) {
    !m.Call? && !m.Resolve? && !m.Disembargo? && Descs(m) == []
  }

  // ---------------------------------------------------------------------------------------------
  // The record of calls

  function DeliveredAt(bodies: seq<Body>, place: Place): seq<Delivery> {
    seq(|bodies|, i requires 0 <= i < |bodies| => Delivery(bodies[i], place))
  }

  function Deliver(w: World, bodies: seq<Body>, place: Place): World {
    w.(delivered := w.delivered + DeliveredAt(bodies, place))
  }

  function Fail(w: World, bodies: seq<Body>, reason: Reason): World {
    w.(failed := w.failed + map b | b in bodies :: reason)
  }

  // ---------------------------------------------------------------------------------------------
  // The importer

  /** Call import `p`.  A resolution to a remote capability is that import's client, which is called
      in turn; a resolution to itself never ends, and its caller gets the stack overflow.  Ids of
      resolutions are never above the promise's. */
  function CallImport(w: World, p: nat, body: Body): World
    requires p in w.imports
    decreases p
  {
    var entry := w.imports[p];
    var (client, fate) := entry.client.Call(body);
    match fate
    case Refused => Fail(w, [body], QueueFull)
    case Queued => w.(imports := w.imports[p := entry.(client := client)])
    case Sent => w.(ab := w.ab + [CallOn(p, body)])
    case Passed =>
      match entry.client.resolved
      case Some(Own(k)) => Deliver(w, [body], AtImporter(k))
      case Some(Remote(id)) =>
        if id < p && id in w.imports then CallImport(w, id, body) else Fail(w, [body], Circular(p))
      case _ => Fail(w, [body], Rejected)
  }

  function Issue(w: World, p: nat): World
    requires p in w.imports
  {
    var body := Body(p, |w.issued|);
    CallImport(w.(issued := w.issued + [body]), p, body)
  }

  function AddImport(imports: map<nat, ImportEntry>, id: nat, isPromise: bool): map<nat, ImportEntry> {
    if id in imports
    then imports[id := imports[id].(isPromise := imports[id].isPromise || isPromise)]
    else imports[id := ImportEntry(isPromise, NewImport())]
  }

  function TakeIn(imports: map<nat, ImportEntry>, descs: seq<Desc>): map<nat, ImportEntry>
    decreases |descs|
  {
    if descs == [] then imports
    else
      match descs[0]
      case SenderHosted(id, obj) => TakeIn(AddImport(imports, id, false), descs[1..])
      case SenderPromise(id, obj) => TakeIn(AddImport(imports, id, true), descs[1..])
      case _ => TakeIn(imports, descs[1..])
  }

  function SetResolved(w: World, p: nat, found: Found): World
    requires p in w.imports
  {
    var entry := w.imports[p];
    w.(imports := w.imports[p := ImportEntry(false, entry.client.SetResolved(found))])
  }

  /** A promise that turns out to be something of the importer's own is put under embargo until a
      Disembargo has been to the exporter and back. */
  function PutUnderEmbargo(w: World, p: nat, k: Target): World
    requires p in w.imports
  {
    var w' := SetResolved(w, p, Own(k));
    var e := w.disembargoes.NextId();
    w'.(imports := w'.imports[p := w'.imports[p].(client := w'.imports[p].client.(embargo := Some(e)))],
        disembargoes := w.disembargoes.Alloc(p),
        ab := w.ab + [Disembargo(SenderLoopback(e), ImportedCap(p, 0))])
  }

  /** A Resolve.  One for no import, or for an import that is no promise any more, is discarded. */
  function HandleResolve(w: World, p: nat, resolution: Resolution): World {
    if p !in w.imports || !w.imports[p].isPromise then w
    else
      match resolution
      case ToException => SetResolved(w, p, Broken)
      case ToCap(SenderHosted(id, obj)) =>
        SetResolved(w.(imports := AddImport(w.imports, id, false)), p, Remote(id))
      case ToCap(ReceiverHosted(k, obj)) => PutUnderEmbargo(w, p, ImportedCap(k, obj))
      case ToCap(ReceiverAnswer(q, serial)) => PutUnderEmbargo(w, p, PromisedAnswer(q, serial))
      case _ => w
  }

  /** The echo of a Disembargo: forget it, and let the calls held back go to the resolution. */
  function HandleEcho(w: World, e: nat): World {
    match w.disembargoes.Find(e)
    case None => w
    case Some(p) =>
      if p !in w.imports then w.(disembargoes := w.disembargoes.Drop(e))
      else
        var (client, held) := w.imports[p].client.Lift(e);
        var w' := w.(disembargoes := w.disembargoes.Drop(e), imports := w.imports[p := w.imports[p].(client := client)]);
        match client.resolved
        case Some(Own(k)) => Deliver(w', held, AtImporter(k))
        case _ => w'
  }

  function ImporterHandles(w: World, m: Message): World {
    match m
    case Call(_, _, target, _, body) => Deliver(w, [body], AtImporter(target))
    case Return(_, _, _, Results(descs)) => w.(imports := TakeIn(w.imports, descs))
    case Resolve(p, resolution) => HandleResolve(w, p, resolution)
    case Disembargo(SenderLoopback(e), target) => w.(ab := w.ab + [Disembargo(ReceiverLoopback(e), target)])
    case Disembargo(ReceiverLoopback(e), target) => HandleEcho(w, e)
    case _ => w
  }

  // ---------------------------------------------------------------------------------------------
  // The exporter

  /** The first export that is the object, or the table's length. */
  function FirstWith(exports: seq<ExportEntry>, obj: nat): (i: nat)
    ensures i <= |exports|
    ensures i < |exports| ==> exports[i].client.resolved == Some(Here(obj))
    ensures forall j :: 0 <= j < i ==> exports[j].client.resolved != Some(Here(obj))
  {
    if exports == [] || exports[0].client.resolved == Some(Here(obj)) then 0
    else 1 + FirstWith(exports[1..], obj)
  }

  /** Hand over a new promise. */
  function ExportPromise(w: World): World {
    w.(exports := w.exports + [ExportEntry(true, false, NewExport())],
       ba := w.ba + [Grant(SenderPromise(|w.exports|, 0))])
  }

  /** Hand over an object of the exporter, through the export that already is it if there is one. */
  function ExportOwn(w: World, obj: nat): World {
    var id := FirstWith(w.exports, obj);
    w.(exports := if id < |w.exports| then w.exports
                  else w.exports + [ExportEntry(false, true, ExportState(false, Some(Here(obj)), []))],
       ba := w.ba + [Grant(SenderHosted(id, 0))])
  }

  /** Resolve a promise export: the calls it held go on at once, then the resolution is announced.
      An object of the exporter is announced through the first export that is it, and by now the
      promise's own export is. */
  function SettleCap(w: World, p: nat, host: Host): World
    requires p < |w.exports|
  {
    if w.exports[p].settled then w
    else
      var (client, held) := w.exports[p].client.Resolve(host);
      var w' := w.(exports := w.exports[p := w.exports[p].(settled := true, client := client)]);
      match host
      case Here(obj) =>
        Deliver(w', held, AtExporter(obj))
          .(ba := w.ba + [Resolve(p, ToCap(SenderHosted(FirstWith(w'.exports, obj), 0)))])
      case Back(k) =>
        w'.(ba := w.ba + CallsTo(k, held) + [Resolve(p, ToCap(Naming(k)))])
  }

  function SettleError(w: World, p: nat): World
    requires p < |w.exports|
  {
    if w.exports[p].settled then w
    else
      var (client, held) := w.exports[p].client.Reject();
      Fail(w, held, Rejected)
        .(exports := w.exports[p := w.exports[p].(settled := true, client := client)], ba := w.ba + [Resolve(p, ToException)])
  }

  function ExporterHandles(w: World, m: Message): World {
    match m
    case Call(_, _, ImportedCap(id, _), _, body) =>
      if id >= |w.exports| then w
      else
        var (client, fate) := w.exports[id].client.Call(body);
        (match fate
         case Refused => Fail(w, [body], QueueFull)
         case Queued => w.(exports := w.exports[id := w.exports[id].(client := client)])
         case Sent => w
         case Passed =>
           match w.exports[id].client.resolved
           case Some(Here(obj)) => Deliver(w, [body], AtExporter(obj))
           case Some(Back(k)) => w.(ba := w.ba + [CallAt(k, body)])
           case None => w)
    case Disembargo(SenderLoopback(e), target) => w.(ba := w.ba + [Disembargo(ReceiverLoopback(e), target)])
    case _ => w
  }

  // ---------------------------------------------------------------------------------------------
  // Runs

  datatype Action =
    | DoIssue(p: nat)
    | DoExportPromise
    | DoRegrant(p: nat)
    | DoExportOwn(obj: nat)
    | DoSettleCap(p: nat, host: Host)
    | DoSettleError(p: nat)
    | ImporterReceives
    | ExporterReceives
    | ImporterChats(m: Message)
    | ExporterChats(m: Message)

  predicate Enabled(w: World, a: Action) {
    match a
    case DoIssue(p) => p in w.imports
    case DoExportPromise => true
    case DoRegrant(p) => p < |w.exports| && !w.exports[p].settled
    case DoExportOwn(obj) => true
    case DoSettleCap(p, host) => p < |w.exports|
    case DoSettleError(p) => p < |w.exports|
    case ImporterReceives => w.ba != []
    case ExporterReceives => w.ab != []
    case ImporterChats(m) => IsChatter(m)
    case ExporterChats(m) => IsChatter(m)
  }

  function Act(w: World, a: Action): World
    requires Enabled(w, a)
  {
    match a
    case DoIssue(p) => Issue(w, p)
    case DoExportPromise => ExportPromise(w)
    case DoRegrant(p) => w.(ba := w.ba + [Grant(SenderPromise(p, 0))])
    case DoExportOwn(obj) => ExportOwn(w, obj)
    case DoSettleCap(p, host) => SettleCap(w, p, host)
    case DoSettleError(p) => SettleError(w, p)
    case ImporterReceives => ImporterHandles(w.(ba := w.ba[1..]), w.ba[0])
    case ExporterReceives => ExporterHandles(w.(ab := w.ab[1..]), w.ab[0])
    case ImporterChats(m) => w.(ab := w.ab + [m])
    case ExporterChats(m) => w.(ba := w.ba + [m])
  }

  ghost predicate Next(w: World, w': World) {
    exists a :: Enabled(w, a) && w' == Act(w, a)
  }

  ghost predicate Run(run: seq<World>) {
    && run != []
    && run[0] == Begin()
    && forall i :: 0 <= i < |run| - 1 ==> Next(run[i], run[i + 1])
  }
}
