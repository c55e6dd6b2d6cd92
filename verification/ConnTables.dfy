/** The four tables of one connection and what operations and handlers do to them (src/rpc/conn.ts). */
module ConnTables {

  // Everything here is a function of values; the class `ConnObject.Conn` is the imperative form.  A
  // handler returns the new tables and the messages it sends.

  import opened Options
  import opened IdTables
  import opened RpcMessages

  /** `paramCaps`: the senderHosted ids its call carried. */
  datatype Question = Question(serial: nat, paramCaps: seq<nat>)

  /** `resultCaps`: the senderHosted ids its Return carried. */
  datatype Answer = Answer(serial: nat, done: bool, resultCaps: seq<nat>)

  datatype Export = Export(obj: nat, wireRefs: nat)

  /** `refs`: descriptors received; `live`: local references not closed yet. */
  datatype Import = Import(obj: nat, refs: nat, live: nat, isPromise: bool)

  /** `main` is the client bootstrap serves.  `serial` and `pins` are history: the next unused
      incarnation number, and the export ids the vat itself holds because of initMain. */
  datatype Conn = Conn(
    questions: IdTable<Question>,
    answers: map<nat, Answer>,
    exports: IdTable<Export>,
    imports: map<nat, Import>,
    main: Option<nat>,
    aborted: bool,
    serial: nat,
    pins: multiset<nat>)

  function NewConn(): Conn {
    Conn(Empty(), map[], Empty(), map[], None, false, 0, multiset{})
  }

  /** Following `normalize` from a client to the client it transparently delegates to. */
  type Norm = nat -> nat

  // ---------------------------------------------------------------------------------------------
  // Views

  function Wire(c: Conn, id: nat): nat {
    match c.exports.Find(id) case None => 0 case Some(e) => e.wireRefs
  }

  function ExportedObj(c: Conn, id: nat): Option<nat> {
    match c.exports.Find(id) case None => None case Some(e) => Some(e.obj)
  }

  function ImportRefs(c: Conn, id: nat): nat {
    if id in c.imports then c.imports[id].refs else 0
  }

  function Asked(c: Conn, q: nat): Option<nat> {
    match c.questions.Find(q) case None => None case Some(e) => Some(e.serial)
  }

  function Answering(c: Conn, q: nat): Option<nat> {
    if q in c.answers then Some(c.answers[q].serial) else None
  }

  // ---------------------------------------------------------------------------------------------
  // Exports

  /** The first slot at or after `i` whose client is the same client as `obj`, or the table length. */
  function SameClientFrom(slots: seq<Option<Export>>, obj: nat, norm: Norm, i: nat): (k: nat)
    requires i <= |slots|
    ensures i <= k <= |slots|
    ensures k < |slots| ==> slots[k].Some? && norm(slots[k].value.obj) == norm(obj)
    ensures forall j :: i <= j < k ==> slots[j].None? || norm(slots[j].value.obj) != norm(obj)
    decreases |slots| - i
  {
    if i == |slots| then i
    else if slots[i].Some? && norm(slots[i].value.obj) == norm(obj) then i
    else SameClientFrom(slots, obj, norm, i + 1)
  }

  function AddExportId(t: IdTable<Export>, obj: nat, norm: Norm): nat {
    var k := SameClientFrom(t.slots, obj, norm, 0);
    if k < |t.slots| then k else t.NextId()
  }

  /** One more wire reference to the slot that already holds the client, or a new slot with one. */
  function AddExport(t: IdTable<Export>, obj: nat, norm: Norm): IdTable<Export> {
    var k := SameClientFrom(t.slots, obj, norm, 0);
    if k < |t.slots|
    then t.Update(k, t.slots[k].value.(wireRefs := t.slots[k].value.wireRefs + 1))
    else t.Alloc(Export(obj, 1))
  }

  function ReleaseExport(t: IdTable<Export>, id: nat, refs: nat): IdTable<Export> {
    match t.Find(id)
    case None => t
    case Some(e) =>
      if refs == 0 then t
      else if e.wireRefs > refs then t.Update(id, e.(wireRefs := e.wireRefs - refs))
      else t.Drop(id)
  }

  function ReleaseAll(t: IdTable<Export>, ids: seq<nat>): IdTable<Export>
    decreases |ids|
  {
    if ids == [] then t else ReleaseAll(ReleaseExport(t, ids[0], 1), ids[1..])
  }

  // ---------------------------------------------------------------------------------------------
  // Imports

  function AddImport(imports: map<nat, Import>, id: nat, obj: nat, isPromise: bool): map<nat, Import> {
    if id in imports
    then
      var e := imports[id];
      imports[id := e.(refs := e.refs + 1, live := e.live + 1, isPromise := e.isPromise || isPromise)]
    else imports[id := Import(obj, 1, 1, isPromise)]
  }

  function ReleaseImport(c: Conn, id: nat, refs: nat): (Conn, seq<Message>) {
    if id !in c.imports || refs == 0 then (c, [])
    else
      var e := c.imports[id];
      if e.refs > refs then (c.(imports := c.imports[id := e.(refs := e.refs - refs)]), [])
      else (c.(imports := c.imports - {id}), if e.refs > 0 then [Release(id, e.refs)] else [])
  }

  /** Closing a local reference; the last one closes the import and releases every reference the
      peer handed over. */
  function DropRef(c: Conn, id: nat): (Conn, seq<Message>) {
    if id !in c.imports || c.imports[id].live == 0 then (c, [])
    else
      var e := c.imports[id];
      var c' := c.(imports := c.imports[id := e.(live := e.live - 1)]);
      if e.live > 1 then (c', []) else ReleaseImport(c', id, e.refs)
  }

  /** Take in the descriptors of a payload.  None: a descriptor named an export or an answer this
      vat does not have, which aborts the connection. */
  function Populate(c: Conn, descs: seq<Desc>): Option<Conn>
    decreases |descs|
  {
    if descs == [] then Some(c)
    else
      match descs[0]
      case NoCap => Populate(c, descs[1..])
      case SenderHosted(id, obj) =>
        Populate(c.(imports := AddImport(c.imports, id, obj, false)), descs[1..])
      case SenderPromise(id, obj) =>
        Populate(c.(imports := AddImport(c.imports, id, obj, true)), descs[1..])
      case ReceiverHosted(id, obj) =>
        if c.exports.Find(id).None? then None else Populate(c, descs[1..])
      case ReceiverAnswer(q, serial) =>
        if q !in c.answers then None else Populate(c, descs[1..])
  }

  // ---------------------------------------------------------------------------------------------
  // Sending capabilities

  /** A client about to be described in a payload. */
  datatype CapArg =
    | NullCap
    | Hosted(obj: nat)
    | NewPromise(obj: nat)
    | SamePromise(id: nat)
    | Imported(id: nat)
    | Pipelined(q: nat)

  /** What the sender may describe: a promise export still in its table, an import entry still
      live, a question still in progress. */
  predicate CanDescribe(c: Conn, arg: CapArg) {
    match arg
    case SamePromise(id) => c.exports.Find(id).Some?
    case Imported(id) => id in c.imports
    case Pipelined(q) => c.questions.Find(q).Some?
    case _ => true
  }

  function Describe(c: Conn, arg: CapArg, norm: Norm): (Conn, Desc) {
    if !CanDescribe(c, arg) then (c, NoCap) else
    match arg
    case NullCap => (c, NoCap)
    case Hosted(obj) =>
      var c' := c.(exports := AddExport(c.exports, obj, norm));
      var id := AddExportId(c.exports, obj, norm);
      (c', SenderHosted(id, ExportedObj(c', id).GetOr(obj)))
    case NewPromise(obj) =>
      var c' := c.(exports := AddExport(c.exports, obj, norm));
      var id := AddExportId(c.exports, obj, norm);
      (c', SenderPromise(id, ExportedObj(c', id).GetOr(obj)))
    case SamePromise(id) =>
      var e := c.exports.Find(id).value;
      (c.(exports := c.exports.Update(id, e.(wireRefs := e.wireRefs + 1))), SenderPromise(id, e.obj))
    case Imported(id) => (c, ReceiverHosted(id, c.imports[id].obj))
    case Pipelined(q) => (c, ReceiverAnswer(q, c.questions.Find(q).value.serial))
  }

  /** Fill in a payload's capability table, one client after another. */
  function DescribeAll(c: Conn, args: seq<CapArg>, norm: Norm): (Conn, seq<Desc>)
    decreases |args|
  {
    if args == [] then (c, [])
    else
      var (c1, desc) := Describe(c, args[0], norm);
      var (c2, descs) := DescribeAll(c1, args[1..], norm);
      (c2, [desc] + descs)
  }

  lemma DescribeIgnoresOther(c: Conn, questions: IdTable<Question>, serial: nat, arg: CapArg, norm: Norm)
    requires arg.Pipelined? ==> questions.Find(arg.q) == c.questions.Find(arg.q)
    ensures Describe(c.(questions := questions, serial := serial), arg, norm)
         == (Describe(c, arg, norm).0.(questions := questions, serial := serial), Describe(c, arg, norm).1)
    ensures Describe(c, arg, norm).0.questions == c.questions
  {
  }

  /** Descriptors do not depend on questions they do not mention. */
  lemma {:induction false} DescribeIgnoresOthers(c: Conn, questions: IdTable<Question>, serial: nat, args: seq<CapArg>, norm: Norm)
    requires forall arg :: arg in args && arg.Pipelined? ==> questions.Find(arg.q) == c.questions.Find(arg.q)
    ensures DescribeAll(c.(questions := questions, serial := serial), args, norm)
         == (DescribeAll(c, args, norm).0.(questions := questions, serial := serial), DescribeAll(c, args, norm).1)
    decreases |args|
  {
    if args != [] {
      var c1 := Describe(c, args[0], norm).0;
      DescribeIgnoresOther(c, questions, serial, args[0], norm);
      DescribeIgnoresOthers(c1, questions, serial, args[1..], norm);
    }
  }

  /** The senderHosted ids of a payload. */
  function HostedIds(descs: seq<Desc>): seq<nat> {
    if descs == [] then []
    else (if descs[0].SenderHosted? then [descs[0].id] else []) + HostedIds(descs[1..])
  }

  // ---------------------------------------------------------------------------------------------
  // What a vat does of its own accord

  datatype CallTo = ToImport(id: nat) | ToAnswer(q: nat)

  /** An import client sends only while its entry is live; a pipelined call only while its question
      is in the table. */
  predicate CanCall(c: Conn, to: CallTo) {
    match to
    case ToImport(id) => id in c.imports
    case ToAnswer(q) => c.questions.Find(q).Some?
  }

  function TargetOf(c: Conn, to: CallTo): Target
    requires CanCall(c, to)
  {
    match to
    case ToImport(id) => ImportedCap(id, c.imports[id].obj)
    case ToAnswer(q) => PromisedAnswer(q, c.questions.Find(q).value.serial)
  }

  function SendCall(c: Conn, to: CallTo, args: seq<CapArg>, body: Body, norm: Norm): (Conn, seq<Message>)
    requires CanCall(c, to)
  {
    var q := c.questions.NextId();
    var (c', descs) := DescribeAll(c, args, norm);
    (c'.(questions := c'.questions.Alloc(Question(c.serial, HostedIds(descs))), serial := c.serial + 1),
     [Call(q, c.serial, TargetOf(c, to), descs, body)])
  }

  /** The same in the order of the source: the question exists before its payload is written. */
  lemma SendCallInOrder(c: Conn, to: CallTo, args: seq<CapArg>, body: Body, norm: Norm)
    requires c.questions.Valid() && CanCall(c, to) && forall arg :: arg in args ==> CanDescribe(c, arg)
    ensures var c1 := c.(questions := c.questions.Alloc(Question(c.serial, [])), serial := c.serial + 1);
      var (c2, descs) := DescribeAll(c1, args, norm);
      && (forall arg :: arg in args ==> CanDescribe(c1, arg))
      && c2 == c1.(exports := c2.exports)
      && SendCall(c, to, args, body, norm) ==
           (c2.(questions := c.questions.Alloc(Question(c.serial, HostedIds(descs)))),
            [Call(c.questions.NextId(), c.serial, TargetOf(c, to), descs, body)])
  {
    AllocIsFresh(c.questions, Question(c.serial, []));
    var c1 := c.(questions := c.questions.Alloc(Question(c.serial, [])), serial := c.serial + 1);
    DescribeIgnoresOthers(c, c1.questions, c1.serial, args, norm);
    DescribeKeepsRest(c, args, norm);
  }

  lemma {:induction false} DescribeKeepsRest(c: Conn, args: seq<CapArg>, norm: Norm)
    ensures DescribeAll(c, args, norm).0 == c.(exports := DescribeAll(c, args, norm).0.exports)
    decreases |args|
  {
    if args != [] {
      DescribeKeepsRest(Describe(c, args[0], norm).0, args[1..], norm);
    }
  }

  function SendBootstrap(c: Conn): (Conn, seq<Message>) {
    (c.(questions := c.questions.Alloc(Question(c.serial, [])), serial := c.serial + 1),
     [Bootstrap(c.questions.NextId(), c.serial)])
  }

  datatype Settlement = Fulfill(args: seq<CapArg>) | Reject

  /** Fulfil or reject an answer.  A second settlement throws before it sends anything. */
  function Settle(c: Conn, q: nat, how: Settlement, norm: Norm): (Conn, seq<Message>)
    requires q in c.answers
  {
    var a := c.answers[q];
    if a.done then (c, [])
    else
      match how
      case Fulfill(args) =>
        var (c', descs) := DescribeAll(c, args, norm);
        (c'.(answers := c.answers[q := Answer(a.serial, true, HostedIds(descs))]),
         [Return(q, a.serial, false, Results(descs))])
      case Reject =>
        (c.(answers := c.answers[q := a.(done := true)]), [Return(q, a.serial, false, Exception)])
  }

  /** Announce what a promise export turned out to be. */
  function SendResolve(c: Conn, promiseId: nat, to: Option<CapArg>, norm: Norm): (Conn, seq<Message>) {
    match to
    case None => (c, [Resolve(promiseId, ToException)])
    case Some(arg) =>
      var (c', desc) := Describe(c, arg, norm);
      (c', [Resolve(promiseId, ToCap(desc))])
  }

  /** initMain: the main client is exported once without telling the peer. */
  function InitMain(c: Conn, obj: nat, norm: Norm): Conn {
    c.(exports := AddExport(c.exports, obj, norm),
       main := Some(obj),
       pins := c.pins + multiset{AddExportId(c.exports, obj, norm)})
  }

  // ---------------------------------------------------------------------------------------------
  // Message handlers

  function AbortConn(c: Conn): (Conn, seq<Message>) {
    (c.(aborted := true), [Abort])
  }

  function InsertAnswer(c: Conn, q: nat, serial: nat): Conn {
    c.(answers := c.answers[q := Answer(serial, false, [])])
  }

  function HandleBootstrap(c: Conn, q: nat, serial: nat, norm: Norm): (Conn, seq<Message>) {
    if q in c.answers then (c, [Return(q, serial, true, Exception)])
    else
      var c' := InsertAnswer(c, q, serial);
      if c.main.None? then Settle(c', q, Reject, norm)
      else Settle(c', q, Fulfill([Hosted(c.main.value)]), norm)
  }

  /** What the registry says about a call: its interface and method are known, or not. */
  datatype Lookup = Known | Unknown

  /** An accepted call leaves a pending answer; when the call cannot be routed the connection
      aborts.  A call whose method is unknown is refused before routing: its answer entry goes away
      and its Return keeps the default releaseParamCaps. */
  function HandleCall(c: Conn, m: Message, lookup: Lookup): (Conn, seq<Message>)
    requires m.Call?
  {
    match Populate(c, m.caps)
    case None => AbortConn(c)
    case Some(c1) =>
      if m.q in c.answers then AbortConn(c1)
      else if lookup.Unknown? then (c1, [Return(m.q, m.serial, true, Exception)])
      else
        var c2 := InsertAnswer(c1, m.q, m.serial);
        match m.target
        case ImportedCap(id, obj) =>
          if c.exports.Find(id).None? then AbortConn(c2) else (c2, [])
        case PromisedAnswer(q, serial) =>
          if q == m.q || q !in c.answers then AbortConn(c2) else (c2, [])
  }

  function HandleReturn(c: Conn, m: Message): (Conn, seq<Message>)
    requires m.Return?
  {
    match c.questions.Find(m.q)
    case None => AbortConn(c)
    case Some(question) =>
      var c1 := c.(questions := c.questions.Drop(m.q));
      var c2 := if m.releaseParamCaps
                then c1.(exports := ReleaseAll(c1.exports, question.paramCaps)) else c1;
      match m.outcome
      case Exception => (c2, [Finish(m.q, true)])
      case Results(caps) =>
        match Populate(c2, caps)
        case None => AbortConn(c2)
        case Some(c3) => (c3, [Finish(m.q, false)])
  }

  function Reverse(ids: seq<nat>): seq<nat> {
    if ids == [] then [] else Reverse(ids[1..]) + [ids[0]]
  }

  lemma {:induction false} ReverseFromLast(ids: seq<nat>)
    requires ids != []
    ensures Reverse(ids) == [ids[|ids| - 1]] + Reverse(ids[..|ids| - 1])
  {
    if |ids| > 1 {
      var last := |ids| - 1;
      ReverseFromLast(ids[1..]);
      assert ids[1..][..last - 1] == ids[..last][1..];
      assert ids[1..][last - 1] == ids[last] && ids[..last][0] == ids[0];
    }
  }

  function HandleFinish(c: Conn, q: nat, releaseResultCaps: bool): Conn {
    if q !in c.answers then c
    else
      c.(answers := c.answers - {q},
         exports := if releaseResultCaps then ReleaseAll(c.exports, Reverse(c.answers[q].resultCaps))
                    else c.exports)
  }

  /** A Resolve nobody waits for: give back what it brought. */
  function DiscardResolved(c: Conn, desc: Desc): (Conn, seq<Message>) {
    match desc
    case SenderHosted(id, obj) => (c, [Release(id, 1)])
    case SenderPromise(id, obj) => (c, [Release(id, 1)])
    case ReceiverHosted(id, obj) => if c.exports.Find(id).None? then AbortConn(c) else (c, [])
    case ReceiverAnswer(q, serial) => if q !in c.answers then AbortConn(c) else (c, [])
    case NoCap => AbortConn(c)
  }

  function HandleResolve(c: Conn, m: Message, embargoId: nat): (Conn, seq<Message>)
    requires m.Resolve?
  {
    var p := m.promiseId;
    if p !in c.imports || !c.imports[p].isPromise then
      if m.resolution.ToCap? then DiscardResolved(c, m.resolution.desc) else (c, [])
    else
      var e := c.imports[p];
      var c1 := c.(imports := c.imports[p := e.(isPromise := false)]);
      match m.resolution
      case ToException => (c1, [])
      case ToCap(NoCap) => AbortConn(c1)
      case ToCap(desc) =>
        match Populate(c1, [desc])
        case None => AbortConn(c1)
        case Some(c2) =>
          (c2, if desc.ReceiverHosted? || desc.ReceiverAnswer?
               then [Disembargo(SenderLoopback(embargoId), ImportedCap(p, e.obj))] else [])
  }

  function HandleDisembargo(m: Message): seq<Message>
    requires m.Disembargo?
  {
    match m.context
    case SenderLoopback(id) => [Disembargo(ReceiverLoopback(id), m.target)]
    case ReceiverLoopback(id) => []
  }

  /** Dispatch on the kind of message. */
  function Handle(c: Conn, m: Message, lookup: Lookup, embargoId: nat, norm: Norm): (Conn, seq<Message>) {
    match m
    case Bootstrap(q, serial) => HandleBootstrap(c, q, serial, norm)
    case Call(_, _, _, _, _) => HandleCall(c, m, lookup)
    case Return(_, _, _, _) => HandleReturn(c, m)
    case Finish(q, release) => (HandleFinish(c, q, release), [])
    case Resolve(_, _) => HandleResolve(c, m, embargoId)
    case Release(id, refs) => (c.(exports := ReleaseExport(c.exports, id, refs)), [])
    case Disembargo(_, _) => (c, HandleDisembargo(m))
    case Unimplemented => (c, [])
    case Abort => (c.(aborted := true), [])
  }
}
