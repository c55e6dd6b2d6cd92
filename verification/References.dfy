/**
 Distributed reference counting between an exporting vat and an importing vat, and what every
 operation of either keeps of it.
 */
module References {
  import opened Options
  import opened IdTables
  import opened RpcMessages
  import opened ConnTables

  /** `wireRefs` of every export id is what the exporter pins itself, plus the descriptors still on
      their way to the importer, plus what the importer holds, plus what its Release messages still
      on their way give back. */
  ghost predicate Conserved(x: Conn, y: Conn, xy: seq<Message>, yx: seq<Message>) {
    forall id: nat ::
      Wire(x, id) == x.pins[id] + GrantsInFlight(xy, id) + ImportRefs(y, id) + ReleasesInFlight(yx, id)
  }

  /** When a message arrives behind `ahead`, every export it names is still there: the releases
      ahead of it do not use up the count, and the slot holds the client the sender meant. */
  ghost predicate NamesLiveAt(x: Conn, ahead: seq<Message>, m: Message) {
    forall id: nat, obj: nat :: Names(m, id, obj) ==>
      ReleasesInFlight(ahead, id) < Wire(x, id) && ExportedObj(x, id) == Some(obj)
  }

  ghost predicate NamesLive(x: Conn, yx: seq<Message>) {
    forall i :: 0 <= i < |yx| ==> NamesLiveAt(x, yx[..i], yx[i])
  }

  /** Every import is of the client in the exporter's slot. */
  ghost predicate ImportsMatch(x: Conn, y: Conn) {
    forall id :: id in y.imports ==>
      && y.imports[id].refs >= 1 && y.imports[id].live >= 1
      && ExportedObj(x, id) == Some(y.imports[id].obj)
  }

  ghost predicate GrantsMatchAt(x: Conn, m: Message) {
    forall id: nat, obj: nat :: Grants(m, id, obj) ==> ExportedObj(x, id) == Some(obj)
  }

  /** Every descriptor on its way to the importer is of the client in the exporter's slot. */
  ghost predicate GrantsMatch(x: Conn, xy: seq<Message>) {
    forall i :: 0 <= i < |xy| ==> GrantsMatchAt(x, xy[i])
  }

  /** The slots in use are the ones with a positive count. */
  ghost predicate ExportsOk(t: IdTable<Export>) {
    && t.Valid()
    && (forall id: nat :: t.Find(id).Some? ==> t.Find(id).value.wireRefs >= 1)
  }

  ghost predicate ReleasesOk(yx: seq<Message>) {
    forall i :: 0 <= i < |yx| && yx[i].Release? ==> yx[i].referenceCount >= 1
  }

  /** The invariant between exporter `x` and importer `y`. */
  ghost predicate RefLink(x: Conn, y: Conn, xy: seq<Message>, yx: seq<Message>) {
    && ExportsOk(x.exports)
    && Conserved(x, y, xy, yx)
    && NamesLive(x, yx)
    && ReleasesOk(yx)
    && ImportsMatch(x, y)
    && GrantsMatch(x, xy)
  }

  // ---------------------------------------------------------------------------------------------
  // Operations on the export table

  /** Exporting a client adds one wire reference to one slot and disturbs no slot in use. */
  lemma AddExportCounts(t: IdTable<Export>, obj: nat, norm: Norm)
    requires t.Valid()
    ensures AddExport(t, obj, norm).Valid()
    ensures AddExport(t, obj, norm).Find(AddExportId(t, obj, norm)).Some?
    ensures forall id: nat :: t.Find(id).Some? ==>
      AddExport(t, obj, norm).Find(id) ==
        Some(t.Find(id).value.(wireRefs := t.Find(id).value.wireRefs + (if id == AddExportId(t, obj, norm) then 1 else 0)))
    ensures forall id: nat :: t.Find(id).None? ==>
      AddExport(t, obj, norm).Find(id) == if id == AddExportId(t, obj, norm) then Some(Export(obj, 1)) else None
  {
    hide SameClientFrom;
    var k := SameClientFrom(t.slots, obj, norm, 0);
    if k < |t.slots| {
      UpdateKeepsIds(t, k, t.slots[k].value.(wireRefs := t.slots[k].value.wireRefs + 1));
    } else {
      AllocIsFresh(t, Export(obj, 1));
    }
  }

  /** A slot before and after `n` more references were granted on its id. */
  ghost predicate Gained(before: Option<Export>, after: Option<Export>, n: nat) {
    match before
    case None => if n == 0 then after.None? else after.Some? && after.value.wireRefs == n
    case Some(e) => after == Some(e.(wireRefs := e.wireRefs + n))
  }

  /** The table after descriptors `descs` were written: each one added a wire reference to the slot
      it names, and the slots already in use keep their clients. */
  ghost predicate Exported(t: IdTable<Export>, t': IdTable<Export>, descs: seq<Desc>) {
    && t'.Valid()
    && forall id: nat :: Gained(t.Find(id), t'.Find(id), Granted(descs, id))
  }

  /** A descriptor says what it should: the client in the sender's slot, a live import, an open
      question. */
  ghost predicate Meant(c: Conn, c': Conn, desc: Desc) {
    match desc
    case SenderHosted(id, obj) => ExportedObj(c', id) == Some(obj)
    case SenderPromise(id, obj) => ExportedObj(c', id) == Some(obj)
    case ReceiverHosted(id, obj) => id in c.imports && c.imports[id].obj == obj
    case ReceiverAnswer(q, serial) => Asked(c, q) == Some(serial)
    case NoCap => true
  }

  ghost predicate AllMeant(c: Conn, c': Conn, descs: seq<Desc>) {
    forall desc :: desc in descs ==> Meant(c, c', desc)
  }

  /** Only the export table changes while descriptors are written. */
  ghost predicate OnlyExports(c: Conn, c': Conn) {
    c' == c.(exports := c'.exports)
  }

  lemma GrantedOne(desc: Desc, id: nat)
    ensures Granted([desc], id) == if (desc.SenderHosted? || desc.SenderPromise?) && desc.id == id then 1 else 0
  {
    assert [desc][1..] == [];
  }

  /** A client was exported, or exported again. */
  lemma AddedExport(c: Conn, c': Conn, obj: nat, norm: Norm, desc: Desc)
    requires c.exports.Valid() && c' == c.(exports := AddExport(c.exports, obj, norm))
    requires var id := AddExportId(c.exports, obj, norm);
      var meant := ExportedObj(c', id).GetOr(obj);
      desc == SenderHosted(id, meant) || desc == SenderPromise(id, meant)
    ensures Exported(c.exports, c'.exports, [desc]) && Meant(c, c', desc)
  {
    AddExportCounts(c.exports, obj, norm);
    hide AddExport, AddExportId, Granted;
    forall id: nat
      ensures Gained(c.exports.Find(id), c'.exports.Find(id), Granted([desc], id))
    {
      GrantedOne(desc, id);
    }
  }

  /** A promise is handed over once more. */
  lemma BumpedExport(c: Conn, c': Conn, id: nat)
    requires c.exports.Valid() && c.exports.Find(id).Some?
    requires var e := c.exports.Find(id).value;
      c' == c.(exports := c.exports.Update(id, e.(wireRefs := e.wireRefs + 1)))
    ensures var desc := SenderPromise(id, c.exports.Find(id).value.obj);
      Exported(c.exports, c'.exports, [desc]) && Meant(c, c', desc)
  {
    var e := c.exports.Find(id).value;
    var desc := SenderPromise(id, e.obj);
    UpdateKeepsIds(c.exports, id, e.(wireRefs := e.wireRefs + 1));
    hide Granted;
    forall k: nat
      ensures Gained(c.exports.Find(k), c'.exports.Find(k), Granted([desc], k))
    {
      GrantedOne(desc, k);
    }
  }

  /** A descriptor that hands over nothing of the sender's. */
  lemma NothingAdded(t: IdTable<Export>, desc: Desc)
    requires t.Valid() && !desc.SenderHosted? && !desc.SenderPromise?
    ensures Exported(t, t, [desc])
  {
    hide Granted;
    forall id: nat
      ensures Gained(t.Find(id), t.Find(id), Granted([desc], id))
    {
      GrantedOne(desc, id);
    }
  }

  lemma DescribeExports(c: Conn, arg: CapArg, norm: Norm)
    requires c.exports.Valid()
    ensures OnlyExports(c, Describe(c, arg, norm).0)
    ensures Exported(c.exports, Describe(c, arg, norm).0.exports, [Describe(c, arg, norm).1])
    ensures Meant(c, Describe(c, arg, norm).0, Describe(c, arg, norm).1)
  {
    hide Exported, AddExport, AddExportId;
    var (c', desc) := Describe(c, arg, norm);
    if !CanDescribe(c, arg) {
      NothingAdded(c.exports, NoCap);
    } else {
      match arg {
        case Hosted(obj) => AddedExport(c, c', obj, norm, desc);
        case NewPromise(obj) => AddedExport(c, c', obj, norm, desc);
        case SamePromise(id) => BumpedExport(c, c', id);
        case _ => NothingAdded(c.exports, desc);
      }
    }
  }

  /** Two stretches of descriptors, one written after the other. */
  lemma ExportedThen(t: IdTable<Export>, t1: IdTable<Export>, t2: IdTable<Export>, a: seq<Desc>, b: seq<Desc>)
    requires Exported(t, t1, a) && Exported(t1, t2, b)
    ensures Exported(t, t2, a + b)
  {
    hide Granted;
    forall id: nat
      ensures Gained(t.Find(id), t2.Find(id), Granted(a + b, id))
    {
      assert Gained(t.Find(id), t1.Find(id), Granted(a, id)) && Gained(t1.Find(id), t2.Find(id), Granted(b, id));
      GrantedAppend(a, b, id);
    }
  }

  /** What a descriptor means does not change while others are written. */
  lemma MeantStays(c: Conn, c1: Conn, c2: Conn, desc: Desc, descs: seq<Desc>)
    requires OnlyExports(c, c1) && OnlyExports(c1, c2) && Exported(c1.exports, c2.exports, descs)
    ensures Meant(c, c1, desc) ==> Meant(c, c2, desc)
    ensures Meant(c1, c2, desc) ==> Meant(c, c2, desc)
  {
    hide Granted;
    if desc.SenderHosted? || desc.SenderPromise? {
      assert Gained(c1.exports.Find(desc.id), c2.exports.Find(desc.id), Granted(descs, desc.id));
    }
  }

  lemma {:induction false} DescribeAllExports(c: Conn, args: seq<CapArg>, norm: Norm)
    requires c.exports.Valid()
    ensures OnlyExports(c, DescribeAll(c, args, norm).0)
    ensures Exported(c.exports, DescribeAll(c, args, norm).0.exports, DescribeAll(c, args, norm).1)
    ensures AllMeant(c, DescribeAll(c, args, norm).0, DescribeAll(c, args, norm).1)
    decreases |args|
  {
    if args != [] {
      hide Describe, Exported, Meant;
      var (c1, desc) := Describe(c, args[0], norm);
      var (c2, descs) := DescribeAll(c1, args[1..], norm);
      DescribeExports(c, args[0], norm);
      assert c1.exports.Valid() by { ExportedIsValid(c.exports, c1.exports, [desc]); }
      DescribeAllExports(c1, args[1..], norm);
      ExportedThen(c.exports, c1.exports, c2.exports, [desc], descs);
      forall d | d in [desc] + descs
        ensures Meant(c, c2, d)
      {
        MeantStays(c, c1, c2, d, descs);
        if d in descs {
          assert Meant(c1, c2, d);
        }
      }
    }
  }

  lemma ExportedIsValid(t: IdTable<Export>, t': IdTable<Export>, descs: seq<Desc>)
    requires Exported(t, t', descs)
    ensures t'.Valid()
  {
  }

  // ---------------------------------------------------------------------------------------------
  // What each kind of step does to the link.  `x` exports, `y` imports.

  lemma GainCounts(x: Conn, x': Conn, descs: seq<Desc>, id: nat)
    requires Exported(x.exports, x'.exports, descs)
    ensures Wire(x', id) == Wire(x, id) + Granted(descs, id)
    ensures ExportsOk(x.exports) && Wire(x, id) > 0 ==> ExportedObj(x', id) == ExportedObj(x, id)
  {
    assert Gained(x.exports.Find(id), x'.exports.Find(id), Granted(descs, id));
  }

  lemma GainKeepsExportsOk(x: Conn, x': Conn, descs: seq<Desc>)
    requires ExportsOk(x.exports) && Exported(x.exports, x'.exports, descs)
    ensures ExportsOk(x'.exports)
  {
    forall id: nat | x'.exports.Find(id).Some?
      ensures x'.exports.Find(id).value.wireRefs >= 1
    {
      assert Gained(x.exports.Find(id), x'.exports.Find(id), Granted(descs, id));
    }
  }

  lemma GainKeepsNames(x: Conn, x': Conn, yx: seq<Message>, descs: seq<Desc>)
    requires ExportsOk(x.exports) && NamesLive(x, yx) && Exported(x.exports, x'.exports, descs)
    ensures NamesLive(x', yx)
  {
    forall i | 0 <= i < |yx|
      ensures NamesLiveAt(x', yx[..i], yx[i])
    {
      assert NamesLiveAt(x, yx[..i], yx[i]);
      forall id: nat, obj: nat | Names(yx[i], id, obj)
        ensures ReleasesInFlight(yx[..i], id) < Wire(x', id) && ExportedObj(x', id) == Some(obj)
      {
        GainCounts(x, x', descs, id);
      }
    }
  }

  lemma GainKeepsGrants(x: Conn, x': Conn, m: Message, descs: seq<Desc>)
    requires ExportsOk(x.exports) && GrantsMatchAt(x, m) && Exported(x.exports, x'.exports, descs)
    ensures GrantsMatchAt(x', m)
  {
    forall id: nat, obj: nat | Grants(m, id, obj)
      ensures ExportedObj(x', id) == Some(obj)
    {
      GainCounts(x, x', descs, id);
    }
  }

  lemma GainKeepsImports(x: Conn, x': Conn, y: Conn, descs: seq<Desc>)
    requires ExportsOk(x.exports) && ImportsMatch(x, y) && Exported(x.exports, x'.exports, descs)
    ensures ImportsMatch(x', y)
  {
    forall id | id in y.imports
      ensures ExportedObj(x', id) == Some(y.imports[id].obj)
    {
      GainCounts(x, x', descs, id);
    }
  }

  lemma OneGrant(m: Message, id: nat)
    ensures GrantsInFlight([m], id) == Granted(Descs(m), id)
    ensures ReleasesInFlight([m], id) == Given(m, id)
  {
    assert [m][1..] == [];
  }

  /** The message `x` sends carries only descriptors it has just counted. */
  lemma ExporterSends(x: Conn, x': Conn, y: Conn, xy: seq<Message>, yx: seq<Message>, m: Message)
    requires RefLink(x, y, xy, yx)
    requires Exported(x.exports, x'.exports, Descs(m)) && AllMeant(x, x', Descs(m)) && x'.pins == x.pins
    ensures RefLink(x', y, xy + [m], yx)
  {
    GainKeepsExportsOk(x, x', Descs(m));
    GainKeepsNames(x, x', yx, Descs(m));
    GainKeepsImports(x, x', y, Descs(m));
    assert Conserved(x', y, xy + [m], yx) by {
      forall id: nat
        ensures Wire(x', id) == x'.pins[id] + GrantsInFlight(xy + [m], id) + ImportRefs(y, id) + ReleasesInFlight(yx, id)
      {
        GainCounts(x, x', Descs(m), id);
        GrantsAppend(xy, [m], id);
        OneGrant(m, id);
      }
    }
    assert GrantsMatch(x', xy + [m]) by {
      forall i | 0 <= i < |xy + [m]|
        ensures GrantsMatchAt(x', (xy + [m])[i])
      {
        if i < |xy| {
          GainKeepsGrants(x, x', xy[i], Descs(m));
        } else {
          assert forall id: nat, obj: nat :: Grants(m, id, obj) ==>
            Meant(x, x', SenderHosted(id, obj)) || Meant(x, x', SenderPromise(id, obj));
        }
      }
    }
  }

  /** A message without descriptors changes nothing for the references `x` handed out. */
  lemma ExporterSendsPlain(x: Conn, x': Conn, y: Conn, xy: seq<Message>, yx: seq<Message>, m: Message)
    requires RefLink(x, y, xy, yx)
    requires x'.exports == x.exports && x'.pins == x.pins && Descs(m) == []
    ensures RefLink(x', y, xy + [m], yx)
  {
    assert Exported(x.exports, x'.exports, Descs(m));
    ExporterSends(x, x', y, xy, yx, m);
  }

  /** initMain pins one more reference. */
  lemma ExporterPins(x: Conn, x': Conn, y: Conn, xy: seq<Message>, yx: seq<Message>, obj: nat, norm: Norm)
    requires RefLink(x, y, xy, yx)
    requires x'.exports == AddExport(x.exports, obj, norm)
    requires x'.pins == x.pins + multiset{AddExportId(x.exports, obj, norm)}
    ensures RefLink(x', y, xy, yx)
  {
    var id := AddExportId(x.exports, obj, norm);
    var descs := [SenderHosted(id, obj)];
    AddExportCounts(x.exports, obj, norm);
    forall k: nat
      ensures Gained(x.exports.Find(k), x'.exports.Find(k), Granted(descs, k))
      ensures Granted(descs, k) == if k == id then 1 else 0
    {
      GrantedOne(descs[0], k);
    }
    GainKeepsExportsOk(x, x', descs);
    GainKeepsNames(x, x', yx, descs);
    GainKeepsImports(x, x', y, descs);
    forall k: nat
      ensures Wire(x', k) == x'.pins[k] + GrantsInFlight(xy, k) + ImportRefs(y, k) + ReleasesInFlight(yx, k)
    {
      GainCounts(x, x', descs, k);
    }
    forall i | 0 <= i < |xy|
      ensures GrantsMatchAt(x', xy[i])
    {
      GainKeepsGrants(x, x', xy[i], descs);
    }
  }

  lemma PrefixReleases(ch: seq<Message>, i: nat, id: nat)
    requires i < |ch|
    ensures ReleasesInFlight(ch[..i + 1], id) == Given(ch[0], id) + ReleasesInFlight(ch[1..][..i], id)
  {
    assert ch[..i + 1][1..] == ch[1..][..i];
  }

  /** Taking the head off the channel: what it gave back has left the count. */
  lemma NamesAfterHead(x: Conn, x': Conn, yx: seq<Message>)
    requires NamesLive(x, yx) && yx != []
    requires forall id: nat :: Wire(x', id) + Given(yx[0], id) == Wire(x, id)
    requires forall id: nat :: Wire(x', id) > 0 ==> ExportedObj(x', id) == ExportedObj(x, id)
    ensures NamesLive(x', yx[1..])
  {
    var rest := yx[1..];
    forall i | 0 <= i < |rest|
      ensures NamesLiveAt(x', rest[..i], rest[i])
    {
      assert NamesLiveAt(x, yx[..i + 1], yx[i + 1]);
      forall id: nat, obj: nat | Names(rest[i], id, obj)
        ensures ReleasesInFlight(rest[..i], id) < Wire(x', id) && ExportedObj(x', id) == Some(obj)
      {
        PrefixReleases(yx, i, id);
      }
    }
  }

  /** `x` takes a message that is no Release off the channel. */
  lemma ExporterReceives(x: Conn, x': Conn, y: Conn, xy: seq<Message>, yx: seq<Message>)
    requires RefLink(x, y, xy, yx) && yx != [] && !yx[0].Release?
    requires x'.exports == x.exports && x'.pins == x.pins
    ensures RefLink(x', y, xy, yx[1..])
  {
    NamesAfterHead(x, x', yx);
    assert forall i :: 0 <= i < |xy| ==> GrantsMatchAt(x, xy[i]) && GrantsMatchAt(x', xy[i]);
  }

  lemma ReleaseCounts(x: Conn, id: nat, refs: nat)
    requires ExportsOk(x.exports) && 1 <= refs <= Wire(x, id)
    ensures var x' := x.(exports := ReleaseExport(x.exports, id, refs));
      && ExportsOk(x'.exports)
      && (forall k: nat :: Wire(x', k) == Wire(x, k) - (if k == id then refs else 0))
      && (forall k: nat :: Wire(x', k) > 0 ==> ExportedObj(x', k) == ExportedObj(x, k))
  {
    var e := x.exports.Find(id).value;
    if e.wireRefs > refs {
      UpdateKeepsIds(x.exports, id, e.(wireRefs := e.wireRefs - refs));
    } else {
      DropRecycles(x.exports, id);
    }
  }

  /** A slot somebody still counts on has a positive count. */
  lemma GrantsHold(x: Conn, y: Conn, xy: seq<Message>, yx: seq<Message>, i: nat, id: nat, obj: nat)
    requires Conserved(x, y, xy, yx) && i < |xy| && Grants(xy[i], id, obj)
    ensures Wire(x, id) > 0
  {
    GrantsPositive(xy, i, id);
    GrantedPositive(Descs(xy[i]), id, obj);
  }

  /** `x` takes a Release off the channel: it frees the slot only if nobody relies on it. */
  lemma ExporterReleased(x: Conn, y: Conn, xy: seq<Message>, yx: seq<Message>)
    requires RefLink(x, y, xy, yx) && yx != [] && yx[0].Release?
    ensures RefLink(x.(exports := ReleaseExport(x.exports, yx[0].id, yx[0].referenceCount)), y, xy, yx[1..])
  {
    var rel, n := yx[0].id, yx[0].referenceCount;
    assert ReleasesInFlight(yx, rel) >= n;
    assert Wire(x, rel) >= n;
    var x' := x.(exports := ReleaseExport(x.exports, rel, n));
    ReleaseCounts(x, rel, n);
    assert Conserved(x', y, xy, yx[1..]);
    NamesAfterHead(x, x', yx);
    forall i | 0 <= i < |xy|
      ensures GrantsMatchAt(x', xy[i])
    {
      assert GrantsMatchAt(x, xy[i]);
      forall id: nat, obj: nat | Grants(xy[i], id, obj)
        ensures ExportedObj(x', id) == Some(obj)
      {
        GrantsHold(x', y, xy, yx[1..], i, id, obj);
      }
    }
  }

  /** Every export a message of `y` names is one of its live imports. */
  ghost predicate NamesOwnImports(y: Conn, m: Message) {
    forall id: nat, obj: nat :: Names(m, id, obj) ==> id in y.imports && y.imports[id].obj == obj
  }

  lemma NamesBehind(x: Conn, yx: seq<Message>, m: Message)
    requires NamesLive(x, yx) && NamesLiveAt(x, yx, m)
    ensures NamesLive(x, yx + [m])
  {
    var yx' := yx + [m];
    forall i | 0 <= i < |yx'|
      ensures NamesLiveAt(x, yx'[..i], yx'[i])
    {
      assert yx'[..i] == if i < |yx| then yx[..i] else yx;
    }
  }

  lemma ImporterSends(x: Conn, y: Conn, y': Conn, xy: seq<Message>, yx: seq<Message>, m: Message)
    requires RefLink(x, y, xy, yx)
    requires y'.imports == y.imports && NamesOwnImports(y, m) && !m.Release?
    ensures RefLink(x, y', xy, yx + [m])
  {
    assert NamesLiveAt(x, yx, m);
    NamesBehind(x, yx, m);
    forall id: nat
      ensures ReleasesInFlight(yx + [m], id) == ReleasesInFlight(yx, id)
      ensures ImportRefs(y', id) == ImportRefs(y, id)
    {
      ReleasesAppend(yx, [m], id);
      OneGrant(m, id);
    }
  }

  lemma ReleaseNamesNothing(x: Conn, yx: seq<Message>, id: nat, refs: nat)
    requires NamesLive(x, yx)
    ensures NamesLive(x, yx + [Release(id, refs)])
  {
    var m := Release(id, refs);
    assert forall k: nat, obj: nat :: !Names(m, k, obj);
    NamesBehind(x, yx, m);
  }

  /** `y` closes a local reference. */
  lemma ImporterDrops(x: Conn, y: Conn, xy: seq<Message>, yx: seq<Message>, id: nat)
    requires RefLink(x, y, xy, yx) && id in y.imports
    ensures RefLink(x, DropRef(y, id).0, xy, yx + DropRef(y, id).1)
  {
    var (y', out) := DropRef(y, id);
    if out == [] {
      assert yx + out == yx;
      assert forall k: nat :: ImportRefs(y', k) == ImportRefs(y, k);
    } else {
      var refs := y.imports[id].refs;
      ReleaseNamesNothing(x, yx, id, refs);
      forall k: nat
        ensures ReleasesInFlight(yx + out, k) + ImportRefs(y', k) == ReleasesInFlight(yx, k) + ImportRefs(y, k)
      {
        ReleasesAppend(yx, out, k);
        OneGrant(out[0], k);
      }
    }
  }

  // ---------------------------------------------------------------------------------------------
  // Receiving descriptors

  /** The imports after descriptors `descs` were taken in. */
  ghost predicate TookIn(y: Conn, y': Conn, descs: seq<Desc>) {
    && (forall id: nat :: ImportRefs(y', id) == ImportRefs(y, id) + Granted(descs, id))
    && (forall id :: id in y'.imports ==>
          && y'.imports[id].refs >= 1 && y'.imports[id].live >= 1
          && (id in y.imports ==> y'.imports[id].obj == y.imports[id].obj)
          && (id !in y.imports ==>
                SenderHosted(id, y'.imports[id].obj) in descs || SenderPromise(id, y'.imports[id].obj) in descs))
  }

  ghost predicate ImportsOk(y: Conn) {
    forall id :: id in y.imports ==> y.imports[id].refs >= 1 && y.imports[id].live >= 1
  }

  /** Every descriptor that names something of the receiver's names something it has. */
  ghost predicate Resolvable(y: Conn, descs: seq<Desc>) {
    forall k :: 0 <= k < |descs| ==>
      && (descs[k].ReceiverHosted? ==> y.exports.Find(descs[k].id).Some?)
      && (descs[k].ReceiverAnswer? ==> descs[k].q in y.answers)
  }

  function TakeOne(y: Conn, d: Desc): Conn {
    match d
    case SenderHosted(id, obj) => y.(imports := AddImport(y.imports, id, obj, false))
    case SenderPromise(id, obj) => y.(imports := AddImport(y.imports, id, obj, true))
    case _ => y
  }

  lemma TakeOneTakesIn(y: Conn, d: Desc)
    requires ImportsOk(y)
    ensures TookIn(y, TakeOne(y, d), [d])
  {
    forall id: nat
      ensures ImportRefs(TakeOne(y, d), id) == ImportRefs(y, id) + Granted([d], id)
    {
      GrantedOne(d, id);
    }
  }

  lemma TookInChain(y: Conn, y1: Conn, y2: Conn, d: Desc, descs: seq<Desc>)
    requires ImportsOk(y) && TookIn(y, y1, [d]) && TookIn(y1, y2, descs)
    ensures TookIn(y, y2, [d] + descs)
  {
    forall id: nat
      ensures ImportRefs(y2, id) == ImportRefs(y, id) + Granted([d] + descs, id)
    {
      GrantedAppend([d], descs, id);
    }
    forall id | id in y2.imports && id in y.imports
      ensures y2.imports[id].obj == y.imports[id].obj
    {
      assert ImportRefs(y1, id) >= 1;
    }
    forall id | id in y2.imports && id !in y.imports
      ensures SenderHosted(id, y2.imports[id].obj) in [d] + descs || SenderPromise(id, y2.imports[id].obj) in [d] + descs
    {
      if id in y1.imports {
        assert SenderHosted(id, y2.imports[id].obj) in [d] || SenderPromise(id, y2.imports[id].obj) in [d];
      }
    }
  }

  lemma PopulateStep(y: Conn, descs: seq<Desc>)
    requires descs != [] && Resolvable(y, descs)
    ensures var y1 := TakeOne(y, descs[0]);
      && Populate(y, descs) == Populate(y1, descs[1..]) && Resolvable(y1, descs[1..])
      && y1 == y.(imports := y1.imports)
  {
    assert descs[0] == descs[0 + 0];
  }

  lemma {:induction false} PopulateTakesIn(y: Conn, descs: seq<Desc>)
    requires ImportsOk(y)
    requires Resolvable(y, descs)
    ensures Populate(y, descs).Some?
    ensures Populate(y, descs).value == y.(imports := Populate(y, descs).value.imports)
    ensures TookIn(y, Populate(y, descs).value, descs)
    decreases |descs|
  {
    if descs != [] {
      var d := descs[0];
      var y1 := TakeOne(y, d);
      TakeOneTakesIn(y, d);
      PopulateStep(y, descs);
      hide Populate, TakeOne, Resolvable, AddImport;
      PopulateTakesIn(y1, descs[1..]);
      TookInChain(y, y1, Populate(y1, descs[1..]).value, d, descs[1..]);
      assert [d] + descs[1..] == descs;
    }
  }

  /** `y` takes a message off the channel and takes in exactly the descriptors it carries. */
  lemma ImporterReceives(x: Conn, y: Conn, y': Conn, xy: seq<Message>, yx: seq<Message>)
    requires RefLink(x, y, xy, yx) && xy != []
    requires TookIn(y, y', Descs(xy[0]))
    ensures RefLink(x, y', xy[1..], yx)
  {
    assert GrantsMatchAt(x, xy[0]);
    forall id | id in y'.imports
      ensures ExportedObj(x, id) == Some(y'.imports[id].obj)
    {
      if id !in y.imports {
        assert Grants(xy[0], id, y'.imports[id].obj);
      }
    }
  }

  /** `y` gives back the one reference of a Resolve nobody waits for. */
  lemma ImporterDiscards(x: Conn, y: Conn, xy: seq<Message>, yx: seq<Message>)
    requires RefLink(x, y, xy, yx) && xy != [] && xy[0].Resolve? && xy[0].resolution.ToCap?
    requires xy[0].resolution.desc.SenderHosted? || xy[0].resolution.desc.SenderPromise?
    ensures RefLink(x, y, xy[1..], yx + [Release(xy[0].resolution.desc.id, 1)])
  {
    var desc := xy[0].resolution.desc;
    var m := Release(desc.id, 1);
    ReleaseNamesNothing(x, yx, desc.id, 1);
    forall id: nat
      ensures GrantsInFlight(xy, id) + ReleasesInFlight(yx, id)
           == GrantsInFlight(xy[1..], id) + ReleasesInFlight(yx + [m], id)
    {
      ReleasesAppend(yx, [m], id);
      OneGrant(m, id);
      GrantedOne(desc, id);
    }
  }
}
