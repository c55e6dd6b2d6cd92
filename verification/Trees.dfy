/**
 What a pointer in a message means: the target behind far pointers, the object it describes, and the
 tree that object is the root of (src/serialization/pointers/pointer.utils.ts).
 */
module Trees {
  import opened Options
  import opened Memory

  // ---------------------------------------------------------------------------------------------
  // Targets and objects

  /** The word that describes the object, where its content starts, and the landing pads on the way. */
  datatype Target = Target(word: Word, seg: nat, off: int, pads: seq<Loc>)

  /** Follow far pointers.  None: a landing pad is missing, or is itself a far pointer. */
  function TargetOf(mem: Mem, p: Loc): Option<Target>
    requires Has(mem, p)
  {
    var w := At(mem, p);
    if TypeOf(w) != FAR then Some(Target(w, p.seg, p.off + 1 + OffsetOf(w), []))
    else
      var pad := Loc(w.hi, w.lo / 8);
      if !Has(mem, pad) then None
      else if IsDouble(w) then
        var tag := Loc(pad.seg, pad.off + 1);
        if !Has(mem, tag) || TypeOf(At(mem, tag)) == FAR then None
        else Some(Target(At(mem, tag), At(mem, pad).hi, OffsetOf(At(mem, pad)), [pad, tag]))
      else if TypeOf(At(mem, pad)) == FAR then None
      else Some(Target(At(mem, pad), pad.seg, pad.off + 1 + OffsetOf(At(mem, pad)), [pad]))
  }

  /** The kinds of objects with their sizes: element size codes are those of the encoding. */
  datatype Kind =
    | KStruct(dataWords: nat, pointers: nat)
    | KList(size: nat, length: nat)
    | KPointers(length: nat)
    | KComposite(length: nat, dataWords: nat, pointers: nat)
    | KCap(id: nat)

  /** An object: its data words, its pointer words, and the words that lead to it (the pointer, landing
      pads, a composite list's tag). */
  datatype Object = Object(kind: Kind, data: seq<Loc>, kids: seq<Loc>, frame: seq<Loc>)

  function Range(seg: nat, off: nat, n: nat): (r: seq<Loc>)
    ensures |r| == n
    ensures forall i :: 0 <= i < n ==> r[i] == Loc(seg, off + i)
  {
    seq(n, i requires 0 <= i < n => Loc(seg, off + i))
  }

  /** The data words, and the pointers, of the structs of a composite list. */
  function CompositeData(seg: nat, off: nat, length: nat, dw: nat, pc: nat): seq<Loc>
    decreases length
  {
    if length == 0 then [] else Range(seg, off, dw) + CompositeData(seg, off + dw + pc, length - 1, dw, pc)
  }

  function CompositeKids(seg: nat, off: nat, length: nat, dw: nat, pc: nat): seq<Loc>
    decreases length
  {
    if length == 0 then [] else Range(seg, off + dw, pc) + CompositeKids(seg, off + dw + pc, length - 1, dw, pc)
  }

  const VOID: nat := 0
  const BIT: nat := 1
  const POINTERS: nat := 6
  const COMPOSITE: nat := 7

  function ElementBytes(size: nat): nat {
    match size
    case 2 => 1
    case 3 => 2
    case 4 => 4
    case 5 => 8
    case _ => 0
  }

  /** The words a list of plain elements takes. */
  function ListWords(size: nat, length: nat): nat {
    if size == BIT then ((length + 7) / 8 + 7) / 8 else (ElementBytes(size) * length + 7) / 8
  }

  /** A content pointer may be anywhere up to the end of the allocated words. */
  predicate InBounds(mem: Mem, seg: nat, off: int) {
    seg < |mem.segs| && 0 <= off <= mem.segs[seg].used
  }

  const NULL_OBJECT: Kind := KStruct(0, 0)

  /** The object behind a pointer; a null pointer is an empty struct.  A capability's id is read from the
      pointer itself.  None: something is malformed. */
  function ObjectAt(mem: Mem, p: Loc): Option<Object>
    requires Has(mem, p)
  {
    var w := At(mem, p);
    if w == ZERO then Some(Object(NULL_OBJECT, [], [], [p]))
    else
      match TargetOf(mem, p)
      case None => None
      case Some(t) =>
        if TypeOf(t.word) == OTHER then Some(Object(KCap(w.hi), [], [], [p] + t.pads))
        else if !InBounds(mem, t.seg, t.off) then None
        else if TypeOf(t.word) == STRUCT then
          var dw, pc := DataWords(t.word), PointerCount(t.word);
          Some(Object(KStruct(dw, pc), Range(t.seg, t.off, dw), Range(t.seg, t.off + dw, pc), [p] + t.pads))
        else ListAt(mem, t, [p] + t.pads)
  }

  function ListAt(mem: Mem, t: Target, frame: seq<Loc>): Option<Object>
    requires t.off >= 0
  {
    var size, length := ElementSize(t.word), ListLength(t.word);
    if size == COMPOSITE then
      var tag := Loc(t.seg, t.off);
      if !Has(mem, tag) || OffsetOf(At(mem, tag)) < 0 then None
      else
        var n, dw, pc := OffsetOf(At(mem, tag)), DataWords(At(mem, tag)), PointerCount(At(mem, tag));
        Some(Object(KComposite(n, dw, pc), CompositeData(t.seg, t.off + 1, n, dw, pc),
                    CompositeKids(t.seg, t.off + 1, n, dw, pc), frame + [tag]))
    else if size == POINTERS then
      Some(Object(KPointers(length), [], Range(t.seg, t.off, length), frame))
    else
      Some(Object(KList(size, length), Range(t.seg, t.off, ListWords(size, length)), [], frame))
  }

  // ---------------------------------------------------------------------------------------------
  // Trees

  /** In a tree a capability is the client itself; a capability without a client is null.  A capability
      pointer has zeros between its type and its id, without which it has no id (getCapID). */
  datatype Tree = Node(kind: Kind, data: seq<Word>, kids: seq<Tree>)

  const NULL: Tree := Node(NULL_OBJECT, [], [])

  type Caps = seq<Option<nat>>

  function CapTree(client: Option<nat>): Tree {
    if client.None? then NULL else Node(KCap(client.value), [], [])
  }

  predicate HasAll(mem: Mem, ls: seq<Loc>) {
    forall l :: l in ls ==> Has(mem, l)
  }

  function Values(mem: Mem, ls: seq<Loc>): (ws: seq<Word>)
    requires HasAll(mem, ls)
    ensures |ws| == |ls|
  {
    seq(|ls|, i requires 0 <= i < |ls| => assert ls[i] in ls; At(mem, ls[i]))
  }

  /** The tree under a pointer, at most `n` levels deep.  None: malformed, or deeper. */
  function Read(mem: Mem, caps: Caps, p: Loc, n: nat): Option<Tree>
    decreases n, 0
  {
    if n == 0 || !Has(mem, p) then None
    else
      match ObjectAt(mem, p)
      case None => None
      case Some(o) =>
        if o.kind.KCap? then
          if At(mem, p).lo == OTHER && o.kind.id < |caps| then Some(CapTree(caps[o.kind.id])) else None
        else if !HasAll(mem, o.data) then None
        else
          match ReadAll(mem, caps, o.kids, n - 1)
          case None => None
          case Some(ts) => Some(Node(o.kind, Values(mem, o.data), ts))
  }

  function ReadAll(mem: Mem, caps: Caps, ps: seq<Loc>, n: nat): (r: Option<seq<Tree>>)
    ensures r.Some? ==> |r.value| == |ps|
    decreases n, |ps|
  {
    if ps == [] then Some([])
    else
      match Read(mem, caps, ps[0], n)
      case None => None
      case Some(t) =>
        match ReadAll(mem, caps, ps[1..], n)
        case None => None
        case Some(ts) => Some([t] + ts)
  }

  /** The words reading the tree looks at. */
  predicate Touches(mem: Mem, p: Loc, n: nat, l: Loc)
    decreases n, 0
  {
    n > 0 && Has(mem, p) &&
    match ObjectAt(mem, p)
    case None => false
    case Some(o) => l in o.frame || l in o.data || TouchesAny(mem, o.kids, n - 1, l)
  }

  predicate TouchesAny(mem: Mem, ps: seq<Loc>, n: nat, l: Loc)
    decreases n, |ps|
  {
    ps != [] && (Touches(mem, ps[0], n, l) || TouchesAny(mem, ps[1..], n, l))
  }

  // ---------------------------------------------------------------------------------------------
  // What a tree does not look at does not matter

  /** The memory has grown and the word is as it was. */
  predicate SameAt(mem: Mem, mem': Mem, l: Loc) {
    Has(mem, l) && Has(mem', l) && At(mem', l) == At(mem, l)
  }

  predicate Grown(mem: Mem, mem': Mem) {
    && |mem.segs| <= |mem'.segs|
    && forall i :: 0 <= i < |mem.segs| ==> mem.segs[i].used <= mem'.segs[i].used
  }

  lemma TargetSame(mem: Mem, mem': Mem, p: Loc)
    requires SameAt(mem, mem', p) && TargetOf(mem, p).Some?
    requires forall l :: l in TargetOf(mem, p).value.pads ==> SameAt(mem, mem', l)
    ensures TargetOf(mem', p) == TargetOf(mem, p)
  {
    var w := At(mem, p);
    if TypeOf(w) == FAR {
      var pad := Loc(w.hi, w.lo / 8);
      assert pad in TargetOf(mem, p).value.pads;
      if IsDouble(w) {
        assert Loc(pad.seg, pad.off + 1) in TargetOf(mem, p).value.pads;
      }
    }
  }

  lemma ObjectSame(mem: Mem, mem': Mem, p: Loc)
    requires SameAt(mem, mem', p) && Grown(mem, mem') && ObjectAt(mem, p).Some?
    requires forall l :: l in ObjectAt(mem, p).value.frame ==> SameAt(mem, mem', l)
    ensures ObjectAt(mem', p) == ObjectAt(mem, p)
  {
    var w := At(mem, p);
    if w != ZERO {
      var t := TargetOf(mem, p).value;
      assert forall l :: l in t.pads ==> l in ObjectAt(mem, p).value.frame by {
        PadsInFrame(mem, p);
      }
      TargetSame(mem, mem', p);
      if TypeOf(t.word) == LIST && ElementSize(t.word) == COMPOSITE {
        assert Loc(t.seg, t.off) in ObjectAt(mem, p).value.frame;
      }
    }
  }

  lemma PadsInFrame(mem: Mem, p: Loc)
    requires Has(mem, p) && At(mem, p) != ZERO && ObjectAt(mem, p).Some?
    ensures TargetOf(mem, p).Some?
    ensures forall l :: l in TargetOf(mem, p).value.pads ==> l in ObjectAt(mem, p).value.frame
  {
  }

  lemma FrameHasPointer(mem: Mem, p: Loc)
    requires Has(mem, p) && ObjectAt(mem, p).Some?
    ensures p in ObjectAt(mem, p).value.frame
  {
  }

  lemma ValuesSame(mem: Mem, mem': Mem, ls: seq<Loc>)
    requires HasAll(mem, ls) && forall l :: l in ls ==> SameAt(mem, mem', l)
    ensures HasAll(mem', ls) && Values(mem', ls) == Values(mem, ls)
  {
    assert forall i :: 0 <= i < |ls| ==> ls[i] in ls;
  }

  /** A tree reads the same in any memory and with any capabilities that keep what it looks at. */
  lemma {:induction false} ReadSame(mem: Mem, mem': Mem, caps: Caps, caps': Caps, p: Loc, n: nat)
    requires Read(mem, caps, p, n).Some? && Grown(mem, mem') && caps <= caps'
    requires forall l :: Touches(mem, p, n, l) ==> SameAt(mem, mem', l)
    ensures Read(mem', caps', p, n) == Read(mem, caps, p, n)
    ensures forall l :: Touches(mem', p, n, l) == Touches(mem, p, n, l)
    decreases n, 0
  {
    hide ObjectAt;
    var o := ObjectAt(mem, p).value;
    FrameHasPointer(mem, p);
    assert forall l :: l in o.frame ==> Touches(mem, p, n, l);
    ObjectSame(mem, mem', p);
    if !o.kind.KCap? {
      assert forall l :: l in o.data ==> Touches(mem, p, n, l);
      ValuesSame(mem, mem', o.data);
      ReadAllSame(mem, mem', caps, caps', o.kids, n - 1);
    } else {
      CapHasNothing(mem, p);
    }
  }

  lemma CapHasNothing(mem: Mem, p: Loc)
    requires Has(mem, p) && ObjectAt(mem, p).Some? && ObjectAt(mem, p).value.kind.KCap?
    ensures ObjectAt(mem, p).value.kids == [] && ObjectAt(mem, p).value.data == []
  {
  }

  lemma {:induction false} ReadAllSame(mem: Mem, mem': Mem, caps: Caps, caps': Caps, ps: seq<Loc>, n: nat)
    requires ReadAll(mem, caps, ps, n).Some? && Grown(mem, mem') && caps <= caps'
    requires forall l :: TouchesAny(mem, ps, n, l) ==> SameAt(mem, mem', l)
    ensures ReadAll(mem', caps', ps, n) == ReadAll(mem, caps, ps, n)
    ensures forall l :: TouchesAny(mem', ps, n, l) == TouchesAny(mem, ps, n, l)
    decreases n, |ps|
  {
    hide Read, Touches;
    if ps != [] {
      assert forall l :: Touches(mem, ps[0], n, l) ==> TouchesAny(mem, ps, n, l);
      assert forall l :: TouchesAny(mem, ps[1..], n, l) ==> TouchesAny(mem, ps, n, l);
      ReadSame(mem, mem', caps, caps', ps[0], n);
      ReadAllSame(mem, mem', caps, caps', ps[1..], n);
    }
  }

  /** A readable tree lies in allocated memory, and its pointer is part of it. */
  lemma {:induction false} TouchesAllocated(mem: Mem, caps: Caps, p: Loc, n: nat, l: Loc)
    requires Read(mem, caps, p, n).Some? && Touches(mem, p, n, l)
    ensures Has(mem, l)
    decreases n, 0
  {
    var o := ObjectAt(mem, p).value;
    FrameAllocated(mem, p);
    if o.kind.KCap? {
      CapHasNothing(mem, p);
    } else if l !in o.frame && l !in o.data {
      TouchesAnyAllocated(mem, caps, o.kids, n - 1, l);
    }
  }

  lemma {:induction false} TouchesAnyAllocated(mem: Mem, caps: Caps, ps: seq<Loc>, n: nat, l: Loc)
    requires ReadAll(mem, caps, ps, n).Some? && TouchesAny(mem, ps, n, l)
    ensures Has(mem, l)
    decreases n, |ps|
  {
    if Touches(mem, ps[0], n, l) {
      TouchesAllocated(mem, caps, ps[0], n, l);
    } else {
      TouchesAnyAllocated(mem, caps, ps[1..], n, l);
    }
  }

  lemma FrameAllocated(mem: Mem, p: Loc)
    requires Has(mem, p) && ObjectAt(mem, p).Some?
    ensures HasAll(mem, ObjectAt(mem, p).value.frame)
  {
  }

  lemma TouchesOwn(mem: Mem, caps: Caps, p: Loc, n: nat)
    requires Read(mem, caps, p, n).Some?
    ensures Touches(mem, p, n, p)
  {
    FrameHasPointer(mem, p);
  }

  lemma {:induction false} TouchesKid(mem: Mem, ps: seq<Loc>, n: nat, k: nat, l: Loc)
    requires k < |ps| && Touches(mem, ps[k], n, l)
    ensures TouchesAny(mem, ps, n, l)
    decreases |ps|
  {
    hide Touches;
    if k > 0 {
      TouchesKid(mem, ps[1..], n, k - 1, l);
    }
  }

  lemma {:induction false} ReadKid(mem: Mem, caps: Caps, ps: seq<Loc>, n: nat, k: nat)
    requires ReadAll(mem, caps, ps, n).Some? && k < |ps|
    ensures Read(mem, caps, ps[k], n) == Some(ReadAll(mem, caps, ps, n).value[k])
    decreases |ps|
  {
    hide Read;
    if k > 0 {
      ReadKid(mem, caps, ps[1..], n, k - 1);
    }
  }

  /** Reading all pointers is reading each. */
  lemma {:induction false} ReadEach(mem: Mem, caps: Caps, ps: seq<Loc>, n: nat, ts: seq<Tree>)
    requires |ts| == |ps| && forall k :: 0 <= k < |ps| ==> Read(mem, caps, ps[k], n) == Some(ts[k])
    ensures ReadAll(mem, caps, ps, n) == Some(ts)
    decreases |ps|
  {
    hide Read;
    if ps != [] {
      ReadEach(mem, caps, ps[1..], n, ts[1..]);
      assert [ts[0]] + ts[1..] == ts;
    }
  }

  lemma {:induction false} TouchesSome(mem: Mem, ps: seq<Loc>, n: nat, l: Loc) returns (k: nat)
    requires TouchesAny(mem, ps, n, l)
    ensures k < |ps| && Touches(mem, ps[k], n, l)
    decreases |ps|
  {
    hide Touches;
    if Touches(mem, ps[0], n, l) {
      k := 0;
    } else {
      k := TouchesSome(mem, ps[1..], n, l);
      k := k + 1;
    }
  }
}
