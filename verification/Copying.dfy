/**
 What a deep copy promises about memory, and the steps that build the copy: reading a source that other
 changes leave alone, and writing structs, lists and capabilities in fresh words (copyFrom,
 copyFromStruct, copyFromList of src/serialization/pointers/pointer.utils.ts).
 */
module Copying {
  import opened Options
  import opened Memory
  import opened Trees
  import opened Placement
  import opened Erasing

  /** Nothing that was allocated changes, except what the old tree under `p` consisted of. */
  ghost predicate KeptOutside(mem: Mem, mem': Mem, p: Loc, k: nat) {
    && mem'.single == mem.single
    && Grown(mem, mem')
    && (forall l :: Has(mem, l) ==> Has(mem', l))
    && (forall l :: Has(mem, l) && !Touches(mem, p, k, l) ==> At(mem', l) == At(mem, l))
  }

  /** The pointer now leads to the tree `t`, built in words that were not allocated before. */
  ghost predicate Built(m0: Mem, m1: Mem, caps: Caps, p: Loc, n: nat, t: Tree) {
    && Read(m1, caps, p, n) == Some(t)
    && forall l :: Touches(m1, p, n, l) ==> l == p || !Has(m0, l)
  }

  /** The same for several pointers. */
  ghost predicate BuiltAll(m0: Mem, m1: Mem, caps: Caps, ps: seq<Loc>, n: nat, ts: seq<Tree>) {
    && ReadAll(m1, caps, ps, n) == Some(ts)
    && forall l :: TouchesAny(m1, ps, n, l) ==> l in ps || !Has(m0, l)
  }

  predicate Distinct(ls: seq<Loc>) {
    forall i, j :: 0 <= i < j < |ls| ==> ls[i] != ls[j]
  }

  /** A null pointer is an empty struct. */
  lemma NullReads(mem: Mem, caps: Caps, p: Loc, n: nat)
    requires Has(mem, p) && At(mem, p) == ZERO && n > 0
    ensures Read(mem, caps, p, n) == Some(NULL)
    ensures forall l :: Touches(mem, p, n, l) == (l == p)
  {
  }

  /** A change to one fresh pointer and to fresh memory leaves a tree built earlier alone. */
  lemma BuiltStays(m0: Mem, m1: Mem, m2: Mem, caps: Caps, caps': Caps, p: Loc, q: Loc, n: nat, t: Tree)
    requires Built(m0, m1, caps, p, n, t) && caps <= caps'
    requires KeptBut(m1, m2, [q]) && Has(m0, q) && q != p
    ensures Built(m0, m2, caps', p, n, t)
  {
    forall l | Touches(m1, p, n, l)
      ensures SameAt(m1, m2, l)
    {
      TouchesAllocated(m1, caps, p, n, l);
      assert l !in [q];
    }
    hide Read, Touches;
    ReadSame(m1, m2, caps, caps', p, n);
  }

  lemma BuiltAllStay(m0: Mem, m1: Mem, m2: Mem, caps: Caps, caps': Caps, ps: seq<Loc>, ls: seq<Loc>, n: nat, ts: seq<Tree>)
    requires BuiltAll(m0, m1, caps, ps, n, ts) && caps <= caps'
    requires KeptBut(m1, m2, ls) && forall l :: l in ls ==> l !in ps && !(Has(m1, l) && !Has(m0, l))
    ensures BuiltAll(m0, m2, caps', ps, n, ts)
  {
    forall l | TouchesAny(m1, ps, n, l)
      ensures SameAt(m1, m2, l)
    {
      TouchesAnyAllocated(m1, caps, ps, n, l);
      assert l !in ls;
    }
    hide ReadAll, TouchesAny;
    ReadAllSame(m1, m2, caps, caps', ps, n);
  }

  /** Pointers built one by one. */
  lemma BuiltEach(m0: Mem, m1: Mem, caps: Caps, ps: seq<Loc>, n: nat, ts: seq<Tree>)
    requires |ts| == |ps| && forall k :: 0 <= k < |ps| ==> Built(m0, m1, caps, ps[k], n, ts[k])
    ensures BuiltAll(m0, m1, caps, ps, n, ts)
  {
    hide Read, Touches;
    ReadEach(m1, caps, ps, n, ts);
    forall l | TouchesAny(m1, ps, n, l)
      ensures l in ps || !Has(m0, l)
    {
      var k := TouchesSome(m1, ps, n, l);
      assert Built(m0, m1, caps, ps[k], n, ts[k]);
    }
  }

  /** An object in fresh memory, reached through fresh words, is a tree built. */
  lemma BuiltObject(m0: Mem, m1: Mem, m2: Mem, caps: Caps, p: Loc, o: Object, n: nat, ws: seq<Word>, ts: seq<Tree>)
    requires n > 0 && Has(m2, p) && ObjectAt(m2, p) == Some(o) && !o.kind.KCap?
    requires HasAll(m2, o.data) && Values(m2, o.data) == ws
    requires BuiltAll(m1, m2, caps, o.kids, n - 1, ts)
    requires forall l :: l in o.frame ==> l == p || !Has(m0, l)
    requires forall l :: l in o.data || l in o.kids ==> !Has(m0, l)
    requires forall l :: Has(m0, l) ==> Has(m1, l)
    ensures Built(m0, m2, caps, p, n, Node(o.kind, ws, ts))
  {
    hide ObjectAt;
  }

  /** A tree the writes and allocations did not touch. */
  lemma SourceStays(m1: Mem, m2: Mem, caps: Caps, caps': Caps, ps: seq<Loc>, ls: seq<Loc>, n: nat)
    requires ReadAll(m1, caps, ps, n).Some? && KeptBut(m1, m2, ls) && caps <= caps'
    requires forall l :: TouchesAny(m1, ps, n, l) ==> l !in ls
    ensures ReadAll(m2, caps', ps, n) == ReadAll(m1, caps, ps, n)
    ensures forall l :: TouchesAny(m2, ps, n, l) == TouchesAny(m1, ps, n, l)
  {
    forall l | TouchesAny(m1, ps, n, l)
      ensures SameAt(m1, m2, l)
    {
      TouchesAnyAllocated(m1, caps, ps, n, l);
    }
    hide ReadAll, TouchesAny;
    ReadAllSame(m1, m2, caps, caps', ps, n);
  }

  lemma KeptThen(m0: Mem, m1: Mem, m2: Mem, ls: seq<Loc>)
    requires KeptBut(m0, m1, ls) && KeptBut(m1, m2, ls)
    ensures KeptBut(m0, m2, ls)
  {
  }

  // ---------------------------------------------------------------------------------------------
  // Positions in a composite list

  predicate Inside(l: Loc, seg: nat, from: nat, n: nat) {
    l.seg == seg && from <= l.off < from + n
  }

  /** The words a composite list's structs take. */
  function CompositeWords(length: nat, dw: nat, pc: nat): nat
    decreases length
  {
    if length == 0 then 0 else dw + pc + CompositeWords(length - 1, dw, pc)
  }

  lemma {:induction false} CompositeWordsIs(length: nat, dw: nat, pc: nat)
    ensures CompositeWords(length, dw, pc) == (dw + pc) * length
  {
    if length > 0 {
      CompositeWordsIs(length - 1, dw, pc);
      assert (dw + pc) * length == (dw + pc) * (length - 1) + (dw + pc);
    }
  }

  lemma {:induction false} DataInside(seg: nat, off: nat, length: nat, dw: nat, pc: nat, l: Loc)
    requires l in CompositeData(seg, off, length, dw, pc)
    ensures Inside(l, seg, off, CompositeWords(length, dw, pc))
    decreases length
  {
    if l !in Range(seg, off, dw) {
      DataInside(seg, off + dw + pc, length - 1, dw, pc, l);
    }
  }

  lemma {:induction false} KidsInside(seg: nat, off: nat, length: nat, dw: nat, pc: nat, l: Loc)
    requires l in CompositeKids(seg, off, length, dw, pc)
    ensures Inside(l, seg, off, CompositeWords(length, dw, pc))
    decreases length
  {
    if l !in Range(seg, off + dw, pc) {
      KidsInside(seg, off + dw + pc, length - 1, dw, pc, l);
    }
  }

  /** Data and pointers take different words. */
  lemma {:induction false} DataIsNoKid(seg: nat, off: nat, length: nat, dw: nat, pc: nat, l: Loc)
    requires l in CompositeData(seg, off, length, dw, pc)
    ensures l !in CompositeKids(seg, off, length, dw, pc)
    decreases length
  {
    var rest := off + dw + pc;
    if l in Range(seg, off, dw) {
      if l in CompositeKids(seg, rest, length - 1, dw, pc) {
        KidsInside(seg, rest, length - 1, dw, pc, l);
      }
    } else {
      DataInside(seg, rest, length - 1, dw, pc, l);
      DataIsNoKid(seg, rest, length - 1, dw, pc, l);
    }
  }

  lemma {:induction false} KidsDistinct(seg: nat, off: nat, length: nat, dw: nat, pc: nat)
    ensures Distinct(CompositeKids(seg, off, length, dw, pc))
    decreases length
  {
    if length > 0 {
      var rest := off + dw + pc;
      KidsDistinct(seg, rest, length - 1, dw, pc);
      var front, back := Range(seg, off + dw, pc), CompositeKids(seg, rest, length - 1, dw, pc);
      forall l | l in back
        ensures l !in front
      {
        KidsInside(seg, rest, length - 1, dw, pc, l);
      }
      DistinctAppend(front, back);
    }
  }

  lemma DistinctAppend(a: seq<Loc>, b: seq<Loc>)
    requires Distinct(a) && Distinct(b) && forall l :: l in b ==> l !in a
    ensures Distinct(a + b)
  {
    forall i, j | 0 <= i < j < |a + b|
      ensures (a + b)[i] != (a + b)[j]
    {
      if i < |a| && j >= |a| {
        assert (a + b)[j] in b;
      }
    }
  }

  /** The same position in a copy that starts elsewhere. */
  function Shifted(l: Loc, from: nat, seg: nat, to: nat): Loc
    requires from <= l.off
  {
    Loc(seg, to + (l.off - from))
  }

  lemma {:induction false} DataShifts(seg: nat, off: nat, seg': nat, off': nat, length: nat, dw: nat, pc: nat)
    ensures var a, b := CompositeData(seg, off, length, dw, pc), CompositeData(seg', off', length, dw, pc);
      |a| == |b| && forall i :: 0 <= i < |a| ==> a[i].off >= off && b[i] == Shifted(a[i], off, seg', off')
    decreases length
  {
    if length > 0 {
      DataShifts(seg, off + dw + pc, seg', off' + dw + pc, length - 1, dw, pc);
    }
  }

  lemma {:induction false} KidsShift(seg: nat, off: nat, seg': nat, off': nat, length: nat, dw: nat, pc: nat)
    ensures |CompositeKids(seg, off, length, dw, pc)| == |CompositeKids(seg', off', length, dw, pc)|
    ensures pc == 0 ==> CompositeKids(seg, off, length, dw, pc) == []
    ensures dw == 0 ==> CompositeData(seg, off, length, dw, pc) == []
    decreases length
  {
    if length > 0 {
      KidsShift(seg, off + dw + pc, seg', off' + dw + pc, length - 1, dw, pc);
    }
  }

  /** The word at a position and the word at the same position elsewhere. */
  predicate SameWord(m0: Mem, m1: Mem, seg: nat, off: nat, seg': nat, off': nat, i: nat) {
    && Has(m0, Loc(seg, off + i)) && Has(m1, Loc(seg', off' + i))
    && At(m1, Loc(seg', off' + i)) == At(m0, Loc(seg, off + i))
  }

  /** Copying every word of a composite list's content copies its data. */
  lemma DataCopied(m0: Mem, m1: Mem, seg: nat, off: nat, seg': nat, off': nat, length: nat, dw: nat, pc: nat)
    requires forall i :: 0 <= i < CompositeWords(length, dw, pc) ==> SameWord(m0, m1, seg, off, seg', off', i)
    ensures HasAll(m0, CompositeData(seg, off, length, dw, pc)) && HasAll(m1, CompositeData(seg', off', length, dw, pc))
    ensures Values(m1, CompositeData(seg', off', length, dw, pc)) == Values(m0, CompositeData(seg, off, length, dw, pc))
  {
    var a, b := CompositeData(seg, off, length, dw, pc), CompositeData(seg', off', length, dw, pc);
    DataShifts(seg, off, seg', off', length, dw, pc);
    hide CompositeData;
    forall i | 0 <= i < |a|
      ensures Has(m0, a[i]) && Has(m1, b[i]) && At(m1, b[i]) == At(m0, a[i])
    {
      assert a[i] in a;
      DataInside(seg, off, length, dw, pc, a[i]);
      var at := a[i].off - off;
      assert SameWord(m0, m1, seg, off, seg', off', at);
      assert a[i] == Loc(seg, off + at) && b[i] == Loc(seg', off' + at);
    }
  }

  /** The content of a composite list is its data and its pointers. */
  lemma {:induction false} ContentAllocated(mem: Mem, seg: nat, off: nat, length: nat, dw: nat, pc: nat, i: nat)
    requires HasAll(mem, CompositeData(seg, off, length, dw, pc)) && HasAll(mem, CompositeKids(seg, off, length, dw, pc))
    requires i < CompositeWords(length, dw, pc)
    ensures Has(mem, Loc(seg, off + i))
    decreases length
  {
    if i < dw {
      assert Range(seg, off, dw)[i] in CompositeData(seg, off, length, dw, pc);
    } else if i < dw + pc {
      assert Range(seg, off + dw, pc)[i - dw] in CompositeKids(seg, off, length, dw, pc);
    } else {
      ContentAllocated(mem, seg, off + dw + pc, length - 1, dw, pc, i - dw - pc);
    }
  }

  lemma {:induction false} ReadableAreAllocated(mem: Mem, caps: Caps, ps: seq<Loc>, n: nat)
    requires ReadAll(mem, caps, ps, n).Some?
    ensures HasAll(mem, ps)
    decreases |ps|
  {
    if ps != [] {
      ReadableAreAllocated(mem, caps, ps[1..], n);
    }
  }

  /** The parts of a readable object that is not null. */
  lemma ObjectParts(mem: Mem, p: Loc)
    requires Has(mem, p) && At(mem, p) != ZERO && ObjectAt(mem, p).Some? && !ObjectAt(mem, p).value.kind.KCap?
    ensures TargetOf(mem, p).Some? && TargetOf(mem, p).value.off >= 0
    ensures var o, t := ObjectAt(mem, p).value, TargetOf(mem, p).value;
      match o.kind
      case KStruct(dw, pc) =>
        && dw == DataWords(t.word) && pc == PointerCount(t.word)
        && o.data == Range(t.seg, t.off, dw) && o.kids == Range(t.seg, t.off + dw, pc)
      case KPointers(length) =>
        ElementSize(t.word) == POINTERS && length == ListLength(t.word) && o.data == [] && o.kids == Range(t.seg, t.off, length)
      case KList(size, length) =>
        && size == ElementSize(t.word) && size != POINTERS && size != COMPOSITE && length == ListLength(t.word)
        && o.data == Range(t.seg, t.off, ListWords(size, length)) && o.kids == []
      case KComposite(length, dw, pc) =>
        && ElementSize(t.word) == COMPOSITE && Has(mem, Loc(t.seg, t.off))
        && var tag := At(mem, Loc(t.seg, t.off));
        && length == OffsetOf(tag) && dw == DataWords(tag) && pc == PointerCount(tag)
        && o.data == CompositeData(t.seg, t.off + 1, length, dw, pc) && o.kids == CompositeKids(t.seg, t.off + 1, length, dw, pc)
      case KCap(_) => true
  {
  }

  /** Storing a pointer's data where initPointer said changes nothing but the pointer. */
  lemma StoreKeeps(m3: Mem, m4: Mem, d: Loc, content: Loc, slot: Slot, w: Word)
    requires Valid(m4) && KeptBut(m3, m4, [d]) && Leads(m4, d, content, slot)
    requires forall l :: l in slot.pads ==> !Has(m3, l)
    ensures Valid(Put(m4, slot.target, w)) && KeptBut(m3, Put(m4, slot.target, w), [d])
    ensures Has(m4, slot.target) && (slot.target == d || slot.target in slot.pads)
  {
    PutKeeps(m4, slot.target, w);
    if slot.pads != [] {
      assert slot.pads[|slot.pads| - 1] == slot.target;
    }
  }

  /** With its content in place and its pointer written, the object is a tree built. */
  lemma PointerBuilt(m0: Mem, m1: Mem, m3: Mem, m5: Mem, caps: Caps, d: Loc, o: Object, n: nat, ws: seq<Word>, ts: seq<Tree>)
    requires n > 0 && Has(m0, d) && Has(m5, d) && ObjectAt(m5, d) == Some(o) && !o.kind.KCap?
    requires KeptBut(m3, m5, [d]) && Has(m3, d)
    requires HasAll(m3, o.data) && Values(m3, o.data) == ws
    requires BuiltAll(m1, m3, caps, o.kids, n - 1, ts)
    requires forall l :: l in o.frame ==> l == d || !Has(m0, l)
    requires forall l :: l in o.data || l in o.kids ==> !Has(m0, l)
    requires forall l :: Has(m0, l) ==> Has(m1, l)
    ensures Built(m0, m5, caps, d, n, Node(o.kind, ws, ts))
  {
    hide ObjectAt, Built, BuiltAll;
    ValuesSame(m3, m5, o.data);
    BuiltAllStay(m1, m3, m5, caps, caps, o.kids, [d], n - 1, ts);
    BuiltObject(m0, m1, m5, caps, d, o, n, ws, ts);
  }

  /** A struct in fresh words. */
  lemma StructBuilt(m0: Mem, m1: Mem, m3: Mem, m4: Mem, caps: Caps, d: Loc, at: Loc, slot: Slot,
                    dw: nat, pc: nat, n: nat, ws: seq<Word>, ts: seq<Tree>)
    requires n > 0 && Has(m0, d) && Has(m3, d) && Valid(m4) && dw < 0x1_0000 && pc < 0x1_0000
    requires forall l :: InRegion(at, dw + pc, l) ==> !Has(m0, l)
    requires forall l :: Has(m0, l) ==> Has(m1, l)
    requires HasAll(m3, Range(at.seg, at.off, dw)) && Values(m3, Range(at.seg, at.off, dw)) == ws
    requires BuiltAll(m1, m3, caps, Range(at.seg, at.off + dw, pc), n - 1, ts)
    requires KeptBut(m3, m4, [d]) && Leads(m4, d, at, slot) && Fitting(m4, at)
    requires forall l :: l in slot.pads ==> !Has(m3, l)
    requires forall l :: Has(m0, l) ==> Has(m3, l)
    ensures var m5 := Put(m4, slot.target, NearWord(STRUCT, slot.offset, StructHi(dw, pc)));
      Valid(m5) && KeptBut(m3, m5, [d]) && Built(m0, m5, caps, d, n, Node(KStruct(dw, pc), ws, ts))
    ensures Has(m4, slot.target)
  {
    hide NearWord, StructHi, Leads, ObjectAt, Built, BuiltAll;
    var w := NearWord(STRUCT, slot.offset, StructHi(dw, pc));
    StoreKeeps(m3, m4, d, at, slot, w);
    var m5 := Put(m4, slot.target, w);
    StructReadsBack(m4, d, at, slot, dw, pc);
    if At(m5, d) == ZERO {
      NullObject(m5, d);
      assert Range(at.seg, at.off, 0) == [] && Range(at.seg, at.off + 0, 0) == [];
    }
    var o := ObjectAt(m5, d).value;
    PointerBuilt(m0, m1, m3, m5, caps, d, o, n, ws, ts);
  }

  lemma NullObject(mem: Mem, p: Loc)
    requires Has(mem, p) && At(mem, p) == ZERO
    ensures ObjectAt(mem, p) == Some(Object(NULL_OBJECT, [], [], [p]))
  {
  }

  /** The data and the pointers of a list whose content, with the tag of a composite one, starts here. */
  function ListData(kind: Kind, at: Loc): seq<Loc> {
    match kind
    case KList(size, length) => Range(at.seg, at.off, ListWords(size, length))
    case KComposite(length, dw, pc) => CompositeData(at.seg, at.off + 1, length, dw, pc)
    case _ => []
  }

  function ListKids(kind: Kind, at: Loc): seq<Loc> {
    match kind
    case KPointers(length) => Range(at.seg, at.off, length)
    case KComposite(length, dw, pc) => CompositeKids(at.seg, at.off + 1, length, dw, pc)
    case _ => []
  }

  /** A list pointer with this element size and length, to content with this tag, means this kind. */
  predicate ListShape(mem: Mem, at: Loc, size: nat, length: nat, kind: Kind) {
    size < 8 && length < 0x2000_0000 &&
    match kind
    case KPointers(n) => size == POINTERS && n == length
    case KList(sz, n) => size == sz && size != POINTERS && size != COMPOSITE && n == length
    case KComposite(n, dw, pc) =>
      && size == COMPOSITE && Has(mem, at)
      && OffsetOf(At(mem, at)) == n && DataWords(At(mem, at)) == dw && PointerCount(At(mem, at)) == pc
    case _ => false
  }

  lemma ListAtShape(m3: Mem, m4: Mem, w: Word, d: Loc, at: Loc, slot: Slot, size: nat, length: nat, kind: Kind)
    requires ListShape(m3, at, size, length, kind) && ElementSize(w) == size && ListLength(w) == length
    requires Valid(m4) && KeptBut(m3, m4, [d]) && at != d && Leads(m4, d, at, slot)
    requires forall l :: l in slot.pads ==> !Has(m3, l)
    ensures Has(m4, slot.target)
    ensures ListAt(Put(m4, slot.target, w), Target(w, at.seg, at.off, slot.pads), [d] + slot.pads)
         == Some(Object(kind, ListData(kind, at), ListKids(kind, at), [d] + slot.pads + (if kind.KComposite? then [at] else [])))
  {
    hide CompositeData, CompositeKids;
    StoreKeeps(m3, m4, d, at, slot, w);
    PutKeeps(m4, slot.target, w);
    if kind.KComposite? {
      assert slot.target != at;
    } else {
      assert [d] + slot.pads + [] == [d] + slot.pads;
    }
  }

  /** A list in fresh words. */
  lemma ListBuilt(m0: Mem, m1: Mem, m3: Mem, m4: Mem, caps: Caps, d: Loc, at: Loc, slot: Slot,
                  size: nat, length: nat, kind: Kind, n: nat, ws: seq<Word>, ts: seq<Tree>)
    requires n > 0 && Has(m0, d) && Has(m3, d) && Valid(m4) && at != d
    requires KeptBut(m3, m4, [d]) && Leads(m4, d, at, slot) && Fitting(m4, at)
    requires forall l :: l in slot.pads ==> !Has(m3, l)
    requires ListShape(m3, at, size, length, kind) && (kind.KComposite? ==> !Has(m0, at))
    requires forall l :: l in ListData(kind, at) || l in ListKids(kind, at) ==> !Has(m0, l)
    requires forall l :: Has(m0, l) ==> Has(m1, l) && Has(m3, l)
    requires HasAll(m3, ListData(kind, at)) && Values(m3, ListData(kind, at)) == ws
    requires BuiltAll(m1, m3, caps, ListKids(kind, at), n - 1, ts)
    ensures Has(m4, slot.target)
    ensures var m5 := Put(m4, slot.target, NearWord(LIST, slot.offset, ListHi(size, length)));
      Valid(m5) && KeptBut(m3, m5, [d]) && Built(m0, m5, caps, d, n, Node(kind, ws, ts))
  {
    hide NearWord, ListHi, Leads, ObjectAt, ListAt, Built, BuiltAll, ListData, ListKids, ElementSize, ListLength, KeptBut;
    var w := NearWord(LIST, slot.offset, ListHi(size, length));
    StoreKeeps(m3, m4, d, at, slot, w);
    ListReadsBack(m4, d, at, slot, size, length);
    ListAtShape(m3, m4, w, d, at, slot, size, length, kind);
    var m5 := Put(m4, slot.target, w);
    var o := ObjectAt(m5, d).value;
    PointerBuilt(m0, m1, m3, m5, caps, d, o, n, ws, ts);
  }

  // ---------------------------------------------------------------------------------------------
  // Copying pointers one after another

  /** The first `k` pointers are built; the others are as they were. */
  ghost predicate BuiltSoFar(m0: Mem, m: Mem, caps: Caps, ds: seq<Loc>, k: nat, n: nat, ts: seq<Tree>)
    requires k <= |ds| == |ts|
  {
    && KeptBut(m0, m, ds) && HasAll(m0, ds) && HasAll(m, ds) && Distinct(ds)
    && (forall j :: 0 <= j < k ==> Built(m0, m, caps, ds[j], n, ts[j]))
    && (forall j :: k <= j < |ds| ==> SameAt(m0, m, ds[j]))
  }

  lemma BuiltOneMore(m0: Mem, m1: Mem, m2: Mem, caps: Caps, caps': Caps, ds: seq<Loc>, k: nat, n: nat, ts: seq<Tree>)
    requires k < |ds| == |ts| && BuiltSoFar(m0, m1, caps, ds, k, n, ts) && caps <= caps'
    requires KeptBut(m1, m2, [ds[k]]) && Built(m1, m2, caps', ds[k], n, ts[k])
    ensures BuiltSoFar(m0, m2, caps', ds, k + 1, n, ts)
  {
    hide Built, Read, Touches;
    forall j | 0 <= j < k + 1
      ensures Built(m0, m2, caps', ds[j], n, ts[j])
    {
      if j < k {
        assert ds[k] in ds;
        BuiltStays(m0, m1, m2, caps, caps', ds[j], ds[k], n, ts[j]);
      } else {
        BuiltEarlier(m0, m1, m2, caps', ds[k], n, ts[k]);
      }
    }
    forall j | k + 1 <= j < |ds|
      ensures SameAt(m0, m2, ds[j])
    {
      assert ds[j] in ds && ds[j] !in [ds[k]];
    }
    assert forall l :: l in [ds[k]] ==> l in ds;
    assert HasAll(m2, ds);
  }

  lemma BuiltEarlier(m0: Mem, m1: Mem, m2: Mem, caps: Caps, p: Loc, n: nat, t: Tree)
    requires Built(m1, m2, caps, p, n, t) && forall l :: Has(m0, l) ==> Has(m1, l)
    ensures Built(m0, m2, caps, p, n, t)
  {
  }

  /** Another pointer is built, after it may have been cleared. */
  lemma PointersStep(m0: Mem, m1: Mem, m2: Mem, m3: Mem, caps: Caps, caps': Caps, ds: seq<Loc>, k: nat, n: nat, ts: seq<Tree>)
    requires k < |ds| == |ts| && BuiltSoFar(m0, m1, caps, ds, k, n, ts) && caps <= caps'
    requires KeptBut(m1, m2, [ds[k]]) && KeptBut(m2, m3, [ds[k]]) && Built(m2, m3, caps', ds[k], n, ts[k])
    ensures BuiltSoFar(m0, m3, caps', ds, k + 1, n, ts)
  {
    hide Built, BuiltSoFar;
    KeptThen(m1, m2, m3, [ds[k]]);
    BuiltEarlier(m1, m2, m3, caps', ds[k], n, ts[k]);
    BuiltOneMore(m0, m1, m3, caps, caps', ds, k, n, ts);
  }

  lemma NothingBuilt(m: Mem, caps: Caps, ds: seq<Loc>, n: nat, ts: seq<Tree>)
    requires HasAll(m, ds) && Distinct(ds) && |ds| == |ts|
    ensures BuiltSoFar(m, m, caps, ds, 0, n, ts)
  {
  }

  /** The pointers from the `k`-th on, and everything outside, are as they were. */
  ghost predicate CopiedSoFar(m0: Mem, m: Mem, ds: seq<Loc>, k: nat)
    requires k <= |ds|
  {
    && KeptBut(m0, m, ds) && HasAll(m0, ds) && HasAll(m, ds) && Distinct(ds)
    && (forall j :: k <= j < |ds| ==> SameAt(m0, m, ds[j]))
  }

  lemma NothingCopied(m: Mem, ds: seq<Loc>)
    requires HasAll(m, ds) && Distinct(ds)
    ensures CopiedSoFar(m, m, ds, 0)
  {
    assert forall j :: 0 <= j < |ds| ==> ds[j] in ds;
  }

  lemma NextPointer(m0: Mem, m1: Mem, ds: seq<Loc>, k: nat)
    requires k < |ds| && CopiedSoFar(m0, m1, ds, k)
    ensures ds[k] in ds && Has(m0, ds[k]) && Has(m1, ds[k]) && At(m1, ds[k]) == At(m0, ds[k])
    ensures KeptBut(m1, m1, [ds[k]])
  {
    assert ds[k] in ds;
  }

  /** One pointer more is copied, after it may have been cleared. */
  lemma PointerCopied(m0: Mem, m1: Mem, m2: Mem, m3: Mem, ds: seq<Loc>, k: nat)
    requires k < |ds| && CopiedSoFar(m0, m1, ds, k) && KeptBut(m1, m2, [ds[k]])
    requires Has(m2, ds[k]) && At(m2, ds[k]) == ZERO && KeptOutside(m2, m3, ds[k], 1)
    ensures CopiedSoFar(m0, m3, ds, k + 1) && KeptBut(m2, m3, [ds[k]])
  {
    hide KeptOutside;
    OutsideNull(m2, m3, ds[k]);
    KeptThen(m1, m2, m3, [ds[k]]);
    assert ds[k] in ds;
    forall j | k + 1 <= j < |ds|
      ensures SameAt(m0, m3, ds[j])
    {
      assert ds[j] in ds && ds[j] !in [ds[k]];
    }
  }

  lemma NullStaysNull(mem: Mem, d: Loc)
    requires Has(mem, d) && At(mem, d) == ZERO
    ensures KeptOutside(mem, mem, d, 1)
  {
  }

  lemma AllCopied(m0: Mem, m1: Mem, ds: seq<Loc>)
    requires CopiedSoFar(m0, m1, ds, |ds|)
    ensures KeptBut(m0, m1, ds)
  {
  }

  lemma AllBuilt(m0: Mem, m1: Mem, caps: Caps, ds: seq<Loc>, n: nat, ts: seq<Tree>)
    requires |ds| == |ts| && BuiltSoFar(m0, m1, caps, ds, |ds|, n, ts)
    ensures KeptBut(m0, m1, ds) && BuiltAll(m0, m1, caps, ds, n, ts)
  {
    hide Built, BuiltAll;
    BuiltEach(m0, m1, caps, ds, n, ts);
  }

  /** One of the trees copied from does not use the pointer. */
  lemma KidApart(mem: Mem, ss: seq<Loc>, n: nat, k: nat, ds: seq<Loc>, d: Loc)
    requires k < |ss| && d in ds && forall l :: TouchesAny(mem, ss, n, l) ==> l !in ds
    requires Has(mem, d) && At(mem, d) == ZERO
    ensures forall l :: Touches(mem, ss[k], n, l) ==> !Touches(mem, d, 1, l)
  {
    NullIsApart(mem, d, 1);
    forall l | Touches(mem, ss[k], n, l)
      ensures !Touches(mem, d, 1, l)
    {
      TouchesKid(mem, ss, n, k, l);
    }
  }

  lemma SourceApart(mem: Mem, caps: Caps, ss: seq<Loc>, n: nat, k: nat, ds: seq<Loc>, d: Loc)
    requires k < |ss| && d in ds && Read(mem, caps, ss[k], n).Some?
    requires forall l :: TouchesAny(mem, ss, n, l) ==> l !in ds
    ensures ss[k] != d
  {
    TouchesOwn(mem, caps, ss[k], n);
    TouchesKid(mem, ss, n, k, ss[k]);
  }

  lemma OutsideNull(m1: Mem, m2: Mem, d: Loc)
    requires Has(m1, d) && At(m1, d) == ZERO && KeptOutside(m1, m2, d, 1)
    ensures KeptBut(m1, m2, [d])
  {
    NullIsApart(m1, d, 1);
  }

  // ---------------------------------------------------------------------------------------------
  // One pointer

  lemma ErasedForCopy(m0: Mem, m1: Mem, d: Loc, k: nat)
    requires Apart(m0, d, k) && ErasedTree(m0, m1, d, k)
    ensures Has(m1, d) && At(m1, d) == ZERO && KeptOutside(m0, m1, d, k)
    ensures forall l :: Has(m0, l) == Has(m1, l)
    ensures Touches(m0, d, k, d)
  {
    FrameHasPointer(m0, d);
    forall l | Has(m0, l) && !Touches(m0, d, k, l)
      ensures At(m1, l) == At(m0, l)
    {
      if Wiped(m0, d, k, l) {
        WipedIsTouched(m0, d, k, l);
      }
    }
  }

  lemma SourceSurvives(m0: Mem, m1: Mem, caps: Caps, s: Loc, d: Loc, n: nat, k: nat)
    requires Read(m0, caps, s, n).Some? && KeptOutside(m0, m1, d, k) && Touches(m0, d, k, d)
    requires forall l :: Touches(m0, s, n, l) ==> !Touches(m0, d, k, l)
    ensures Read(m1, caps, s, n) == Read(m0, caps, s, n)
    ensures !Touches(m1, s, n, d)
  {
    forall l | Touches(m0, s, n, l)
      ensures SameAt(m0, m1, l)
    {
      TouchesAllocated(m0, caps, s, n, l);
    }
    hide Read;
    ReadSame(m0, m1, caps, caps, s, n);
  }

  lemma ReadablePointer(mem: Mem, caps: Caps, s: Loc, n: nat)
    requires Read(mem, caps, s, n).Some?
    ensures n > 0 && Has(mem, s) && ObjectAt(mem, s).Some?
  {
  }

  lemma NullBuilt(m0: Mem, m1: Mem, caps: Caps, d: Loc, n: nat)
    requires Has(m1, d) && At(m1, d) == ZERO && n > 0
    ensures Built(m0, m1, caps, d, n, NULL)
  {
    NullReads(m1, caps, d, n);
  }

  lemma CopyKept(m0: Mem, m1: Mem, m2: Mem, d: Loc, k: nat)
    requires KeptOutside(m0, m1, d, k) && Touches(m0, d, k, d) && KeptBut(m1, m2, [d])
    ensures KeptOutside(m0, m2, d, k)
  {
  }

  lemma CopyFinished(m0: Mem, m1: Mem, m2: Mem, caps: Caps, d: Loc, k: nat, n: nat, t: Tree)
    requires KeptOutside(m0, m1, d, k) && Touches(m0, d, k, d) && KeptBut(m1, m2, [d])
    requires Built(m1, m2, caps, d, n, t)
    ensures KeptOutside(m0, m2, d, k) && Built(m0, m2, caps, d, n, t)
  {
  }

  /** The tree copied from is not touched by writes elsewhere. */
  lemma RootStays(m1: Mem, m2: Mem, caps: Caps, caps': Caps, s: Loc, ls: seq<Loc>, n: nat)
    requires Read(m1, caps, s, n).Some? && KeptBut(m1, m2, ls) && caps <= caps'
    requires forall l :: Touches(m1, s, n, l) ==> l !in ls
    ensures Read(m2, caps', s, n) == Read(m1, caps, s, n)
    ensures forall l :: Touches(m2, s, n, l) == Touches(m1, s, n, l)
    ensures Has(m1, s) && Has(m2, s) && At(m2, s) == At(m1, s) && ObjectAt(m2, s) == ObjectAt(m1, s)
  {
    forall l | Touches(m1, s, n, l)
      ensures SameAt(m1, m2, l)
    {
      TouchesAllocated(m1, caps, s, n, l);
    }
    RootObject(m1, caps, s, n);
    hide Read, Touches, ObjectAt;
    ObjectSame(m1, m2, s);
    ReadSame(m1, m2, caps, caps', s, n);
  }

  lemma RootObject(mem: Mem, caps: Caps, s: Loc, n: nat)
    requires Read(mem, caps, s, n).Some?
    ensures Has(mem, s) && ObjectAt(mem, s).Some? && Touches(mem, s, n, s)
    ensures forall l :: l in ObjectAt(mem, s).value.frame ==> Touches(mem, s, n, l)
  {
    FrameHasPointer(mem, s);
  }

  /** Writes to fresh words keep everything older. */
  lemma KeptFresh(m0: Mem, m1: Mem, m2: Mem, ls: seq<Loc>)
    requires Kept(m0, m1) && KeptBut(m1, m2, ls) && forall l :: l in ls ==> !Has(m0, l)
    ensures Kept(m0, m2)
  {
  }

  lemma CapReads(mem: Mem, caps: Caps, s: Loc, n: nat)
    requires Read(mem, caps, s, n).Some? && At(mem, s) != ZERO && ObjectAt(mem, s).value.kind.KCap?
    ensures n > 0 && At(mem, s).lo == OTHER && At(mem, s).hi < |caps| && Read(mem, caps, s, n).value == CapTree(caps[At(mem, s).hi])
  {
  }

  /** A new capability pointer leads to the client that was added last. */
  lemma CapBuilt(m0: Mem, m1: Mem, caps: Caps, d: Loc, n: nat)
    requires n > 0 && Has(m1, d) && caps != [] && |caps| < TWO_32 && At(m1, d) == CapWord(|caps| - 1)
    ensures Built(m0, m1, caps, d, n, CapTree(caps[|caps| - 1]))
  {
    var w := At(m1, d);
    assert w.hi == |caps| - 1 && TypeOf(w) == OTHER && w != ZERO;
    assert TargetOf(m1, d).Some?;
    assert ObjectAt(m1, d) == Some(Object(KCap(|caps| - 1), [], [], [d] + []));
  }

  // ---------------------------------------------------------------------------------------------
  // Steps of copying a struct

  lemma ReadableObject(mem: Mem, caps: Caps, s: Loc, n: nat)
    requires Read(mem, caps, s, n).Some?
    ensures n > 0 && Has(mem, s) && ObjectAt(mem, s).Some?
    ensures var o := ObjectAt(mem, s).value;
      !o.kind.KCap? ==>
        && HasAll(mem, o.data) && ReadAll(mem, caps, o.kids, n - 1).Some?
        && Read(mem, caps, s, n) == Some(Node(o.kind, Values(mem, o.data), ReadAll(mem, caps, o.kids, n - 1).value))
  {
  }

  lemma SizesFit(w: Word)
    ensures DataWords(w) < 0x1_0000 && PointerCount(w) < 0x1_0000 && ListLength(w) < 0x2000_0000 && ElementSize(w) < 8
  {
  }

  /** There is room for the data, apart from the source. */
  lemma StructRoom(m0: Mem, m1: Mem, s0: Mem, d: Loc, at: Loc, from: Loc, dw: nat, pc: nat)
    requires Kept(m0, m1) && HasAll(s0, Range(from.seg, from.off, dw))
    requires forall l :: InRegion(at, dw + pc, l) ==> Has(m1, l) && At(m1, l) == ZERO && !Has(m0, l)
    ensures forall l :: InRegion(from, dw, l) ==> Has(s0, l)
    ensures forall l :: InRegion(at, dw, l) ==> Has(m1, l) && !Has(m0, l)
    ensures (forall l :: InRegion(from, dw, l) ==> Has(m0, l)) ==> forall l :: InRegion(from, dw, l) ==> !InRegion(at, dw, l)
  {
    var r := Range(from.seg, from.off, dw);
    forall l | InRegion(from, dw, l)
      ensures Has(s0, l)
    {
      assert r[l.off - from.off] == l && l in r;
    }
    assert forall l :: InRegion(at, dw, l) ==> InRegion(at, dw + pc, l);
  }

  /** The data is in place, and the pointers are null and apart. */
  lemma StructCopied(m0: Mem, m1: Mem, m2: Mem, s0: Mem, at: Loc, from: Loc, dw: nat, pc: nat)
    requires Kept(m0, m1) && KeptBut(m1, m2, Range(at.seg, at.off, dw))
    requires forall l :: Has(m2, l) == Has(m1, l)
    requires forall l :: InRegion(at, dw + pc, l) ==> Has(m1, l) && At(m1, l) == ZERO && !Has(m0, l)
    requires forall i :: 0 <= i < dw ==> SameWord(s0, m2, from.seg, from.off, at.seg, at.off, i)
    ensures var ds := Range(at.seg, at.off + dw, pc);
      && HasAll(m2, ds) && Distinct(ds) && (forall l :: l in ds ==> At(m2, l) == ZERO && !Has(m0, l))
    ensures Kept(m0, m2)
  {
    var ls, ds := Range(at.seg, at.off, dw), Range(at.seg, at.off + dw, pc);
    forall l | l in ls
      ensures !Has(m0, l)
    {
      assert InRegion(at, dw + pc, l);
    }
    KeptFresh(m0, m1, m2, ls);
    forall l | l in ds
      ensures Has(m2, l) && At(m2, l) == ZERO && !Has(m0, l)
    {
      assert InRegion(at, dw + pc, l) && l !in ls;
    }
  }

  /** The pointers copied from do not use those copied to. */
  lemma KidsUntouched(m0: Mem, m2: Mem, caps: Caps, s: Loc, n: nat, ds: seq<Loc>)
    requires Read(m2, caps, s, n).Some? && !ObjectAt(m2, s).value.kind.KCap?
    requires Read(m0, caps, s, n).Some? && forall l :: Touches(m2, s, n, l) == Touches(m0, s, n, l)
    requires forall l :: l in ds ==> !Has(m0, l)
    ensures forall l :: TouchesAny(m2, ObjectAt(m2, s).value.kids, n - 1, l) ==> l !in ds
  {
    forall l | TouchesAny(m2, ObjectAt(m2, s).value.kids, n - 1, l)
      ensures l !in ds
    {
      assert Touches(m2, s, n, l);
      TouchesAllocated(m0, caps, s, n, l);
    }
  }

  /** The pointers copied from read as before, and do not use the fresh ones copied to. */
  lemma SourceKids(m0: Mem, m2: Mem, caps: Caps, s: Loc, n: nat, ds: seq<Loc>)
    requires Read(m0, caps, s, n).Some? && !ObjectAt(m0, s).value.kind.KCap? && Kept(m0, m2)
    requires forall l :: l in ds ==> !Has(m0, l)
    ensures n > 0 && Has(m0, s) && ObjectAt(m0, s).Some?
    ensures ReadAll(m2, caps, ObjectAt(m0, s).value.kids, n - 1) == ReadAll(m0, caps, ObjectAt(m0, s).value.kids, n - 1)
    ensures ReadAll(m0, caps, ObjectAt(m0, s).value.kids, n - 1).Some?
    ensures forall l :: TouchesAny(m2, ObjectAt(m0, s).value.kids, n - 1, l) ==> l !in ds
  {
    hide Read, ReadAll, Touches, TouchesAny, ObjectAt, KeptBut;
    ReadableObject(m0, caps, s, n);
    RootStays(m0, m2, caps, caps, s, [], n);
    KidsUntouched(m0, m2, caps, s, n, ds);
    ReadableObject(m2, caps, s, n);
  }

  /** Everything but the pointer itself is ready. */
  lemma StructFilled(m0: Mem, m2: Mem, m3: Mem, s0: Mem, d: Loc, at: Loc, from: Loc, dw: nat, pc: nat)
    requires Kept(m0, m2) && Has(m0, d) && KeptBut(m2, m3, Range(at.seg, at.off + dw, pc))
    requires at.seg < |m2.segs| && at.off <= m2.segs[at.seg].used
    requires forall l :: InRegion(at, dw + pc, l) ==> Has(m2, l) && !Has(m0, l)
    requires forall i :: 0 <= i < dw ==> SameWord(s0, m2, from.seg, from.off, at.seg, at.off, i)
    requires HasAll(s0, Range(from.seg, from.off, dw))
    ensures Kept(m0, m3) && Has(m3, d) && Fitting(m3, at)
    ensures forall l :: Has(m0, l) ==> Has(m2, l) && Has(m3, l)
    ensures HasAll(m3, Range(at.seg, at.off, dw))
    ensures Values(m3, Range(at.seg, at.off, dw)) == Values(s0, Range(from.seg, from.off, dw))
  {
    var ls, ds := Range(at.seg, at.off, dw), Range(at.seg, at.off + dw, pc);
    forall l | l in ds
      ensures !Has(m0, l)
    {
      assert InRegion(at, dw + pc, l);
    }
    KeptFresh(m0, m2, m3, ds);
    forall i | 0 <= i < dw
      ensures SameWord(s0, m3, from.seg, from.off, at.seg, at.off, i)
    {
      assert SameWord(s0, m2, from.seg, from.off, at.seg, at.off, i);
      assert InRegion(at, dw + pc, ls[i]) && ls[i] !in ds;
    }
    RangeCopied(s0, m3, from, at, dw);
  }

  lemma RangeCopied(m0: Mem, m1: Mem, from: Loc, at: Loc, n: nat)
    requires forall i :: 0 <= i < n ==> SameWord(m0, m1, from.seg, from.off, at.seg, at.off, i)
    ensures HasAll(m0, Range(from.seg, from.off, n)) && HasAll(m1, Range(at.seg, at.off, n))
    ensures Values(m1, Range(at.seg, at.off, n)) == Values(m0, Range(from.seg, from.off, n))
  {
    var a, b := Range(from.seg, from.off, n), Range(at.seg, at.off, n);
    forall i | 0 <= i < n
      ensures Has(m0, a[i]) && Has(m1, b[i]) && At(m1, b[i]) == At(m0, a[i])
    {
      assert SameWord(m0, m1, from.seg, from.off, at.seg, at.off, i);
    }
  }

  lemma FreshThen(m0: Mem, m3: Mem, m5: Mem, d: Loc)
    requires Kept(m0, m3) && KeptBut(m3, m5, [d])
    ensures KeptBut(m0, m5, [d])
  {
  }

  lemma FittingStays(m3: Mem, m4: Mem, d: Loc, at: Loc)
    requires KeptBut(m3, m4, [d]) && Fitting(m3, at)
    ensures Fitting(m4, at)
  {
  }

  lemma RangeHas(mem: Mem, from: Loc, n: nat)
    requires HasAll(mem, Range(from.seg, from.off, n))
    ensures forall l :: InRegion(from, n, l) ==> Has(mem, l)
  {
    var r := Range(from.seg, from.off, n);
    forall l | InRegion(from, n, l)
      ensures Has(mem, l)
    {
      assert r[l.off - from.off] == l && l in r;
    }
  }

  // ---------------------------------------------------------------------------------------------
  // Steps of copying lists

  /** Freshly allocated words are null pointers, apart from one another. */
  lemma FreshPointers(m0: Mem, m1: Mem, at: Loc, n: nat, ds: seq<Loc>)
    requires ds == Range(at.seg, at.off, n)
    requires forall l :: InRegion(at, n, l) ==> Has(m1, l) && At(m1, l) == ZERO && !Has(m0, l)
    ensures HasAll(m1, ds) && Distinct(ds) && forall l :: l in ds ==> At(m1, l) == ZERO && !Has(m0, l)
  {
    forall l | l in ds
      ensures Has(m1, l) && At(m1, l) == ZERO && !Has(m0, l)
    {
      assert InRegion(at, n, l);
    }
  }

  lemma FreshFilled(m0: Mem, m1: Mem, m3: Mem, d: Loc, at: Loc, ls: seq<Loc>)
    requires Kept(m0, m1) && Has(m0, d) && KeptBut(m1, m3, ls) && forall l :: l in ls ==> !Has(m0, l)
    requires Fitting(m1, at)
    ensures Kept(m0, m3) && Has(m3, d) && Fitting(m3, at)
    ensures forall l :: Has(m0, l) ==> Has(m1, l) && Has(m3, l)
  {
    KeptFresh(m0, m1, m3, ls);
  }

  lemma NoneBuilt(m0: Mem, m1: Mem, caps: Caps, n: nat)
    ensures BuiltAll(m0, m1, caps, [], n, [])
  {
  }

  lemma NoneRead(mem: Mem, caps: Caps, n: nat)
    ensures ReadAll(mem, caps, [], n) == Some([])
  {
  }

  lemma AllocatedBefore(m0: Mem, m1: Mem, at: Loc, n: nat)
    requires forall l :: InRegion(at, n, l) ==> Has(m1, l) && At(m1, l) == ZERO && !Has(m0, l)
    ensures forall l :: InRegion(at, n, l) ==> Has(m1, l)
    ensures forall l :: l in Range(at.seg, at.off, n) ==> !Has(m0, l)
  {
    forall l | l in Range(at.seg, at.off, n)
      ensures !Has(m0, l)
    {
      assert InRegion(at, n, l);
    }
  }

  // ---------------------------------------------------------------------------------------------
  // Steps of copying a composite list

  lemma TagRoom(m0: Mem, m1: Mem, at: Loc, words: nat, tag: Word)
    requires Valid(m1) && Kept(m0, m1)
    requires forall l :: InRegion(at, words + 1, l) ==> Has(m1, l) && At(m1, l) == ZERO && !Has(m0, l)
    ensures Has(m1, at) && !Has(m0, at) && KeptBut(m1, Put(m1, at, tag), [at]) && Kept(m0, Put(m1, at, tag))
    ensures var mt := Put(m1, at, tag);
      && At(mt, at) == tag && Has(mt, at)
      && (forall l :: InRegion(at, words + 1, l) ==> Has(mt, l) && !Has(m0, l))
      && (forall l :: InRegion(Loc(at.seg, at.off + 1), words, l) ==> Has(mt, l) && !Has(m0, l) && At(mt, l) == ZERO)
      && (Fitting(m1, at) ==> Fitting(mt, at))
  {
    assert InRegion(at, words + 1, at);
    PutKeeps(m1, at, tag);
    KeptFresh(m0, m1, Put(m1, at, tag), [at]);
    forall l | InRegion(Loc(at.seg, at.off + 1), words, l)
      ensures Has(m1, l) && !Has(m0, l) && At(m1, l) == ZERO
    {
      assert InRegion(at, words + 1, l);
    }
  }

  lemma ContentHas(mem: Mem, o: Object, from: Loc, length: nat, dw: nat, pc: nat)
    requires HasAll(mem, o.data) && HasAll(mem, o.kids)
    requires o.data == CompositeData(from.seg, from.off, length, dw, pc)
    requires o.kids == CompositeKids(from.seg, from.off, length, dw, pc)
    ensures forall l :: InRegion(from, CompositeWords(length, dw, pc), l) ==> Has(mem, l)
  {
    forall l | InRegion(from, CompositeWords(length, dw, pc), l)
      ensures Has(mem, l)
    {
      ContentAllocated(mem, from.seg, from.off, length, dw, pc, l.off - from.off);
    }
  }

  lemma ContentRoom(m0: Mem, mt: Mem, s0: Mem, from: Loc, content: Loc, words: nat, same: bool)
    requires Kept(m0, mt) && forall l :: InRegion(from, words, l) ==> Has(s0, l)
    requires forall l :: InRegion(content, words, l) ==> Has(mt, l) && !Has(m0, l)
    ensures same && s0 == m0 ==> forall l :: InRegion(from, words, l) ==> Has(mt, l) && !InRegion(content, words, l)
  {
  }

  /** Data older than an allocation is as it was. */
  lemma DataStays(m0: Mem, m1: Mem, ls: seq<Loc>)
    requires HasAll(m0, ls) && Kept(m0, m1)
    ensures HasAll(m1, ls) && Values(m1, ls) == Values(m0, ls)
    ensures forall l :: Has(m0, l) ==> Has(m1, l)
  {
    ValuesSame(m0, m1, ls);
  }

  lemma NoData(mem: Mem)
    ensures HasAll(mem, []) && Values(mem, []) == []
  {
  }

  /** The pointers and the data of the list lie in fresh words. */
  ghost predicate CompositeInPlace(m0: Mem, m2: Mem, at: Loc, length: nat, dw: nat, pc: nat) {
    && HasAll(m2, CompositeKids(at.seg, at.off + 1, length, dw, pc))
    && (forall l :: l in CompositeKids(at.seg, at.off + 1, length, dw, pc) ==> !Has(m0, l))
    && (forall l :: l in CompositeData(at.seg, at.off + 1, length, dw, pc) ==> !Has(m0, l))
  }

  /** The tag and, if there is data, all the content are in place. */
  lemma CompositeCopied(m0: Mem, mt: Mem, m2: Mem, s1: Mem, at: Loc, to: nat, from: Loc, length: nat, dw: nat, pc: nat, tag: Word)
    requires to == at.off + 1 && Kept(m0, mt) && Has(mt, at) && At(mt, at) == tag && Fitting(mt, at)
    requires forall l :: InRegion(Loc(at.seg, at.off + 1), CompositeWords(length, dw, pc), l) ==> Has(mt, l) && !Has(m0, l)
    requires dw == 0 ==> m2 == mt
    requires dw > 0 ==> KeptBut(mt, m2, Range(at.seg, at.off + 1, CompositeWords(length, dw, pc)))
    requires dw > 0 ==> forall i :: 0 <= i < CompositeWords(length, dw, pc) ==> SameWord(s1, m2, from.seg, from.off, at.seg, to, i)
    ensures Kept(m0, m2) && Has(m2, at) && At(m2, at) == tag && Fitting(m2, at)
    ensures CompositeInPlace(m0, m2, at, length, dw, pc)
    ensures forall l :: l in Range(at.seg, at.off + 1, CompositeWords(length, dw, pc)) ==> !Has(m0, l)
    ensures dw > 0 ==>
      && HasAll(m2, CompositeData(at.seg, at.off + 1, length, dw, pc)) && HasAll(s1, CompositeData(from.seg, from.off, length, dw, pc))
      && Values(m2, CompositeData(at.seg, at.off + 1, length, dw, pc)) == Values(s1, CompositeData(from.seg, from.off, length, dw, pc))
  {
    var content, words := Loc(at.seg, at.off + 1), CompositeWords(length, dw, pc);
    var ls := Range(content.seg, content.off, words);
    forall l | l in ls
      ensures !Has(m0, l)
    {
      assert InRegion(content, words, l);
    }
    if dw > 0 {
      KeptFresh(m0, mt, m2, ls);
      DataCopied(s1, m2, from.seg, from.off, content.seg, content.off, length, dw, pc);
      assert at !in ls;
    }
    forall l | l in CompositeKids(content.seg, content.off, length, dw, pc)
      ensures Has(m2, l) && !Has(m0, l)
    {
      KidsInside(content.seg, content.off, length, dw, pc, l);
      assert InRegion(content, words, l);
    }
    forall l | l in CompositeData(content.seg, content.off, length, dw, pc)
      ensures !Has(m0, l)
    {
      DataInside(content.seg, content.off, length, dw, pc, l);
      assert InRegion(content, words, l);
    }
  }

  /** Copying the pointers keeps the data and the tag. */
  lemma CompositeFilled(m0: Mem, m2: Mem, m3: Mem, s1: Mem, d: Loc, at: Loc, from: Loc, length: nat, dw: nat, pc: nat, tag: Word)
    requires Kept(m0, m2) && Has(m0, d) && Has(m2, at) && At(m2, at) == tag && Fitting(m2, at)
    requires KeptBut(m2, m3, CompositeKids(at.seg, at.off + 1, length, dw, pc))
    requires forall l :: l in CompositeKids(at.seg, at.off + 1, length, dw, pc) ==> !Has(m0, l)
    requires HasAll(s1, CompositeData(from.seg, from.off, length, dw, pc))
    requires dw > 0 ==>
      && HasAll(m2, CompositeData(at.seg, at.off + 1, length, dw, pc))
      && Values(m2, CompositeData(at.seg, at.off + 1, length, dw, pc)) == Values(s1, CompositeData(from.seg, from.off, length, dw, pc))
    ensures Kept(m0, m3) && Has(m3, d) && Fitting(m3, at) && Has(m3, at) && At(m3, at) == tag
    ensures forall l :: Has(m0, l) ==> Has(m2, l) && Has(m3, l)
    ensures HasAll(m3, CompositeData(at.seg, at.off + 1, length, dw, pc))
    ensures Values(m3, CompositeData(at.seg, at.off + 1, length, dw, pc)) == Values(s1, CompositeData(from.seg, from.off, length, dw, pc))
  {
    var ds, data := CompositeKids(at.seg, at.off + 1, length, dw, pc), CompositeData(at.seg, at.off + 1, length, dw, pc);
    KeptFresh(m0, m2, m3, ds);
    if at in ds {
      KidsInside(at.seg, at.off + 1, length, dw, pc, at);
    }
    if dw == 0 {
      KidsShift(at.seg, at.off + 1, at.seg, at.off + 1, length, dw, pc);
      KidsShift(from.seg, from.off, at.seg, at.off + 1, length, dw, pc);
    } else {
      forall l | l in data
        ensures SameAt(m2, m3, l)
      {
        DataIsNoKid(at.seg, at.off + 1, length, dw, pc, l);
      }
      ValuesSame(m2, m3, data);
    }
  }

  lemma CompositeLength(mem: Mem, at: Loc, words: nat)
    requires Valid(mem) && at.seg < |mem.segs| && at.off + words + 1 <= mem.segs[at.seg].used
    ensures words < 0x2000_0000
  {
    assert ValidSeg(mem.segs[at.seg]);
  }

  lemma NothingKept(mem: Mem)
    ensures Kept(mem, mem)
  {
  }

  lemma KeptRoom(mt: Mem, m2: Mem, at: Loc, content: Loc, words: nat)
    requires mt == m2 || KeptBut(mt, m2, Range(content.seg, content.off, words))
    requires at.seg < |mt.segs|
    ensures at.seg < |m2.segs| && mt.segs[at.seg].used <= m2.segs[at.seg].used
  {
  }

  // ---------------------------------------------------------------------------------------------
  // What a copy leaves as it was

  /** A tree that shares no word with what the destination led to reads the same after the copy, and the
      same words make it up. */
  lemma OtherTreesStay(m0: Mem, m1: Mem, caps: Caps, caps': Caps, d: Loc, k: nat, q: Loc, n: nat)
    requires KeptOutside(m0, m1, d, k) && caps <= caps' && Read(m0, caps, q, n).Some?
    requires forall l :: Touches(m0, q, n, l) ==> !Touches(m0, d, k, l)
    ensures Read(m1, caps', q, n) == Read(m0, caps, q, n)
    ensures forall l :: Touches(m1, q, n, l) == Touches(m0, q, n, l)
  {
    forall l | Touches(m0, q, n, l)
      ensures SameAt(m0, m1, l)
    {
      TouchesAllocated(m0, caps, q, n, l);
    }
    hide Read, Touches;
    ReadSame(m0, m1, caps, caps', q, n);
  }

  /** After a copy within a message the source reads as the copy does, and the two share no word: changing
      one does not change the other. */
  lemma CopyStandsAlone(m0: Mem, m1: Mem, caps: Caps, caps': Caps, s: Loc, d: Loc, n: nat, k: nat)
    requires KeptOutside(m0, m1, d, k) && caps <= caps' && Read(m0, caps, s, n).Some?
    requires Touches(m0, d, k, d) && forall l :: Touches(m0, s, n, l) ==> !Touches(m0, d, k, l)
    requires Built(m0, m1, caps', d, n, Read(m0, caps, s, n).value)
    ensures Read(m1, caps', d, n) == Read(m1, caps', s, n) == Read(m0, caps, s, n)
    ensures forall l :: Touches(m1, s, n, l) ==> !Touches(m1, d, n, l)
  {
    OtherTreesStay(m0, m1, caps, caps', d, k, s, n);
    forall l | Touches(m1, s, n, l)
      ensures !Touches(m1, d, n, l)
    {
      TouchesAllocated(m0, caps, s, n, l);
    }
  }
}
