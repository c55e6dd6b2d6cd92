/**
 A message that is being built, updated in place: allocation, pointer initialisation, erasure, deep copy
 and relocation (src/serialization/segment.ts, message.ts, pointers/pointer.utils.ts,
 pointers/struct.utils.ts, pointers/list/list.ts).  A result that says no stands for an exception.
 */
module MessageObject {
  import opened Options
  import opened Memory
  import opened Trees
  import opened Room
  import opened Placement
  import opened Erasing
  import opened Copying
  import opened Resizing
  import opened Initial
  import opened Layout

  class Message {
    var mem: Mem
    var caps: Caps

    ghost predicate Ok()
      reads this
    {
      Valid(mem)
    }

    /** A message whose first segment holds the root pointer. */
    constructor (single: bool)
      ensures Ok() && Has(mem, Loc(0, 0)) && At(mem, Loc(0, 0)) == ZERO && caps == []
      ensures mem == Mem([Seg(Zeros(DEFAULT_BUFFER_SIZE), 1)], single)
    {
      mem, caps := Mem([Seg(Zeros(DEFAULT_BUFFER_SIZE), 1)], single), [];
    }

    // -------------------------------------------------------------------------------------------
    // Allocation

    /** Make room for `n` words: a larger buffer for the only segment, or another segment. */
    method AllocateSegment(n: nat) returns (seg: Option<nat>)
      requires Ok()
      modifies `mem
      ensures seg.None? ==> mem == old(mem)
      ensures seg.Some? ==>
        mem == old(mem).(segs := if mem.single then [Regrown(old(mem).segs[0], n)] else old(mem).segs + [Appended(n)])
      ensures seg.Some? <==>
        if old(mem).single then |Regrown(old(mem).segs[0], n).words| < LIMIT
        else |Appended(n).words| < LIMIT && |old(mem).segs| + 1 < TWO_32
      ensures seg.Some? ==> seg.value == if mem.single then 0 else |old(mem).segs|
    {
      if mem.single {
        var minSize := if n < MIN_SINGLE_SEGMENT_GROWTH then MIN_SINGLE_SEGMENT_GROWTH else n;
        var s := mem.segs[0];
        if |s.words| + minSize >= LIMIT {
          return None;
        }
        mem := mem.(segs := [s.(words := s.words + Zeros(minSize))]);
        seg := Some(0);
      } else {
        var size := if DEFAULT_BUFFER_SIZE < n then n else DEFAULT_BUFFER_SIZE;
        if size >= LIMIT || |mem.segs| + 1 >= TWO_32 {
          return None;
        }
        mem := mem.(segs := mem.segs + [Seg(Zeros(size), 0)]);
        seg := Some(|mem.segs| - 1);
      }
    }

    /** Allocate words in a segment, or elsewhere when it is full. */
    method Allocate(seg: nat, n: nat) returns (at: Option<Loc>)
      requires Ok() && seg < |mem.segs|
      modifies `mem
      ensures at.None? ==> mem == old(mem)
      ensures Alloc(old(mem), seg, n) == if at.None? then None else Some((mem, at.value))
      ensures at.None? <==> old(|mem.segs[seg].words| - mem.segs[seg].used) < n && Cramped(old(mem), n)
    {
      AllocFailsIff(mem, seg, n);
      if 8 * n > MAX_SEGMENT_LENGTH - 8 {
        return None;
      }
      ghost var before := mem;
      assert ValidSeg(mem.segs[seg]) && ValidSeg(mem.segs[0]);
      var id := seg;
      if |mem.segs[id].words| - mem.segs[id].used < n {
        var added := AllocateSegment(n);
        if added.None? {
          return None;
        }
        id := added.value;
      }
      var s := mem.segs[id];
      mem := mem.(segs := mem.segs[id := s.(used := s.used + n)]);
      at := Some(Loc(id, s.used));
      assert before.single ==> mem.segs == before.segs[0 := mem.segs[0]];
      assert !before.single && id != seg ==> mem.segs == before.segs + [mem.segs[id]];
    }

    method SetWord(l: Loc, w: Word)
      requires Ok() && Has(mem, l)
      modifies `mem
      ensures mem == Put(old(mem), l, w) && Ok()
    {
      PutKeeps(mem, l, w);
      var s := mem.segs[l.seg];
      mem := mem.(segs := mem.segs[l.seg := s.(words := s.words[l.off := w])]);
    }

    // -------------------------------------------------------------------------------------------
    // Pointers

    /** Prepare `p` to point at content: in place when the content is in the same segment, through a
        landing pad allocated in the content's segment when that has room for one, and otherwise through
        a double landing pad. */
    method InitPointer(content: Loc, p: Loc) returns (r: Option<Slot>)
      requires Ok() && Has(mem, p) && Fitting(mem, content)
      modifies `mem
      ensures Ok() && KeptBut(old(mem), mem, [p])
      ensures r.Some? ==> Leads(mem, p, content, r.value)
      ensures r.Some? ==> forall l :: l in r.value.pads ==> !Has(old(mem), l)
      ensures r.Some? && r.value.pads == [] ==> mem == old(mem)
      ensures r.None? ==> Cramped(mem, 2)
    {
      hide Leads, KeptBut, Alloc;
      KeptItself(mem, p);
      if p.seg != content.seg {
        if |mem.segs[content.seg].words| - mem.segs[content.seg].used < 1 {
          var pad := Allocate(p.seg, 2);
          if pad.None? {
            return None;
          }
          var at := pad.value;
          var second := Loc(at.seg, at.off + 1);
          DoubleFar(old(mem), content, p, mem, at);
          SetWord(p, FarWord(true, at.off, at.seg));
          SetWord(at, FarWord(false, content.off, content.seg));
          return Some(Slot(second, 0, [at, second]));
        }
        var pad := Allocate(content.seg, 1);
        if pad.None? {
          return None;
        }
        var at := pad.value;
        SingleFar(old(mem), content, p, mem, at);
        SetWord(p, FarWord(false, at.off, at.seg));
        return Some(Slot(at, content.off - at.off - 1, [at]));
      }
      InPlace(mem, content, p);
      r := Some(Slot(p, content.off - p.off - 1, []));
    }

    // -------------------------------------------------------------------------------------------
    // Erasing

    /** Fill words with zeros; throws when one is not in its buffer. */
    method ZeroWords(ls: seq<Loc>, ghost n: nat) returns (ok: bool)
      requires Ok()
      modifies `mem
      ensures Ok() && SameShape(old(mem), mem)
      ensures ok <==> forall l :: l in ls ==> Fits(old(mem), l)
      ensures ok ==> Erased(old(mem), mem, ls, [], n)
    {
      ghost var before := mem;
      for k := 0 to |ls|
        invariant Ok() && Erased(before, mem, ls[..k], [], n)
        invariant forall l :: l in ls[..k] ==> Fits(before, l)
      {
        if ls[k].seg >= |mem.segs| || ls[k].off >= |mem.segs[ls[k].seg].words| {
          assert ls[k] in ls;
          return false;
        }
        assert ls[..k + 1] == ls[..k] + [ls[k]];
        ZeroKeeps(mem, ls[k]);
        mem := Put(mem, ls[k], ZERO);
      }
      assert ls[..|ls|] == ls;
      ok := true;
    }

    /** Set a pointer and the landing pads it leads through to zero. */
    method ErasePointer(p: Loc, ghost n: nat) returns (ok: bool)
      requires Ok() && Has(mem, p)
      modifies `mem
      ensures Ok() && SameShape(old(mem), mem)
      ensures TargetOf(old(mem), p).Some? ==> ok && Erased(old(mem), mem, [p] + TargetOf(old(mem), p).value.pads, [], n)
    {
      hide Erased;
      var w := At(mem, p);
      ghost var m0 := mem;
      var path := [p];
      if TypeOf(w) == FAR {
        var pad := Loc(w.hi, w.lo / 8);
        path := if IsDouble(w) then [Loc(pad.seg, pad.off + 1), pad, p] else [pad, p];
      }
      ok := ZeroWords(path, n);
      if ok && TargetOf(m0, p).Some? {
        ErasedInAnyOrder(m0, mem, path, [p] + TargetOf(m0, p).value.pads, n);
      }
    }

    /** Erase what a pointer leads to, and the pointer.  On any memory whatever this ends, at the depth
        limit if not before; a tree whose parts are apart and which is not too deep is wiped, and nothing
        else changes. */
    method Erase(p: Loc, depth: nat, ghost n: nat) returns (ok: bool)
      requires Ok()
      modifies `mem
      ensures Ok() && SameShape(old(mem), mem)
      ensures Apart(old(mem), p, n) && depth > n ==> ok
      ensures ok && Apart(old(mem), p, n) ==> ErasedTree(old(mem), mem, p, n)
      ensures ok ==> Has(mem, p)
      decreases depth, 0
    {
      hide Erased, ErasedTree, Apart, ApartAll, ObjectAt, TargetOf;
      ghost var m0 := mem;
      ghost var apart := Apart(m0, p, n);
      if apart {
        ApartParts(m0, p, n);
      }
      if depth <= 0 || !(p.seg < |mem.segs| && p.off < mem.segs[p.seg].used) {
        return false;
      }
      assert ValidSeg(mem.segs[p.seg]);
      if At(mem, p) == ZERO {
        NullErased(mem, p, n);
        return true;
      }
      if TypeOf(At(mem, p)) == FAR && depth < 2 {
        return false;
      }
      var found := ObjectAt(mem, p);
      if found.None? {
        return false;
      }
      var o := found.value;
      ghost var m: nat := if n > 0 then n - 1 else 0;
      ErasedNothing(mem, m);
      var first := FirstErased(o);
      ok := ZeroWords(first, m);
      if !ok {
        return;
      }
      ghost var m1 := mem;
      if apart {
        KidsUnharmed(m0, m1, p, n, first);
      }
      ok := EraseAll(o.kids, depth - 1, m);
      if !ok {
        return;
      }
      ghost var m2 := mem;
      if apart {
        ErasedKids(m0, m1, m2, first, o.kids, m);
      }
      var content := if o.kind.KComposite? then o.data + o.kids else [];
      ok := ZeroWords(content, m);
      if !ok {
        return;
      }
      ghost var m3 := mem;
      if apart {
        ErasedMore(m0, m2, m3, first, content, o.kids, m);
        ContentErased(m0, m3, p, n, first + content);
      }
      ok := ErasePointer(p, m);
      if apart {
        ErasedMore(m0, m3, mem, first + content, [p] + TargetOf(m0, p).value.pads, o.kids, m);
        AllErased(m0, mem, p, n, first + content + ([p] + TargetOf(m0, p).value.pads));
      }
    }

    /** Erase pointers one after another. */
    method EraseAll(ps: seq<Loc>, depth: nat, ghost n: nat) returns (ok: bool)
      requires Ok()
      modifies `mem
      ensures Ok() && SameShape(old(mem), mem)
      ensures ApartAll(old(mem), ps, n) && depth > n ==> ok
      ensures ok && ApartAll(old(mem), ps, n) ==> Erased(old(mem), mem, [], ps, n)
      decreases depth, |ps| + 1
    {
      ghost var m0 := mem;
      for k := 0 to |ps|
        invariant Ok() && SameShape(m0, mem)
        invariant ApartAll(m0, ps, n) ==> ErasedSoFar(m0, mem, ps, k, n)
      {
        ghost var before := mem;
        if ApartAll(m0, ps, n) {
          NextIsApart(m0, mem, ps, k, n);
        }
        ok := Erase(ps[k], depth, n);
        if !ok {
          return;
        }
        if ApartAll(m0, ps, n) {
          ErasedOneMore(m0, before, mem, ps, k, n);
        }
      }
      assert ps[..|ps|] == ps;
      ok := true;
    }

    // -------------------------------------------------------------------------------------------
    // Deep copy

    /** Copy `n` words, one after another. */
    method CopyWords(src: Message, from: Loc, n: nat, at: Loc)
      requires Ok()
      requires forall l :: InRegion(from, n, l) ==> Has(src.mem, l)
      requires forall l :: InRegion(at, n, l) ==> Has(mem, l)
      requires src == this ==> forall l :: InRegion(from, n, l) ==> !InRegion(at, n, l)
      modifies `mem
      ensures Ok() && KeptBut(old(mem), mem, Range(at.seg, at.off, n))
      ensures forall l :: Has(mem, l) == Has(old(mem), l)
      ensures forall i :: 0 <= i < n ==> SameWord(old(src.mem), mem, from.seg, from.off, at.seg, at.off, i)
    {
      ghost var m0, s0 := mem, src.mem;
      ghost var to := Range(at.seg, at.off, n);
      for k := 0 to n
        invariant Ok() && KeptBut(m0, mem, to)
        invariant forall l :: Has(mem, l) == Has(m0, l)
        invariant forall i :: 0 <= i < k ==> SameWord(s0, mem, from.seg, from.off, at.seg, at.off, i)
        invariant forall l :: InRegion(from, n, l) ==> SameAt(s0, src.mem, l)
      {
        var l := Loc(at.seg, at.off + k);
        assert InRegion(from, n, Loc(from.seg, from.off + k)) && InRegion(at, n, l);
        assert to[k] == l && l in to;
        var w := At(src.mem, Loc(from.seg, from.off + k));
        PutKeeps(mem, l, w);
        ghost var before := mem;
        mem := Put(mem, l, w);
        forall i | 0 <= i < k + 1
          ensures SameWord(s0, mem, from.seg, from.off, at.seg, at.off, i)
        {
          if i < k {
            assert SameWord(s0, before, from.seg, from.off, at.seg, at.off, i);
          }
        }
      }
    }

    /** The source reads as a tree that shares no word with what the destination leads to. */
    ghost predicate Sound(src: Message, s: Loc, n: nat, d: Loc, k: nat)
      reads this, src
    {
      && Read(src.mem, src.caps, s, n).Some?
      && (src == this ==> forall l :: Touches(mem, s, n, l) ==> !Touches(mem, d, k, l))
    }

    /** Replace the pointer `d` by a deep copy of the pointer `s` of a message and of everything under it.
        What `d` led to is erased first.  On any source whatever, cyclic ones included, this ends, at the
        depth limit if not before, and touches nothing but the old tree and fresh words; from a sound
        source it builds the same tree, and it fails only at a depth limit or for want of room. */
    method CopyFrom(src: Message, s: Loc, sd: nat, d: Loc, dd: nat, ghost n: nat, ghost k: nat) returns (ok: bool)
      requires Ok() && src.Ok() && Apart(mem, d, k)
      modifies this
      ensures Ok() && old(caps) <= caps
      ensures src == this && s == d ==> ok && mem == old(mem) && caps == old(caps)
      ensures ok && !(src == this && s == d) ==> KeptOutside(old(mem), mem, d, k)
      ensures ok && !(src == this && s == d) && old(Sound(src, s, n, d, k)) ==>
        Built(old(mem), mem, caps, d, n, old(Read(src.mem, src.caps, s, n)).value)
      ensures !ok && old(Sound(src, s, n, d, k)) && dd > k ==>
        Excused(sd, dd, n, mem, caps, Widest(old(Read(src.mem, src.caps, s, n)).value))
      decreases dd, 2
    {
      hide Read, Touches, Built, Apart, ErasedTree, KeptOutside, ObjectAt, KeptBut, Widest, Cramped;
      if src == this && s == d {
        return true;
      }
      ghost var m0, good := mem, Sound(src, s, n, d, k);
      ghost var t := Read(src.mem, src.caps, s, n);
      ok := Erase(d, dd, k);
      if !ok {
        return;
      }
      ghost var m1 := mem;
      ErasedForCopy(m0, m1, d, k);
      if good && src == this {
        SourceSurvives(m0, m1, caps, s, d, n, k);
      }
      if good {
        ReadablePointer(src.mem, src.caps, s, n);
      }
      if !(s.seg < |src.mem.segs| && s.off < src.mem.segs[s.seg].used) {
        return false;
      }
      PointerFits(src.mem, s);
      if At(src.mem, s) == ZERO {
        if good {
          NullReads(src.mem, src.caps, s, n);
          NullBuilt(m0, m1, caps, d, n);
        }
        return true;
      }
      if TypeOf(At(src.mem, s)) == FAR && sd < 2 {
        return false;
      }
      var found := ObjectAt(src.mem, s);
      if found.None? {
        return false;
      }
      var o := found.value;
      match o.kind {
        case KStruct(_, _) => ok := CopyFromStruct(src, s, sd, d, dd, n, good);
        case KCap(_) => ok := CopyFromInterface(src, s, d, n, good);
        case _ => ok := CopyFromList(src, s, sd, d, dd, n, good);
      }
      if ok {
        CopyKept(m0, m1, mem, d, k);
        if good {
          CopyFinished(m0, m1, mem, caps, d, k, n, t.value);
        }
      }
    }

    /** Copy pointers one after another, clearing each destination first where the content was copied
        whole. */
    method CopyPointers(src: Message, ss: seq<Loc>, sd: nat, ds: seq<Loc>, dd: nat, clear: bool,
                        ghost n: nat, ghost good: bool) returns (ok: bool)
      requires Ok() && src.Ok() && |ss| == |ds| && HasAll(mem, ds) && Distinct(ds)
      requires !clear ==> forall l :: l in ds ==> At(mem, l) == ZERO
      requires good ==> ReadAll(src.mem, src.caps, ss, n).Some?
      requires good && src == this ==> forall l :: TouchesAny(mem, ss, n, l) ==> l !in ds
      modifies this
      ensures Ok() && old(caps) <= caps
      ensures ok ==> KeptBut(old(mem), mem, ds)
      ensures ok && good ==> BuiltAll(old(mem), mem, caps, ds, n, old(ReadAll(src.mem, src.caps, ss, n)).value)
      ensures !ok && good ==> Excused(sd, dd, n, mem, caps, WidestOf(old(ReadAll(src.mem, src.caps, ss, n)).value))
      decreases dd, 3
    {
      hide ReadAll, TouchesAny, Read, Touches, Built, BuiltAll, BuiltSoFar, Apart, KeptOutside, KeptBut, CopiedSoFar;
      hide Excused, Widest, WidestOf;
      ghost var m0, ts := mem, ReadAll(src.mem, src.caps, ss, n).GetOr([]);
      if |ss| > 0 && (sd < 1 || dd < 1) {
        if good {
          ReadKid(src.mem, src.caps, ss, n, 0);
          ReadablePointer(src.mem, src.caps, ss[0], n);
          DepthExcused(sd, dd, n, mem, caps, WidestOf(ts));
        }
        return false;
      }
      NothingCopied(m0, ds);
      if good {
        NothingBuilt(m0, caps, ds, n, ts);
      }
      for k := 0 to |ss|
        invariant Ok() && src.Ok() && old(caps) <= caps
        invariant CopiedSoFar(m0, mem, ds, k)
        invariant good ==> BuiltSoFar(m0, mem, caps, ds, k, n, ts) && ReadAll(src.mem, src.caps, ss, n) == Some(ts)
        invariant good && src == this ==> forall l :: TouchesAny(mem, ss, n, l) ==> l !in ds
      {
        var d := ds[k];
        ghost var m1, c1 := mem, caps;
        NextPointer(m0, mem, ds, k);
        if clear {
          PutKeeps(mem, d, ZERO);
          SetWord(d, ZERO);
          if good && src == this {
            SourceStays(m1, mem, caps, caps, ss, [d], n);
          }
        }
        ghost var m2 := mem;
        NullIsApart(mem, d, 1);
        if good {
          ReadKid(src.mem, src.caps, ss, n, k);
          if src == this {
            KidApart(mem, ss, n, k, ds, d);
            SourceApart(mem, caps, ss, n, k, ds, d);
          }
        }
        if src == this && ss[k] == d {
          NullStaysNull(mem, d);
        }
        ghost var m2s, c2s := src.mem, src.caps;
        ok := CopyFrom(src, ss[k], sd, d, dd, n, 1);
        if !ok {
          if good {
            ReadablePointer(m2s, c2s, ss[k], n);
            KidExcused(sd, dd, n, mem, caps, ts, k);
          }
          return;
        }
        PointerCopied(m0, m1, m2, mem, ds, k);
        if good {
          if src == this {
            SourceStays(m2, mem, c1, caps, ss, [d], n);
          }
          PointersStep(m0, m1, m2, mem, c1, caps, ds, k, n, ts);
        }
      }
      AllCopied(m0, mem, ds);
      if good {
        AllBuilt(m0, mem, caps, ds, n, ts);
      }
      ok := true;
    }

    /** What copying an object starts from: a null destination, and an object that is not null.  `good`
        says that the object is readable and does not use the destination. */
    ghost predicate CopyReady(src: Message, s: Loc, d: Loc, n: nat, good: bool)
      reads this, src
    {
      && Ok() && src.Ok() && Has(mem, d) && At(mem, d) == ZERO
      && Has(src.mem, s) && At(src.mem, s) != ZERO && ObjectAt(src.mem, s).Some?
      && (good ==> Read(src.mem, src.caps, s, n).Some? && (src == this ==> !Touches(mem, s, n, d)))
    }

    method CopyFromInterface(src: Message, s: Loc, d: Loc, ghost n: nat, ghost good: bool) returns (ok: bool)
      requires CopyReady(src, s, d, n, good) && ObjectAt(src.mem, s).value.kind.KCap?
      modifies this
      ensures Ok() && old(caps) <= caps
      ensures ok ==> KeptBut(old(mem), mem, [d])
      ensures ok && good ==> Built(old(mem), mem, caps, d, n, old(Read(src.mem, src.caps, s, n)).value)
      ensures !ok ==> |caps| >= TWO_32 - 1
    {
      hide Built;
      if good {
        CapReads(src.mem, src.caps, s, n);
      }
      var capId := At(src.mem, s).hi;
      if capId >= |src.caps| || src.caps[capId].None? {
        KeptItself(mem, d);
        if good {
          NullBuilt(mem, mem, caps, d, n);
        }
        return true;
      }
      if |caps| >= TWO_32 - 1 {
        return false;
      }
      ghost var m0 := mem;
      var client := src.caps[capId];
      caps := caps + [client];
      PutKeeps(mem, d, CapWord(|caps| - 1));
      SetWord(d, CapWord(|caps| - 1));
      if good {
        CapBuilt(m0, mem, caps, d, n);
      }
      ok := true;
    }

    method CopyFromStruct(src: Message, s: Loc, sd: nat, d: Loc, dd: nat, ghost n: nat, ghost good: bool) returns (ok: bool)
      requires CopyReady(src, s, d, n, good) && ObjectAt(src.mem, s).value.kind.KStruct?
      modifies this
      ensures Ok() && old(caps) <= caps
      ensures ok ==> KeptBut(old(mem), mem, [d])
      ensures ok && good ==> Built(old(mem), mem, caps, d, n, old(Read(src.mem, src.caps, s, n)).value)
      ensures !ok && good ==> Excused(sd, dd, n, mem, caps, Widest(old(Read(src.mem, src.caps, s, n)).value))
      decreases dd, 1
    {
      hide Read, ReadAll, Touches, TouchesAny, Built, BuiltAll, ObjectAt, TargetOf, Alloc, KeptBut;
      hide Excused, Widest, WidestOf, Cramped;
      hide InRegion, SameWord, Fitting, Values, HasAll;
      ghost var m0, s0 := mem, src.mem;
      ghost var m: nat := if n > 0 then n - 1 else 0;
      ObjectParts(src.mem, s);
      var o, t := ObjectAt(src.mem, s).value, TargetOf(src.mem, s).value;
      if good {
        ReadableObject(src.mem, src.caps, s, n);
      }
      ghost var tree := Read(src.mem, src.caps, s, n).GetOr(NULL);
      if dd <= 0 || !HasAll(src.mem, o.data) {
        DepthExcused(sd, dd, n, mem, caps, Widest(tree));
        return false;
      }
      var dw, pc := o.kind.dataWords, o.kind.pointers;
      var from := Loc(t.seg, t.off);
      ghost var ts := ReadAll(src.mem, src.caps, o.kids, m).GetOr([]);
      var room := Allocate(d.seg, dw + pc);
      if room.None? {
        if good {
          NodeExcused(sd, dd, n, mem, caps, tree);
        }
        return false;
      }
      var at := room.value;
      ghost var m1 := mem;
      AllocIsSafe(m0, d.seg, dw + pc);
      if src == this {
        DataStays(m0, m1, o.data);
      }
      ghost var s1 := src.mem;
      RangeHas(s0, from, dw);
      StructRoom(m0, m1, s1, d, at, from, dw, pc);
      CopyWords(src, from, dw, at);
      ghost var m2 := mem;
      StructCopied(m0, m1, m2, s1, at, from, dw, pc);
      var ds := Range(at.seg, at.off + dw, pc);
      if good && src == this {
        SourceKids(m0, m2, caps, s, n, ds);
      }
      ok := CopyPointers(src, o.kids, if sd > 0 then sd - 1 else 0, ds, dd - 1, false, m, good);
      if !ok {
        if good {
          NodeExcused(sd, dd, n, mem, caps, tree);
        }
        return;
      }
      ghost var m3 := mem;
      StructFilled(m0, m2, m3, s1, d, at, from, dw, pc);
      SizesFit(t.word);
      ok := FinishStruct(at, d, dw, pc, m0, m2, n, Values(s1, o.data), ts, good);
      if !ok && good {
        NodeExcused(sd, dd, n, mem, caps, tree);
      }
    }

    /** Write the pointer to a struct whose content is in place. */
    method FinishStruct(at: Loc, d: Loc, dw: nat, pc: nat, ghost m0: Mem, ghost m1: Mem,
                        ghost n: nat, ghost ws: seq<Word>, ghost ts: seq<Tree>, ghost good: bool) returns (ok: bool)
      requires Ok() && Has(m0, d) && Has(mem, d) && Fitting(mem, at) && Kept(m0, mem)
      requires dw < 0x1_0000 && pc < 0x1_0000
      requires forall l :: InRegion(at, dw + pc, l) ==> !Has(m0, l)
      requires forall l :: Has(m0, l) ==> Has(m1, l) && Has(mem, l)
      requires HasAll(mem, Range(at.seg, at.off, dw)) && Values(mem, Range(at.seg, at.off, dw)) == ws
      requires good ==> n > 0 && BuiltAll(m1, mem, caps, Range(at.seg, at.off + dw, pc), n - 1, ts)
      modifies `mem
      ensures Ok()
      ensures ok ==> KeptBut(m0, mem, [d])
      ensures !ok ==> Cramped(mem, 2)
      ensures ok && good ==> Built(m0, mem, caps, d, n, Node(KStruct(dw, pc), ws, ts))
    {
      hide Cramped, Leads, KeptBut, NearWord, StructHi, Built, BuiltAll;
      ghost var m3 := mem;
      var r := InitPointer(at, d);
      if r.None? {
        return false;
      }
      var slot := r.value;
      FittingStays(m3, mem, d, at);
      ghost var w := NearWord(STRUCT, slot.offset, StructHi(dw, pc));
      StoreKeeps(m3, mem, d, at, slot, w);
      if good {
        StructBuilt(m0, m1, m3, mem, caps, d, at, slot, dw, pc, n, ws, ts);
      }
      SetWord(slot.target, NearWord(STRUCT, slot.offset, StructHi(dw, pc)));
      FreshThen(m0, m3, mem, d);
      ok := true;
    }

    method CopyFromList(src: Message, s: Loc, sd: nat, d: Loc, dd: nat, ghost n: nat, ghost good: bool) returns (ok: bool)
      requires CopyReady(src, s, d, n, good)
      requires !ObjectAt(src.mem, s).value.kind.KStruct? && !ObjectAt(src.mem, s).value.kind.KCap?
      modifies this
      ensures Ok() && old(caps) <= caps
      ensures ok ==> KeptBut(old(mem), mem, [d])
      ensures ok && good ==> Built(old(mem), mem, caps, d, n, old(Read(src.mem, src.caps, s, n)).value)
      ensures ok && good && old(ObjectAt(src.mem, s)).value.kind.KList? ==>
        ElementsCopied(old(src.mem), s, mem, d, old(ObjectAt(src.mem, s)).value.kind)
      ensures !ok && good ==> Excused(sd, dd, n, mem, caps, Widest(old(Read(src.mem, src.caps, s, n)).value))
      decreases dd, 1
    {
      hide Read, Touches, Built, ObjectAt, KeptBut, Full, Widest, ElementsCopied;
      ghost var m0, s0, caps0 := mem, src.mem, src.caps;
      if dd <= 0 {
        return false;
      }
      var o := ObjectAt(src.mem, s).value;
      if o.kind.KPointers? {
        ok := CopyPointerList(src, s, sd, d, dd, n, good);
      } else if o.kind.KComposite? {
        ok := CopyCompositeList(src, s, sd, d, dd, n, good);
      } else {
        ok := CopyPlainList(src, s, d, n, good);
        if ok && good {
          CopiedElements(m0, s0, caps0, s, mem, caps, d, n);
        }
      }
    }

    method CopyPointerList(src: Message, s: Loc, sd: nat, d: Loc, dd: nat, ghost n: nat, ghost good: bool) returns (ok: bool)
      requires dd > 0
      requires CopyReady(src, s, d, n, good) && ObjectAt(src.mem, s).value.kind.KPointers?
      modifies this
      ensures Ok() && old(caps) <= caps
      ensures ok ==> KeptBut(old(mem), mem, [d])
      ensures ok && good ==> Built(old(mem), mem, caps, d, n, old(Read(src.mem, src.caps, s, n)).value)
      ensures !ok && good ==> Excused(sd, dd, n, mem, caps, Widest(old(Read(src.mem, src.caps, s, n)).value))
      decreases dd, 0
    {
      hide Read, ReadAll, Touches, TouchesAny, Built, BuiltAll, ObjectAt, TargetOf, Alloc, KeptBut;
      hide Excused, Widest, WidestOf, Cramped;
      ghost var m0 := mem;
      ghost var m: nat := if n > 0 then n - 1 else 0;
      ObjectParts(src.mem, s);
      var o, t := ObjectAt(src.mem, s).value, TargetOf(src.mem, s).value;
      var length := o.kind.length;
      if good {
        ReadableObject(src.mem, src.caps, s, n);
      }
      ghost var tree := Read(src.mem, src.caps, s, n).GetOr(NULL);
      ghost var ts := ReadAll(src.mem, src.caps, o.kids, m).GetOr([]);
      var room := Allocate(d.seg, length);
      if room.None? {
        if good {
          NodeExcused(sd, dd, n, mem, caps, tree);
        }
        return false;
      }
      var at := room.value;
      ghost var m1 := mem;
      AllocIsSafe(m0, d.seg, length);
      var ds := Range(at.seg, at.off, length);
      FreshPointers(m0, m1, at, length, ds);
      if good && src == this {
        SourceKids(m0, m1, caps, s, n, ds);
      }
      ok := CopyPointers(src, o.kids, if sd > 0 then sd - 1 else 0, ds, dd - 1, false, m, good);
      if !ok {
        if good {
          NodeExcused(sd, dd, n, mem, caps, tree);
        }
        return;
      }
      FreshFilled(m0, m1, mem, d, at, ds);
      SizesFit(t.word);
      NoData(mem);
      ok := FinishList(at, d, POINTERS, length, m0, m1, KPointers(length), n, [], ts, good);
      if !ok && good {
        NodeExcused(sd, dd, n, mem, caps, tree);
      }
    }

    method CopyPlainList(src: Message, s: Loc, d: Loc, ghost n: nat, ghost good: bool) returns (ok: bool)
      requires CopyReady(src, s, d, n, good) && ObjectAt(src.mem, s).value.kind.KList?
      modifies this
      ensures Ok() && old(caps) <= caps
      ensures ok ==> KeptBut(old(mem), mem, [d])
      ensures ok && good ==> Built(old(mem), mem, caps, d, n, old(Read(src.mem, src.caps, s, n)).value)
      ensures !ok && good ==> Full(mem, caps, Widest(old(Read(src.mem, src.caps, s, n)).value))
    {
      hide Read, ReadAll, Touches, TouchesAny, Built, BuiltAll, ObjectAt, TargetOf, Alloc, KeptBut;
      hide Widest, WidestOf, Cramped;
      ghost var m0, s0 := mem, src.mem;
      ghost var m: nat := if n > 0 then n - 1 else 0;
      ObjectParts(src.mem, s);
      var o, t := ObjectAt(src.mem, s).value, TargetOf(src.mem, s).value;
      if good {
        ReadableObject(src.mem, src.caps, s, n);
      }
      ghost var tree := Read(src.mem, src.caps, s, n).GetOr(NULL);
      if !HasAll(src.mem, o.data) {
        return false;
      }
      var size, length := o.kind.size, o.kind.length;
      var wordLength := ListWords(size, length);
      var from := Loc(t.seg, t.off);
      var room := Allocate(d.seg, wordLength);
      if room.None? {
        if good {
          NodeFull(mem, caps, tree);
        }
        return false;
      }
      var at := room.value;
      ghost var m1 := mem;
      AllocIsSafe(m0, d.seg, wordLength);
      if src == this {
        DataStays(m0, m1, o.data);
      }
      ghost var s1 := src.mem;
      RangeHas(s0, from, wordLength);
      RangeHas(s1, from, wordLength);
      AllocatedBefore(m0, m1, at, wordLength);
      CopyWords(src, from, wordLength, at);
      ghost var m3 := mem;
      ghost var ls := Range(at.seg, at.off, wordLength);
      RangeCopied(s1, m3, from, at, wordLength);
      FreshFilled(m0, m1, m3, d, at, ls);
      SizesFit(t.word);
      NoneBuilt(m1, m3, caps, m);
      NoneRead(s0, src.caps, m);
      ok := FinishList(at, d, size, length, m0, m1, o.kind, n, Values(s1, o.data), [], good);
      if !ok && good {
        NodeFull(mem, caps, tree);
      }
    }

    method CopyCompositeList(src: Message, s: Loc, sd: nat, d: Loc, dd: nat, ghost n: nat, ghost good: bool) returns (ok: bool)
      requires dd > 0
      requires CopyReady(src, s, d, n, good) && ObjectAt(src.mem, s).value.kind.KComposite?
      modifies this
      ensures Ok() && old(caps) <= caps
      ensures ok ==> KeptBut(old(mem), mem, [d])
      ensures ok && good ==> Built(old(mem), mem, caps, d, n, old(Read(src.mem, src.caps, s, n)).value)
      ensures !ok && good ==> Excused(sd, dd, n, mem, caps, Widest(old(Read(src.mem, src.caps, s, n)).value))
      decreases dd, 0
    {
      hide Read, ReadAll, Touches, TouchesAny, Built, BuiltAll, ObjectAt, TargetOf, Alloc, Leads, KeptBut;
      hide Excused, Widest, WidestOf, Cramped;
      hide CompositeKids, CompositeData, OffsetOf, DataWords, PointerCount, ElementSize, ListLength;
      ghost var m0, s0 := mem, src.mem;
      ghost var m: nat := if n > 0 then n - 1 else 0;
      ObjectParts(src.mem, s);
      var o, t := ObjectAt(src.mem, s).value, TargetOf(src.mem, s).value;
      var length, dw, pc := o.kind.length, o.kind.dataWords, o.kind.pointers;
      var words := (dw + pc) * length;
      ghost var tree := Read(src.mem, src.caps, s, n).GetOr(NULL);
      if good {
        ReadableObject(src.mem, src.caps, s, n);
        ReadableAreAllocated(src.mem, src.caps, o.kids, m);
      }
      if !HasAll(src.mem, o.data) || (dw > 0 && !HasAll(src.mem, o.kids)) {
        return false;
      }
      ghost var ts := ReadAll(src.mem, src.caps, o.kids, m).GetOr([]);
      ghost var tag := At(src.mem, Loc(t.seg, t.off));
      var room := CopyContent(src, s, d);
      if room.None? {
        if good {
          NodeExcused(sd, dd, n, mem, caps, tree);
        }
        return false;
      }
      var at := room.value;
      ghost var m2 := mem;
      var ds := CompositeKids(at.seg, at.off + 1, length, dw, pc);
      KidsShift(t.seg, t.off + 1, at.seg, at.off + 1, length, dw, pc);
      KidsDistinct(at.seg, at.off + 1, length, dw, pc);
      if good && src == this {
        SourceKids(m0, m2, caps, s, n, ds);
      }
      ok := CopyPointers(src, o.kids, if sd > 0 then sd - 1 else 0, ds, dd - 1, true, m, good);
      if !ok {
        if good {
          NodeExcused(sd, dd, n, mem, caps, tree);
        }
        return;
      }
      ghost var m3 := mem;
      CompositeFilled(m0, m2, m3, s0, d, at, Loc(t.seg, t.off + 1), length, dw, pc, tag);
      ok := FinishList(at, d, COMPOSITE, words, m0, m2, o.kind, n, Values(s0, o.data), ts, good);
      if !ok && good {
        NodeExcused(sd, dd, n, mem, caps, tree);
      }
    }

    /** Write the pointer to a list whose content is in place. */
    method FinishList(at: Loc, d: Loc, size: nat, length: nat, ghost m0: Mem, ghost m1: Mem, ghost kind: Kind,
                      ghost n: nat, ghost ws: seq<Word>, ghost ts: seq<Tree>, ghost good: bool) returns (ok: bool)
      requires Ok() && Has(m0, d) && Has(mem, d) && at != d && Fitting(mem, at) && Kept(m0, mem) && size < 8
      requires ListShape(mem, at, size, length, kind) && (kind.KComposite? ==> !Has(m0, at))
      requires forall l :: l in ListData(kind, at) || l in ListKids(kind, at) ==> !Has(m0, l)
      requires forall l :: Has(m0, l) ==> Has(m1, l) && Has(mem, l)
      requires HasAll(mem, ListData(kind, at)) && Values(mem, ListData(kind, at)) == ws
      requires good ==> n > 0 && BuiltAll(m1, mem, caps, ListKids(kind, at), n - 1, ts)
      modifies `mem
      ensures Ok()
      ensures ok ==> KeptBut(m0, mem, [d])
      ensures !ok ==> Cramped(mem, 2)
      ensures ok && good ==> Built(m0, mem, caps, d, n, Node(kind, ws, ts))
    {
      hide Cramped, Leads, KeptBut, NearWord, ListHi, Built, BuiltAll, ListShape, ListData, ListKids;
      ghost var m3 := mem;
      var r := InitPointer(at, d);
      if r.None? {
        return false;
      }
      var slot := r.value;
      FittingStays(m3, mem, d, at);
      StoreKeeps(m3, mem, d, at, slot, NearWord(LIST, slot.offset, ListHi(size, length)));
      if good {
        ListBuilt(m0, m1, m3, mem, caps, d, at, slot, size, length, kind, n, ws, ts);
      }
      SetWord(slot.target, NearWord(LIST, slot.offset, ListHi(size, length)));
      FreshThen(m0, m3, mem, d);
      ok := true;
    }

    /** Make room for a composite list, copy its tag, and copy its content whole if it has data. */
    method CopyContent(src: Message, s: Loc, d: Loc) returns (room: Option<Loc>)
      requires CopyReady(src, s, d, 0, false) && ObjectAt(src.mem, s).value.kind.KComposite?
      requires
        var o := ObjectAt(src.mem, s).value;
        HasAll(src.mem, o.data) && (o.kind.dataWords > 0 ==> HasAll(src.mem, o.kids))
      modifies `mem
      ensures Ok() && Kept(old(mem), mem)
      ensures room.None? ==> Cramped(mem, WordsOf(old(ObjectAt(src.mem, s)).value.kind))
      ensures room.Some? ==>
        var o, t, at := old(ObjectAt(src.mem, s).value), old(TargetOf(src.mem, s).value), room.value;
        var length, dw, pc := o.kind.length, o.kind.dataWords, o.kind.pointers;
        && Has(mem, at) && !Has(old(mem), at) && At(mem, at) == At(old(src.mem), Loc(t.seg, t.off)) && Fitting(mem, at)
        && at.off + (dw + pc) * length + 1 <= mem.segs[at.seg].used && (dw + pc) * length < 0x2000_0000
        && CompositeInPlace(old(mem), mem, at, length, dw, pc)
        && (dw > 0 ==>
              && HasAll(mem, CompositeData(at.seg, at.off + 1, length, dw, pc))
              && Values(mem, CompositeData(at.seg, at.off + 1, length, dw, pc)) == Values(old(src.mem), o.data))
    {
      hide Cramped, Read, Touches, ObjectAt, TargetOf, Alloc, KeptBut, CompositeKids, CompositeData;
      hide CompositeInPlace, Values, HasAll, Kept, Fitting, InRegion, Range, SameWord;
      ghost var m0, s0 := mem, src.mem;
      ObjectParts(src.mem, s);
      var o, t := ObjectAt(src.mem, s).value, TargetOf(src.mem, s).value;
      var length, dw, pc := o.kind.length, o.kind.dataWords, o.kind.pointers;
      var words := (dw + pc) * length;
      assert WordsOf(o.kind) == words + 1;
      hide WordsOf;
      CompositeWordsIs(length, dw, pc);
      var tag := At(src.mem, Loc(t.seg, t.off));
      room := CopyTag(d.seg, words, tag);
      if room.None? {
        return;
      }
      ghost var mt := mem;
      var at := room.value;
      ghost var s1 := src.mem;
      if src == this {
        DataStays(m0, mt, o.data);
      }
      var from, content := Loc(t.seg, t.off + 1), Loc(at.seg, at.off + 1);
      if dw > 0 {
        ContentHas(s0, o, from, length, dw, pc);
        ContentRoom(m0, mt, s0, from, content, words, src == this);
        CopyWords(src, from, words, content);
      }
      CompositeCopied(m0, mt, mem, s1, at, at.off + 1, from, length, dw, pc, tag);
      KeptRoom(mt, mem, at, content, words);
    }

    /** Make room for a composite list of so many words, and write its tag. */
    method CopyTag(seg: nat, words: nat, tag: Word) returns (room: Option<Loc>)
      requires Ok() && seg < |mem.segs|
      modifies `mem
      ensures Ok() && Kept(old(mem), mem)
      ensures room.None? ==> Cramped(mem, words + 1)
      ensures room.Some? ==>
        var at := room.value;
        && Has(mem, at) && !Has(old(mem), at) && At(mem, at) == tag && Fitting(mem, at)
        && at.off + words + 1 <= mem.segs[at.seg].used && words < 0x2000_0000
        && forall l :: InRegion(Loc(at.seg, at.off + 1), words, l) ==> Has(mem, l) && !Has(old(mem), l) && At(mem, l) == ZERO
    {
      hide Alloc, KeptBut, Cramped;
      ghost var m0 := mem;
      room := Allocate(seg, words + 1);
      if room.None? {
        NothingKept(mem);
        return;
      }
      AllocIsSafe(m0, seg, words + 1);
      CompositeLength(mem, room.value, words);
      TagRoom(m0, mem, room.value, words, tag);
      SetWord(room.value, tag);
    }

    // -------------------------------------------------------------------------------------------
    // Resizing

    /** Give a struct a body of another size, with the data and the content under the pointers it has room
        for, which may share words but do not lead back to the struct. */
    method Resize(dw: nat, pc: nat, s: Loc, ghost n: nat) returns (ok: bool)
      requires Ok() && n >= 2 && Detached(mem, s, n) && Read(mem, caps, s, n).Some? && ObjectAt(mem, s).value.kind.KStruct?
      requires dw < 0x1_0000 && pc < 0x1_0000
      modifies `mem
      ensures Ok()
      ensures ok ==> Resized(old(mem), mem, caps, s, n, dw, pc)
      ensures !ok ==> Cramped(mem, Max(dw + pc, 2))
    {
      hide Read, ReadAll, Touches, TouchesAny, ObjectAt, TargetOf, Alloc, KeptBut, Detached, Leads, NearWord, StructHi;
      hide Moved, MovedSoFar, Resized, Rehoused, Erased, Cramped;
      ghost var m0 := mem;
      ReadableObject(mem, caps, s, n);
      StructContent(mem, s);
      var o := ObjectAt(mem, s).value;
      var from := if At(mem, s) == ZERO then Loc(s.seg, s.off + 1) else Loc(TargetOf(mem, s).value.seg, TargetOf(mem, s).value.off);
      var room := Allocate(s.seg, dw + pc);
      if room.None? {
        CrampedForMore(mem, dw + pc, Max(dw + pc, 2));
        return false;
      }
      var at := room.value;
      ghost var m1 := mem;
      AllocIsSafe(m0, s.seg, dw + pc);
      var kept := Min(o.kind.dataWords, dw);
      RangeHas(m0, from, o.kind.dataWords);
      BodyRoom(m0, m1, at, from, kept, dw, pc);
      CopyWords(this, from, kept, at);
      ghost var m2 := mem;
      BodyCopied(m0, m1, m2, at, from, kept, dw, pc, o.data);
      BodyFits(m1, m2, at, Range(at.seg, at.off, kept), s, m0);
      var r := InitPointer(at, s);
      if r.None? {
        CrampedForMore(mem, 2, Max(dw + pc, 2));
        return false;
      }
      RehousedBy(m0, m2, mem, s, at, r.value, dw, pc);
      SetWord(r.value.target, NearWord(STRUCT, r.value.offset, StructHi(dw, pc)));
      var dks := Range(at.seg, at.off + dw, pc);
      ok := MovePointers(s, o, at, r.value.pads, dw, pc, dks, m0, m2, n);
      if !ok {
        CrampedForMore(mem, 2, Max(dw + pc, 2));
      }
    }

    /** Move the pointers to the new body and clear the old one. */
    method MovePointers(s: Loc, o: Object, at: Loc, ghost pads: seq<Loc>, dw: nat, pc: nat, dks: seq<Loc>,
                        ghost m0: Mem, ghost m2: Mem, ghost n: nat) returns (ok: bool)
      requires Ok() && n >= 2 && Detached(m0, s, n) && Read(m0, caps, s, n).Some? && ObjectAt(m0, s) == Some(o) && o.kind.KStruct?
      requires dks == Range(at.seg, at.off + dw, pc)
      requires Rehoused(m0, mem, s, at, dw, pc, pads) && KeptBut(m2, mem, [s]) && Kept(m0, m2) && HasAll(mem, pads)
      requires forall l :: l in pads ==> !Has(m2, l)
      requires
        var ls := Range(at.seg, at.off, dw);
        && HasAll(m2, ls) && HasAll(m2, dks) && Distinct(dks) && HasAll(m0, o.data)
        && (forall l :: l in ls || l in dks ==> !Has(m0, l)) && (forall l :: l in ls ==> l !in dks)
        && (forall l :: l in dks ==> At(m2, l) == ZERO)
        && Values(m2, ls) == Fit(Values(m0, o.data), dw, ZERO)
      modifies `mem
      ensures Ok()
      ensures ok ==> Resized(m0, mem, caps, s, n, dw, pc)
      ensures !ok ==> Cramped(mem, 2)
    {
      hide Read, ReadAll, Touches, TouchesAny, ObjectAt, TargetOf, KeptBut, Detached, Leads, NearWord;
      hide Moved, MovedSoFar, Resized, Rehoused, Erased, Cramped;
      hide IsCap, Values, HasAll, Kept, Fitting, Distinct, Fit;
      ghost var m1 := mem;
      ghost var ls := Range(at.seg, at.off, dw);
      ReadableObject(m0, caps, s, n);
      ghost var ts := ReadAll(m0, caps, o.kids, n - 1).value;
      NewBodyStands(m0, m2, m1, s, at, pads, ls, dks, dw, pc, n);
      NothingMoved(m0, m1, caps, s, o.kids, dks, n - 1, ts);
      for i := 0 to Min(|o.kids|, pc)
        invariant Ok() && MovedSoFar(m0, m1, mem, caps, s, o.kids, dks, i, n - 1, ts)
      {
        var sk, dk := o.kids[i], dks[i];
        ghost var mi := mem;
        SoFar(m0, m1, mem, caps, s, o.kids, dks, i, n - 1, ts);
        ReadKid(m0, caps, o.kids, n - 1, i);
        KidUntouched(m0, mem, caps, s, o, n, i);
        KidSource(m0, mem, caps, s, sk, n - 1);
        if At(mem, sk) == ZERO {
          MovedNull(m0, m1, mem, caps, sk, dk, n - 1);
          KeptItself(mem, dk);
        } else {
          var t := TargetOf(mem, sk).value;
          var r := InitPointer(Loc(t.seg, t.off), dk);
          if r.None? {
            return false;
          }
          FittingStays(mi, mem, dk, Loc(t.seg, t.off));
          if IsCap(m0, sk) {
            CapabilityIsLost(m0, m1, mi, mem, caps, sk, dk, r.value, n - 1, ts[i]);
          } else {
            MovedOne(m0, m1, mi, mem, caps, sk, dk, r.value, n - 1);
          }
          SetWord(r.value.target, NearWord(TypeOf(t.word), r.value.offset, t.word.hi));
        }
        MovedOneMore(m0, m1, mi, mem, caps, s, o.kids, dks, i, n - 1, ts);
      }
      ghost var m3 := mem;
      BodyStays(m0, m1, mem, caps, s, o, dks, Min(|o.kids|, pc), n - 1, ts);
      ok := ZeroWords(o.data + o.kids, 0);
      ResizeDone(m0, m1, m3, mem, caps, s, o, at, pads, dw, pc, n, ts, dks);
    }

    // -------------------------------------------------------------------------------------------
    // New objects

    /** Replace what a pointer leads to by a new struct: zeros and null pointers. */
    method InitStruct(dw: nat, pc: nat, p: Loc, depth: nat, ghost k: nat) returns (ok: bool)
      requires Ok() && Apart(mem, p, k) && dw < 0x1_0000 && pc < 0x1_0000
      modifies `mem
      ensures Ok()
      ensures !ok && depth > k ==> Cramped(mem, Max(dw + pc, 2))
      ensures ok ==> KeptOutside(old(mem), mem, p, k)
      ensures ok ==> Built(old(mem), mem, caps, p, 2, Node(KStruct(dw, pc), Zeros(dw), Nulls(pc)))
    {
      hide Apart, ErasedTree, KeptOutside, Built, BuiltAll, Alloc, KeptBut, Touches, TouchesAny, Read, ReadAll, Cramped;
      ghost var m0 := mem;
      ok := Erase(p, depth, k);
      if !ok {
        return;
      }
      ghost var m1 := mem;
      ErasedForCopy(m0, m1, p, k);
      var room := Allocate(p.seg, dw + pc);
      if room.None? {
        CrampedForMore(mem, dw + pc, Max(dw + pc, 2));
        return false;
      }
      var at := room.value;
      ghost var m2 := mem;
      AllocIsSafe(m1, p.seg, dw + pc);
      BlankStruct(m1, m2, caps, at, dw, pc);
      ok := FinishStruct(at, p, dw, pc, m1, m2, 2, Zeros(dw), Nulls(pc), true);
      if !ok {
        CrampedForMore(mem, 2, Max(dw + pc, 2));
      } else {
        CopyFinished(m0, m1, mem, caps, p, k, 2, Node(KStruct(dw, pc), Zeros(dw), Nulls(pc)));
      }
    }

    /** Point `p` at a new list of zeros or null pointers; a composite list gets a tag with its length and
        the size of its structs. */
    method InitList(size: nat, length: nat, dw: nat, pc: nat, p: Loc) returns (ok: bool)
      requires Ok() && Has(mem, p) && size < 8 && length < 0x2000_0000 && dw < 0x1_0000 && pc < 0x1_0000
      modifies `mem
      ensures Ok()
      ensures !ok ==> Cramped(mem, Max(WordsOf(ListKind(size, length, dw, pc)), 2))
      ensures ok ==> KeptBut(old(mem), mem, [p])
      ensures ok ==>
        var kind := ListKind(size, length, dw, pc);
        && Built(old(mem), mem, caps, p, 2, Node(kind, Zeros(DataCount(kind)), Nulls(KidCount(kind))))
        && (kind.KList? ==> ElementsZero(mem, p, kind))
    {
      hide ElementsZero, Built, BuiltAll, Alloc, KeptBut, TouchesAny, ReadAll, CompositeData, CompositeKids, Cramped;
      ghost var m0 := mem;
      ghost var kind := ListKind(size, length, dw, pc);
      if size == VOID {
        VoidList(m0, caps, p, length);
        SetWord(p, NearWord(LIST, 0, ListHi(VOID, length)));
        BuiltElements(m0, mem, caps, p, kind);
        return true;
      }
      if size == COMPOSITE {
        var words := (dw + pc) * length;
        CompositeWordsIs(length, dw, pc);
        var room := CopyTag(p.seg, words, NearWord(STRUCT, length, StructHi(dw, pc)));
        if room.None? {
          CrampedForMore(mem, words + 1, Max(words + 1, 2));
          return false;
        }
        NewTag(length, dw, pc, At(mem, room.value));
        BlankComposite(m0, mem, caps, p, room.value, length, dw, pc);
        ok := FinishList(room.value, p, COMPOSITE, words, m0, mem, kind, 2, Zeros(DataCount(kind)), Nulls(KidCount(kind)), true);
      } else {
        var n := if size == POINTERS then length else ListWords(size, length);
        var room := Allocate(p.seg, n);
        if room.None? {
          CrampedForMore(mem, n, Max(n, 2));
          return false;
        }
        AllocIsSafe(m0, p.seg, n);
        BlankList(m0, mem, caps, p, room.value, size, length);
        ok := FinishList(room.value, p, size, length, m0, mem, kind, 2, Zeros(DataCount(kind)), Nulls(KidCount(kind)), true);
      }
      if !ok {
        CrampedForMore(mem, 2, Max(WordsOf(kind), 2));
      } else if kind.KList? {
        BuiltElements(m0, mem, caps, p, kind);
      }
    }
  }

  /** A copied list of plain elements has every element of its source. */
  lemma CopiedElements(m0: Mem, s0: Mem, caps0: Caps, s: Loc, mem: Mem, caps: Caps, d: Loc, n: nat)
    requires Read(s0, caps0, s, n).Some? && ObjectAt(s0, s).value.kind.KList?
    requires Built(m0, mem, caps, d, n, Read(s0, caps0, s, n).value)
    ensures ElementsCopied(s0, s, mem, d, ObjectAt(s0, s).value.kind)
  {
    ReadableObject(s0, caps0, s, n);
    SameElements(s0, caps0, s, n, mem, caps, d, n);
  }

  /** A new list of plain elements has all of them, zero. */
  lemma BuiltElements(m0: Mem, mem: Mem, caps: Caps, p: Loc, kind: Kind)
    requires kind.KList? && Built(m0, mem, caps, p, 2, Node(kind, Zeros(DataCount(kind)), Nulls(KidCount(kind))))
    ensures ElementsZero(mem, p, kind)
  {
    NewElements(mem, caps, p, 2);
  }

  lemma PointerFits(mem: Mem, s: Loc)
    requires Valid(mem) && s.seg < |mem.segs| && s.off < mem.segs[s.seg].used
    ensures Has(mem, s)
  {
    assert ValidSeg(mem.segs[s.seg]);
  }

  lemma KeptItself(mem: Mem, p: Loc)
    ensures KeptBut(mem, mem, [p])
  {
  }

  lemma InPlace(mem: Mem, content: Loc, p: Loc)
    requires Has(mem, p) && p.seg == content.seg
    ensures Leads(mem, p, content, Slot(p, content.off - p.off - 1, []))
  {
  }

  /** A landing pad in the content's segment. */
  lemma SingleFar(m0: Mem, content: Loc, p: Loc, m1: Mem, at: Loc)
    requires Valid(m0) && Has(m0, p) && Fitting(m0, content) && p.seg != content.seg
    requires |m0.segs[content.seg].words| - m0.segs[content.seg].used >= 1
    requires Alloc(m0, content.seg, 1) == Some((m1, at))
    ensures Valid(m1) && Has(m1, p) && at.seg == content.seg && !Has(m0, at)
    ensures var m2 := Put(m1, p, FarWord(false, at.off, at.seg));
      && Valid(m2) && KeptBut(m0, m2, [p])
      && Leads(m2, p, content, Slot(at, content.off - at.off - 1, [at]))
  {
    AllocIsSafe(m0, content.seg, 1);
    assert InRegion(at, 1, at);
    PutKeeps(m1, p, FarWord(false, at.off, at.seg));
  }

  /** A landing pad and a tag word wherever there is room. */
  lemma DoubleFar(m0: Mem, content: Loc, p: Loc, m1: Mem, at: Loc)
    requires Valid(m0) && Has(m0, p) && Fitting(m0, content) && Alloc(m0, p.seg, 2) == Some((m1, at))
    ensures Valid(m1) && Has(m1, p)
    ensures var second := Loc(at.seg, at.off + 1);
      var m2 := Put(m1, p, FarWord(true, at.off, at.seg));
      && Valid(m2) && Has(m2, at) && !Has(m0, at) && !Has(m0, second)
      && var m3 := Put(m2, at, FarWord(false, content.off, content.seg));
      Valid(m3) && KeptBut(m0, m3, [p]) && Leads(m3, p, content, Slot(second, 0, [at, second]))
  {
    hide FarWord;
    AllocIsSafe(m0, p.seg, 2);
    var second := Loc(at.seg, at.off + 1);
    assert InRegion(at, 2, at) && InRegion(at, 2, second);
    var m2 := Put(m1, p, FarWord(true, at.off, at.seg));
    PutKeeps(m1, p, FarWord(true, at.off, at.seg));
    PutKeeps(m2, at, FarWord(false, content.off, content.seg));
  }
}
