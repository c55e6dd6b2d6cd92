/**
 Moving a struct to a body of another size: its data is copied, and its pointers are rewritten to lead to the
 same content from their new places, whatever far forms they had (resize of
 src/serialization/pointers/struct.utils.ts).
 */
module Resizing {
  import opened Options
  import opened Memory
  import opened Trees
  import opened Placement
  import opened Erasing
  import opened Copying

  /** The words a tree has behind its pointer. */
  predicate Under(mem: Mem, p: Loc, n: nat, l: Loc) {
    n > 0 && Has(mem, p) &&
    match ObjectAt(mem, p)
    case None => false
    case Some(o) => (o.frame != [] && l in o.frame[1..]) || l in o.data || TouchesAny(mem, o.kids, n - 1, l)
  }

  /** No tree under the struct's pointers goes back to the struct: to its pointer, its landing pads, or its
      body.  The trees may share words with one another. */
  ghost predicate Detached(mem: Mem, s: Loc, n: nat) {
    n > 0 && Has(mem, s) && ObjectAt(mem, s).Some? &&
    var o := ObjectAt(mem, s).value;
    && s !in o.data + o.kids
    && forall j, l :: 0 <= j < |o.kids| && Under(mem, o.kids[j], n - 1, l) ==> l !in o.frame && l !in o.data && l !in o.kids
  }

  lemma UnderIsTouched(mem: Mem, p: Loc, n: nat, l: Loc)
    ensures Under(mem, p, n, l) ==> Touches(mem, p, n, l)
    ensures Touches(mem, p, n, l) ==> l == p || Under(mem, p, n, l)
  {
    if n > 0 && Has(mem, p) && ObjectAt(mem, p).Some? {
      PointerIsFirst(mem, p);
    }
  }

  lemma PointerIsFirst(mem: Mem, p: Loc)
    requires Has(mem, p) && ObjectAt(mem, p).Some?
    ensures var f := ObjectAt(mem, p).value.frame; f != [] && f[0] == p && forall l :: l in f ==> l == p || l in f[1..]
  {
    var f := ObjectAt(mem, p).value.frame;
    forall l | l in f
      ensures l == p || l in f[1..]
    {
      assert f == [f[0]] + f[1..];
    }
  }

  /** A tree whose parts are apart is detached. */
  lemma ApartIsDetached(mem: Mem, s: Loc, n: nat)
    requires Apart(mem, s, n)
    ensures Detached(mem, s, n)
  {
    hide ObjectAt, Under, Apart, ApartAll, Touches, TouchesAny;
    ApartPieces(mem, s, n);
    FrameHasPointer(mem, s);
    var o := ObjectAt(mem, s).value;
    forall l | l in o.kids
      ensures l != s
    {
      KidsAreTouched(mem, o.kids, n - 1, l);
    }
    forall j, l | 0 <= j < |o.kids| && Under(mem, o.kids[j], n - 1, l)
      ensures l !in o.frame && l !in o.data && l !in o.kids
    {
      UnderIsNoKid(mem, o.kids, n - 1, j, l);
    }
  }

  lemma UnderIsNoKid(mem: Mem, ps: seq<Loc>, n: nat, j: nat, l: Loc)
    requires ApartAll(mem, ps, n) && j < |ps| && Under(mem, ps[j], n, l)
    ensures l !in ps && TouchesAny(mem, ps, n, l)
  {
    hide Under, Apart, Touches, TouchesAny;
    UnderIsTouched(mem, ps[j], n, l);
    TouchesKid(mem, ps, n, j, l);
    if l in ps {
      EachApart(mem, ps, n);
      NotUnderItself(mem, ps[j], n);
      if l != ps[j] {
        KidsApart(mem, ps, n, j, l);
      }
    }
  }

  lemma ApartPieces(mem: Mem, s: Loc, n: nat)
    requires Apart(mem, s, n)
    ensures n > 0 && Has(mem, s) && ObjectAt(mem, s).Some?
    ensures var o := ObjectAt(mem, s).value;
      && ApartAll(mem, o.kids, n - 1)
      && (forall l :: l in o.frame ==> l !in o.data && !TouchesAny(mem, o.kids, n - 1, l))
      && (forall l :: l in o.data ==> !TouchesAny(mem, o.kids, n - 1, l))
  {
  }

  lemma NotUnderItself(mem: Mem, p: Loc, n: nat)
    requires Apart(mem, p, n)
    ensures !Under(mem, p, n, p)
  {
    PointerIsFirst(mem, p);
    hide ObjectAt;
    var o := ObjectAt(mem, p).value;
    assert p in o.frame;
  }

  predicate IsCap(mem: Mem, p: Loc) {
    Has(mem, p) && ObjectAt(mem, p).Some? && ObjectAt(mem, p).value.kind.KCap?
  }

  /** A capability pointer that says so no more: it is a far pointer, or its offset bits are not zero
      although the id is still there. */
  ghost predicate Lost(m0: Mem, m1: Mem, m: Mem, sk: Loc, dk: Loc) {
    && IsCap(m, dk) && Spoilt(m0, m, sk, dk)
    && forall l :: l in ObjectAt(m, dk).value.frame ==> l == dk || !Has(m1, l)
  }

  predicate Spoilt(m0: Mem, m: Mem, sk: Loc, dk: Loc) {
    Has(m0, sk) && Has(m, dk) && At(m, dk).lo != OTHER && (TypeOf(At(m, dk)) == FAR || At(m, dk).hi == At(m0, sk).hi)
  }

  /** The pointer leads to the tree `t` through itself, words newer than `m1`, and words that the old
      pointer had behind it; a capability is lost. */
  ghost predicate Moved(m0: Mem, m1: Mem, m: Mem, caps: Caps, sk: Loc, dk: Loc, n: nat, t: Tree) {
    if IsCap(m0, sk) then Lost(m0, m1, m, sk, dk)
    else
      && Read(m, caps, dk, n) == Some(t)
      && forall l :: Touches(m, dk, n, l) ==> l == dk || !Has(m1, l) || Under(m0, sk, n, l)
  }

  lemma LostStays(m0: Mem, m1: Mem, ma: Mem, mb: Mem, sk: Loc, dk: Loc, ls: seq<Loc>)
    requires Lost(m0, m1, ma, sk, dk) && KeptBut(ma, mb, ls)
    requires forall l :: l in ls ==> l != dk && Has(m1, l)
    ensures Lost(m0, m1, mb, sk, dk)
  {
    FrameAllocated(ma, dk);
    FrameHasPointer(ma, dk);
    hide ObjectAt;
    ObjectSame(ma, mb, dk);
  }

  /** A pointer that leads to the same object reads as the same tree. */
  lemma SameObjectReads(m0: Mem, m: Mem, caps: Caps, sk: Loc, dk: Loc, n: nat, frame: seq<Loc>)
    requires Read(m0, caps, sk, n).Some? && Grown(m0, m) && Has(m, dk)
    requires var o := ObjectAt(m0, sk).value;
      && !o.kind.KCap? && ObjectAt(m, dk) == Some(o.(frame := frame))
      && (forall l :: l in o.data || TouchesAny(m0, o.kids, n - 1, l) ==> SameAt(m0, m, l))
    ensures Read(m, caps, dk, n) == Read(m0, caps, sk, n)
    ensures forall l :: Touches(m, dk, n, l) ==>
      l in frame || l in ObjectAt(m0, sk).value.data || TouchesAny(m0, ObjectAt(m0, sk).value.kids, n - 1, l)
  {
    hide ObjectAt;
    var o := ObjectAt(m0, sk).value;
    ReadableObject(m0, caps, sk, n);
    ValuesSame(m0, m, o.data);
    ReadAllSame(m0, m, caps, caps, o.kids, n - 1);
  }

  /** A near word with the same type and size fields, at a place that leads to the same content, is the
      same object. */
  lemma SameObjectThere(m0: Mem, sk: Loc, m1: Mem, dk: Loc, slot: Slot)
    requires Valid(m1) && Has(m0, sk) && At(m0, sk) != ZERO && ObjectAt(m0, sk).Some? && !ObjectAt(m0, sk).value.kind.KCap?
    requires var t := TargetOf(m0, sk).value;
      && Leads(m1, dk, Loc(t.seg, t.off), slot) && Fitting(m1, Loc(t.seg, t.off)) && TypeOf(t.word) < 2
      && (ObjectAt(m0, sk).value.kind.KComposite? ==> SameAt(m0, m1, Loc(t.seg, t.off)) && slot.target != Loc(t.seg, t.off))
    ensures Has(m1, slot.target)
    ensures var o, t := ObjectAt(m0, sk).value, TargetOf(m0, sk).value;
      var m2 := Put(m1, slot.target, NearWord(TypeOf(t.word), slot.offset, t.word.hi));
      && Valid(m2) && Has(m2, dk)
      && ObjectAt(m2, dk) == Some(o.(frame := [dk] + (if At(m2, dk) == ZERO then [] else slot.pads)
                                              + (if o.kind.KComposite? then [Loc(t.seg, t.off)] else [])))
  {
    var o, t := ObjectAt(m0, sk).value, TargetOf(m0, sk).value;
    var content := Loc(t.seg, t.off);
    var w := NearWord(TypeOf(t.word), slot.offset, t.word.hi);
    LeadsHas(m1, dk, content, slot);
    OffsetFits(m1, dk, content, slot);
    NearReads(TypeOf(t.word), slot.offset, t.word.hi);
    NearHi(TypeOf(t.word), slot.offset, t.word.hi);
    PutKeeps(m1, slot.target, w);
    LeadsReads(m1, dk, content, slot, w);
    ZeroHi(m1, dk, content, slot, w);
    ObjectByTarget(m0, sk);
    var m2 := Put(m1, slot.target, w);
    hide NearWord, TargetOf, Leads, OffsetOf, FarWord, ObjectAt;
    if At(m2, dk) == ZERO {
      NullObject(m2, dk);
      EmptyStruct(t, o);
      assert [dk] + [] + [] == [dk];
    } else {
      assert InBounds(m2, t.seg, t.off);
      ObjectByTarget(m2, dk);
      SameParts(m0, m2, t, w, o, [sk] + t.pads, slot.pads, [dk] + slot.pads);
    }
  }

  /** What an object is, from its target alone. */
  lemma ObjectByTarget(mem: Mem, p: Loc)
    requires Has(mem, p) && At(mem, p) != ZERO && TargetOf(mem, p).Some?
    ensures var t := TargetOf(mem, p).value;
      && (TypeOf(t.word) == STRUCT && InBounds(mem, t.seg, t.off) ==>
            ObjectAt(mem, p) == Some(StructObject(t, [p] + t.pads)))
      && (TypeOf(t.word) == LIST && InBounds(mem, t.seg, t.off) ==> ObjectAt(mem, p) == ListAt(mem, t, [p] + t.pads))
      && (TypeOf(t.word) < 2 && ObjectAt(mem, p).Some? ==> InBounds(mem, t.seg, t.off))
  {
  }

  function StructObject(t: Target, frame: seq<Loc>): Object
    requires t.off >= 0
  {
    var dw, pc := DataWords(t.word), PointerCount(t.word);
    Object(KStruct(dw, pc), Range(t.seg, t.off, dw), Range(t.seg, t.off + dw, pc), frame)
  }

  lemma EmptyStruct(t: Target, o: Object)
    requires t.off >= 0 && o == StructObject(t, o.frame) && t.word.hi == 0
    ensures o == Object(NULL_OBJECT, [], [], o.frame)
  {
    assert DataWords(t.word) == 0 && PointerCount(t.word) == 0;
  }

  /** The parts of the object do not depend on where its description is. */
  lemma SameParts(m0: Mem, m2: Mem, t: Target, w: Word, o: Object, frame: seq<Loc>, pads: seq<Loc>, frame': seq<Loc>)
    requires t.off >= 0 && w.hi == t.word.hi && TypeOf(w) == TypeOf(t.word) < 2
    requires TypeOf(t.word) == STRUCT ==> o == StructObject(t, frame)
    requires TypeOf(t.word) == LIST ==> ListAt(m0, t, frame) == Some(o)
    requires o.kind.KComposite? ==> SameAt(m0, m2, Loc(t.seg, t.off))
    ensures TypeOf(w) == STRUCT ==>
      !o.kind.KComposite? && StructObject(Target(w, t.seg, t.off, pads), frame') == o.(frame := frame' + [])
    ensures TypeOf(w) == LIST ==>
      ListAt(m2, Target(w, t.seg, t.off, pads), frame')
      == Some(o.(frame := frame' + (if o.kind.KComposite? then [Loc(t.seg, t.off)] else [])))
  {
    assert frame' + [] == frame';
  }

  // ---------------------------------------------------------------------------------------------
  // One pointer after another

  lemma MovedOne(m0: Mem, m1: Mem, mi: Mem, mp: Mem, caps: Caps, sk: Loc, dk: Loc, slot: Slot, n: nat)
    requires Read(m0, caps, sk, n).Some? && At(m0, sk) != ZERO && !IsCap(m0, sk)
    requires forall l :: Touches(m0, sk, n, l) ==> SameAt(m0, mi, l)
    requires Grown(m0, mi) && !Has(m0, dk) && Has(mi, dk) && forall l :: Has(m1, l) ==> Has(mi, l)
    requires Valid(mp) && KeptBut(mi, mp, [dk]) && forall l :: l in slot.pads ==> !Has(mi, l)
    requires TargetOf(m0, sk).Some? && TargetOf(m0, sk).value.off >= 0
    requires var t := TargetOf(m0, sk).value;
      Leads(mp, dk, Loc(t.seg, t.off), slot) && Fitting(mp, Loc(t.seg, t.off)) && TypeOf(t.word) < 2
    ensures Has(mp, slot.target)
    ensures var t := TargetOf(m0, sk).value;
      var m2 := Put(mp, slot.target, NearWord(TypeOf(t.word), slot.offset, t.word.hi));
      Valid(m2) && KeptBut(mi, m2, [dk]) && Moved(m0, m1, m2, caps, sk, dk, n, Read(m0, caps, sk, n).value)
  {
    var o, t := ObjectAt(m0, sk).value, TargetOf(m0, sk).value;
    var content := Loc(t.seg, t.off);
    var w := NearWord(TypeOf(t.word), slot.offset, t.word.hi);
    hide Fitting, Grown;
    StoreKeeps(mi, mp, dk, content, slot, w);
    var m2 := Put(mp, slot.target, w);
    RootObject(m0, caps, sk, n);
    TagInFrame(m0, sk);
    SourceStaysPut(m0, mi, mp, m2, sk, dk, n);
    hide KeptBut;
    SlotIsNew(mi, mp, dk, content, slot);
    SameObjectThere(m0, sk, mp, dk, slot);
    var frame := [dk] + (if At(m2, dk) == ZERO then [] else slot.pads) + (if o.kind.KComposite? then [content] else []);
    hide ObjectAt, TargetOf, Leads, NearWord, Under;
    PartsAreTouched(m0, sk, n);
    hide Read, Touches, TouchesAny, Moved;
    SameObjectReads(m0, m2, caps, sk, dk, n, frame);
    MovedFrame(m0, m1, mi, m2, caps, sk, dk, n, o, frame, content, slot.pads);
  }

  /** A capability pointer that is moved like the others is lost: the distance to where its content would
      be is written over its zeros. */
  lemma CapabilityIsLost(m0: Mem, m1: Mem, mi: Mem, mp: Mem, caps: Caps, sk: Loc, dk: Loc, slot: Slot, n: nat, t: Tree)
    requires IsCap(m0, sk) && !Has(m0, dk) && forall l :: Has(m1, l) ==> Has(mi, l)
    requires Valid(mp) && KeptBut(mi, mp, [dk]) && forall l :: l in slot.pads ==> !Has(mi, l)
    requires Leads(mp, dk, Loc(sk.seg, sk.off + 1), slot) && Fitting(mp, Loc(sk.seg, sk.off + 1))
    ensures Has(mp, slot.target)
    ensures var m2 := Put(mp, slot.target, NearWord(OTHER, slot.offset, At(m0, sk).hi));
      Valid(m2) && KeptBut(mi, m2, [dk]) && Moved(m0, m1, m2, caps, sk, dk, n, t)
  {
    var content, w := Loc(sk.seg, sk.off + 1), NearWord(OTHER, slot.offset, At(m0, sk).hi);
    StoreKeeps(mi, mp, dk, content, slot, w);
    OffsetFits(mp, dk, content, slot);
    OtherWord(slot.offset, At(m0, sk).hi);
    LostBits(mp, dk, content, slot, w);
    NearHi(OTHER, slot.offset, At(m0, sk).hi);
    hide Leads, NearWord, KeptBut;
    LostPointer(mp, dk, content, slot, w);
  }

  lemma OtherWord(off: int, hi: half)
    requires -0x2000_0000 <= off < 0x2000_0000
    ensures var w := NearWord(OTHER, off, hi);
      TypeOf(w) == OTHER && (off != 0 ==> w.lo != OTHER)
  {
    var lo := OTHER + 4 * off;
    assert lo % TWO_32 == if off >= 0 then lo else lo + TWO_32;
  }

  lemma LostBits(mem: Mem, p: Loc, content: Loc, slot: Slot, w: Word)
    requires Valid(mem) && Leads(mem, p, content, slot) && slot.offset != 0 ==> w.lo != OTHER
    requires Valid(mem) && Leads(mem, p, content, slot) && content.off > 0 && p != Loc(content.seg, content.off - 1)
    ensures var w' := At(Put(mem, slot.target, w), p);
      w'.lo != OTHER && (TypeOf(w') == FAR || w' == w)
  {
    PutKeeps(mem, slot.target, w);
    if slot.pads != [] {
      var pad := slot.pads[0];
      assert ValidSeg(mem.segs[pad.seg]);
      FarReads(|slot.pads| == 2, pad.off, pad.seg);
    }
  }

  lemma LostPointer(mem: Mem, p: Loc, content: Loc, slot: Slot, w: Word)
    requires Valid(mem) && Leads(mem, p, content, slot) && Fitting(mem, content) && TypeOf(w) == OTHER
    ensures Has(mem, slot.target) && Has(Put(mem, slot.target, w), p)
    ensures var m2 := Put(mem, slot.target, w);
      IsCap(m2, p) && ObjectAt(m2, p).value.frame == [p] + slot.pads
  {
    PutKeeps(mem, slot.target, w);
    LeadsHas(mem, p, content, slot);
    LeadsReads(mem, p, content, slot, w);
    ZeroHi(mem, p, content, slot, w);
    hide Leads, TargetOf;
  }

  lemma SourceStaysPut(m0: Mem, mi: Mem, mp: Mem, m2: Mem, sk: Loc, dk: Loc, n: nat)
    requires forall l :: Touches(m0, sk, n, l) ==> SameAt(m0, mi, l)
    requires Grown(m0, mi) && !Has(m0, dk) && KeptBut(mi, mp, [dk]) && KeptBut(mi, m2, [dk])
    ensures forall l :: Touches(m0, sk, n, l) ==> SameAt(m0, m2, l) && SameAt(m0, mp, l)
    ensures Grown(m0, m2)
  {
    hide Touches;
    forall l | Touches(m0, sk, n, l)
      ensures SameAt(m0, m2, l) && SameAt(m0, mp, l)
    {
      assert l != dk;
    }
  }

  lemma PartsAreTouched(mem: Mem, p: Loc, n: nat)
    requires n > 0 && Has(mem, p) && ObjectAt(mem, p).Some?
    ensures var o := ObjectAt(mem, p).value;
      forall l :: l in o.data || TouchesAny(mem, o.kids, n - 1, l) ==> Touches(mem, p, n, l)
  {
  }

  lemma TagInFrame(mem: Mem, p: Loc)
    requires Has(mem, p) && At(mem, p) != ZERO && ObjectAt(mem, p).Some? && TargetOf(mem, p).Some? && TargetOf(mem, p).value.off >= 0
    ensures var o, t := ObjectAt(mem, p).value, TargetOf(mem, p).value;
      o.kind.KComposite? ==> Loc(t.seg, t.off) in o.frame && o.frame[0] == p && |o.frame| > 1 && o.frame[|o.frame| - 1] == Loc(t.seg, t.off)
    ensures p in ObjectAt(mem, p).value.frame
  {
  }

  lemma SlotIsNew(mi: Mem, mp: Mem, dk: Loc, content: Loc, slot: Slot)
    requires Leads(mp, dk, content, slot) && forall l :: l in slot.pads ==> !Has(mi, l)
    ensures slot.target == dk || !Has(mi, slot.target)
  {
    if slot.pads != [] {
      assert slot.pads[|slot.pads| - 1] == slot.target;
    }
  }

  lemma MovedFrame(m0: Mem, m1: Mem, mi: Mem, m2: Mem, caps: Caps, sk: Loc, dk: Loc, n: nat, o: Object, frame: seq<Loc>, content: Loc, pads: seq<Loc>)
    requires Read(m0, caps, sk, n).Some? && ObjectAt(m0, sk) == Some(o) && !o.kind.KCap?
    requires Read(m2, caps, dk, n) == Read(m0, caps, sk, n)
    requires forall l :: Touches(m2, dk, n, l) ==> l in frame || l in o.data || TouchesAny(m0, o.kids, n - 1, l)
    requires forall l :: l in frame ==> l == dk || l in pads || (o.kind.KComposite? && l == content)
    requires forall l :: l in pads ==> !Has(mi, l)
    requires forall l :: Has(m1, l) ==> Has(mi, l)
    requires sk in o.frame
    requires o.kind.KComposite? ==> o.frame[0] == sk && |o.frame| > 1 && o.frame[|o.frame| - 1] == content
    ensures Moved(m0, m1, m2, caps, sk, dk, n, Read(m0, caps, sk, n).value)
  {
    hide ObjectAt;
    assert !IsCap(m0, sk);
    forall l | Touches(m2, dk, n, l)
      ensures l == dk || !Has(m1, l) || Under(m0, sk, n, l)
    {
      if l != dk && l !in pads && o.kind.KComposite? && l == content {
        assert o.frame[1..][|o.frame| - 2] == content;
      }
    }
  }

  /** Later writes elsewhere leave a moved pointer alone. */
  lemma MovedStays(m0: Mem, m1: Mem, ma: Mem, mb: Mem, caps: Caps, sk: Loc, dk: Loc, n: nat, t: Tree, ls: seq<Loc>)
    requires Moved(m0, m1, ma, caps, sk, dk, n, t) && KeptBut(ma, mb, ls)
    requires forall l :: l in ls ==> l != dk && Has(m1, l) && !Under(m0, sk, n, l)
    ensures Moved(m0, m1, mb, caps, sk, dk, n, t)
  {
    hide ObjectAt, Lost;
    if IsCap(m0, sk) {
      LostStays(m0, m1, ma, mb, sk, dk, ls);
      return;
    }
    forall l | Touches(ma, dk, n, l)
      ensures SameAt(ma, mb, l)
    {
      TouchesAllocated(ma, caps, dk, n, l);
    }
    hide Read, Under;
    ReadSame(ma, mb, caps, caps, dk, n);
  }

  /** A null pointer moves by staying null. */
  lemma MovedNull(m0: Mem, m1: Mem, m: Mem, caps: Caps, sk: Loc, dk: Loc, n: nat)
    requires Has(m0, sk) && At(m0, sk) == ZERO && Has(m, dk) && At(m, dk) == ZERO && n > 0
    ensures Read(m0, caps, sk, n) == Some(NULL) && Moved(m0, m1, m, caps, sk, dk, n, NULL)
  {
    NullReads(m0, caps, sk, n);
    NullReads(m, caps, dk, n);
  }

  /** The first `k` pointers are moved, the others are null, and nothing older than the new body has
      changed but the struct's own pointer. */
  ghost predicate MovedSoFar(m0: Mem, m1: Mem, m: Mem, caps: Caps, s: Loc, sks: seq<Loc>, dks: seq<Loc>, k: nat, n: nat, ts: seq<Tree>)
    requires k <= |sks| == |ts| && k <= |dks|
  {
    && KeptBut(m0, m, [s]) && KeptBut(m1, m, dks) && HasAll(m1, dks) && Distinct(dks) && (forall l :: l in dks ==> !Has(m0, l))
    && (forall j :: 0 <= j < k ==> Moved(m0, m1, m, caps, sks[j], dks[j], n, ts[j]))
    && (forall j :: k <= j < |dks| ==> Fits(m, dks[j]) && At(m, dks[j]) == ZERO)
  }

  lemma MovedOneMore(m0: Mem, m1: Mem, ma: Mem, mb: Mem, caps: Caps, s: Loc, sks: seq<Loc>, dks: seq<Loc>, k: nat, n: nat, ts: seq<Tree>)
    requires k < |sks| == |ts| && k < |dks| && MovedSoFar(m0, m1, ma, caps, s, sks, dks, k, n, ts)
    requires KeptBut(ma, mb, [dks[k]]) && Moved(m0, m1, mb, caps, sks[k], dks[k], n, ts[k])
    requires ReadAll(m0, caps, sks, n).Some?
    ensures MovedSoFar(m0, m1, mb, caps, s, sks, dks, k + 1, n, ts)
  {
    hide Moved, Under, Touches, Read, ReadAll;
    assert dks[k] in dks;
    KeptElsewhere(m0, ma, mb, [s], [dks[k]]);
    KeptWithin(m1, ma, mb, dks, [dks[k]]);
    forall j | 0 <= j < k + 1
      ensures Moved(m0, m1, mb, caps, sks[j], dks[j], n, ts[j])
    {
      if j < k {
        if Under(m0, sks[j], n, dks[k]) {
          UnderIsTouched(m0, sks[j], n, dks[k]);
          ReadKid(m0, caps, sks, n, j);
          TouchesAllocated(m0, caps, sks[j], n, dks[k]);
        }
        MovedStays(m0, m1, ma, mb, caps, sks[j], dks[j], n, ts[j], [dks[k]]);
      }
    }
    forall j | k + 1 <= j < |dks|
      ensures Fits(mb, dks[j]) && At(mb, dks[j]) == ZERO
    {
      assert dks[j] in dks;
    }
  }

  lemma KeptElsewhere(m0: Mem, ma: Mem, mb: Mem, ls: seq<Loc>, fresh': seq<Loc>)
    requires KeptBut(m0, ma, ls) && KeptBut(ma, mb, fresh') && forall l :: l in fresh' ==> !Has(m0, l)
    ensures KeptBut(m0, mb, ls)
  {
  }

  lemma KeptWithin(m1: Mem, ma: Mem, mb: Mem, ls: seq<Loc>, some: seq<Loc>)
    requires KeptBut(m1, ma, ls) && KeptBut(ma, mb, some) && forall l :: l in some ==> l in ls
    ensures KeptBut(m1, mb, ls)
  {
  }

  // ---------------------------------------------------------------------------------------------
  // The whole struct

  function Nulls(n: nat): (ts: seq<Tree>)
    ensures |ts| == n
  {
    seq(n, _ => NULL)
  }

  /** None of the first `pc` pointers is a capability. */
  ghost predicate NoCaps(mem: Mem, ps: seq<Loc>, pc: nat) {
    forall i :: 0 <= i < |ps| && i < pc ==> !IsCap(mem, ps[i])
  }

  /** The first `n` elements, with blanks for those missing. */
  function Fit<T>(s: seq<T>, n: nat, blank: T): (r: seq<T>)
    ensures |r| == n
  {
    seq(n, i requires 0 <= i < n => if i < |s| then s[i] else blank)
  }

  /** The struct keeps of its data and of the trees under its pointers what there is room for and gains
      zeros and nulls, but its capabilities are lost; its old body is zero, and nothing else that was
      allocated has changed but its pointer. */
  ghost predicate Resized(m0: Mem, m1: Mem, caps: Caps, s: Loc, n: nat, dw: nat, pc: nat) {
    Read(m0, caps, s, n).Some? &&
    var o, t := ObjectAt(m0, s).value, Read(m0, caps, s, n).value;
    && KeptBut(m0, m1, [s] + o.data + o.kids)
    && (forall l :: l in o.data + o.kids ==> Has(m1, l) && At(m1, l) == ZERO)
    && Has(m1, s) && ObjectAt(m1, s).Some? && n > 0
    && var now := ObjectAt(m1, s).value;
    && now.kind == KStruct(dw, pc) && HasAll(m1, now.data) && Values(m1, now.data) == Fit(t.data, dw, ZERO)
    && |now.kids| == pc
    && forall j :: 0 <= j < pc ==>
         if j < |o.kids| && IsCap(m0, o.kids[j])
         then Read(m1, caps, now.kids[j], n - 1).None? && Spoilt(m0, m1, o.kids[j], now.kids[j])
         else Read(m1, caps, now.kids[j], n - 1) == Some(Fit(t.kids, pc, NULL)[j])
  }

  /** A resized struct reads as what it was, cut or filled up to its new size, if and only if none of the
      pointers it kept is a capability; otherwise it is malformed. */
  lemma ResizeKeepsIff(m0: Mem, m1: Mem, caps: Caps, s: Loc, n: nat, dw: nat, pc: nat)
    requires Resized(m0, m1, caps, s, n, dw, pc)
    ensures var t := Read(m0, caps, s, n).value;
      Read(m1, caps, s, n) ==
        if NoCaps(m0, ObjectAt(m0, s).value.kids, pc)
        then Some(Node(KStruct(dw, pc), Fit(t.data, dw, ZERO), Fit(t.kids, pc, NULL)))
        else None
  {
    ReadableObject(m0, caps, s, n);
    hide IsCap, KeptBut, Spoilt, Read, ReadAll, ObjectAt, NoCaps, Fit, Values, HasAll;
    var o, t, now := ObjectAt(m0, s).value, Read(m0, caps, s, n).value, ObjectAt(m1, s).value;
    KidsReadIff(m0, m1, caps, o.kids, now.kids, n - 1, Fit(t.kids, pc, NULL));
    if NoCaps(m0, o.kids, pc) {
      StructReads(m1, caps, s, n, dw, pc, now.data, now.kids, now.frame, Fit(t.kids, pc, NULL));
    } else {
      StructNeedsKids(m1, caps, s, n);
    }
  }

  lemma KidsReadIff(m0: Mem, m1: Mem, caps: Caps, sks: seq<Loc>, dks: seq<Loc>, n: nat, ts: seq<Tree>)
    requires |ts| == |dks|
    requires forall j :: 0 <= j < |dks| ==>
      if j < |sks| && IsCap(m0, sks[j]) then Read(m1, caps, dks[j], n).None? else Read(m1, caps, dks[j], n) == Some(ts[j])
    ensures ReadAll(m1, caps, dks, n) == if NoCaps(m0, sks, |dks|) then Some(ts) else None
  {
    hide IsCap, Read, ReadAll;
    if NoCaps(m0, sks, |dks|) {
      ReadEach(m1, caps, dks, n, ts);
    } else {
      var j :| 0 <= j < |sks| && j < |dks| && IsCap(m0, sks[j]);
      OneUnreadable(m1, caps, dks, n, j);
    }
  }

  lemma StructNeedsKids(mem: Mem, caps: Caps, s: Loc, n: nat)
    requires n > 0 && Has(mem, s) && ObjectAt(mem, s).Some? && ObjectAt(mem, s).value.kind.KStruct?
    requires ReadAll(mem, caps, ObjectAt(mem, s).value.kids, n - 1).None?
    ensures Read(mem, caps, s, n).None?
  {
  }

  lemma {:induction false} OneUnreadable(mem: Mem, caps: Caps, ps: seq<Loc>, n: nat, j: nat)
    requires j < |ps| && Read(mem, caps, ps[j], n).None?
    ensures ReadAll(mem, caps, ps, n).None?
    decreases |ps|
  {
    if j > 0 {
      OneUnreadable(mem, caps, ps[1..], n, j - 1);
    }
  }

  /** The struct's pointer leads to the new body. */
  ghost predicate Rehoused(m0: Mem, m1: Mem, s: Loc, at: Loc, dw: nat, pc: nat, pads: seq<Loc>) {
    && KeptBut(m0, m1, [s]) && Has(m1, s) && Fitting(m1, at)
    && (forall l :: l in pads ==> !Has(m0, l))
    && ObjectAt(m1, s) == Some(Object(KStruct(dw, pc), Range(at.seg, at.off, dw), Range(at.seg, at.off + dw, pc), [s] + pads))
  }

  lemma BodyErased(m0: Mem, m2: Mem, m3: Mem, body: seq<Loc>, n: nat)
    requires Erased(m2, m3, body, [], n) && HasAll(m2, body)
    ensures KeptBut(m2, m3, body) && forall l :: l in body ==> Has(m3, l) && At(m3, l) == ZERO
  {
  }

  /** No tree under the struct uses the struct's own words. */
  lemma {:induction false} KidsApart(mem: Mem, ps: seq<Loc>, n: nat, k: nat, l: Loc)
    requires ApartAll(mem, ps, n) && k < |ps| && l in ps && l != ps[k]
    ensures !Touches(mem, ps[k], n, l)
    decreases |ps|
  {
    hide Apart, Touches;
    if k == 0 {
      KidsAreTouched(mem, ps[1..], n, l);
    } else if l == ps[0] {
      PointerIsTouched(mem, l, n);
      if Touches(mem, ps[k], n, l) {
        TouchesKid(mem, ps[1..], n, k - 1, l);
      }
    } else {
      KidsApart(mem, ps[1..], n, k - 1, l);
    }
  }

  lemma PointerIsTouched(mem: Mem, p: Loc, n: nat)
    requires Apart(mem, p, n)
    ensures Touches(mem, p, n, p)
  {
    FrameHasPointer(mem, p);
  }

  lemma {:induction false} EachApart(mem: Mem, ps: seq<Loc>, n: nat)
    requires ApartAll(mem, ps, n)
    ensures forall j :: 0 <= j < |ps| ==> Apart(mem, ps[j], n)
    decreases |ps|
  {
    hide Apart, Touches;
    if ps != [] {
      EachApart(mem, ps[1..], n);
    }
  }

  /** Moved pointers survive the erasure of the old body. */
  lemma MovedSurvives(m0: Mem, m1: Mem, m2: Mem, m3: Mem, caps: Caps, s: Loc, o: Object, dks: seq<Loc>, j: nat, n: nat, t: Tree)
    requires Detached(m0, s, n) && ObjectAt(m0, s) == Some(o) && j < |o.kids| && j < |dks| && HasAll(m0, o.data + o.kids)
    requires Moved(m0, m1, m2, caps, o.kids[j], dks[j], n - 1, t) && KeptBut(m2, m3, o.data + o.kids)
    requires !Has(m0, dks[j]) && forall l :: Has(m0, l) ==> Has(m1, l)
    ensures Moved(m0, m1, m3, caps, o.kids[j], dks[j], n - 1, t)
  {
    hide ObjectAt, Moved, Under;
    var body := o.data + o.kids;
    forall l | l in body
      ensures l != dks[j] && Has(m1, l) && !Under(m0, o.kids[j], n - 1, l)
    {
      assert Has(m0, l);
    }
    MovedStays(m0, m1, m2, m3, caps, o.kids[j], dks[j], n - 1, t, body);
  }

  lemma ResizeDone(m0: Mem, m1: Mem, m2: Mem, m3: Mem, caps: Caps, s: Loc, o: Object, at: Loc, pads: seq<Loc>,
                   dw: nat, pc: nat, n: nat, ts: seq<Tree>, dks: seq<Loc>)
    requires n >= 2 && Detached(m0, s, n) && Read(m0, caps, s, n).Some? && ObjectAt(m0, s) == Some(o) && o.kind.KStruct?
    requires Rehoused(m0, m1, s, at, dw, pc, pads)
    requires HasAll(m1, Range(at.seg, at.off, dw)) && HasAll(m0, o.data)
    requires Values(m1, Range(at.seg, at.off, dw)) == Fit(Values(m0, o.data), dw, ZERO)
    requires forall l :: l in Range(at.seg, at.off, dw) ==> !Has(m0, l)
    requires dks == Range(at.seg, at.off + dw, pc) && ReadAll(m0, caps, o.kids, n - 1) == Some(ts)
    requires |ts| == |o.kids| && MovedSoFar(m0, m1, m2, caps, s, o.kids, dks, Min(|o.kids|, pc), n - 1, ts)
    requires Erased(m2, m3, o.data + o.kids, [], 0)
    requires forall l :: l in pads || l in Range(at.seg, at.off, dw) ==> Has(m1, l) && l !in dks
    ensures Resized(m0, m3, caps, s, n, dw, pc)
  {
    hide ObjectAt, Moved, Detached, Read, ReadAll, IsCap, Spoilt;
    var body := o.data + o.kids;
    BodyInOld(m0, caps, s, n, o, ts);
    BodyErased(m0, m2, m3, body, 0);
    ReadableObject(m0, caps, s, n);
    var data, kept := Range(at.seg, at.off, dw), Fit(ts, pc, NULL);
    forall l | l in data || l in [s] + pads
      ensures SameAt(m1, m3, l)
    {
      assert l !in body;
      assert l !in dks;
    }
    ValuesSame(m1, m3, data);
    ObjectSame(m1, m3, s);
    forall j | 0 <= j < pc
      ensures j < |o.kids| && IsCap(m0, o.kids[j]) ==> Spoilt(m0, m3, o.kids[j], dks[j])
      ensures Read(m3, caps, dks[j], n - 1) == if j < |o.kids| && IsCap(m0, o.kids[j]) then None else Some(kept[j])
    {
      assert dks[j] in dks;
      if j < |o.kids| {
        MovedSurvives(m0, m1, m2, m3, caps, s, o, dks, j, n, ts[j]);
        MovedReads(m0, m1, m3, caps, o.kids[j], dks[j], n - 1, ts[j]);
      } else {
        assert dks[j] !in body;
        NullReads(m3, caps, dks[j], n - 1);
      }
    }
    KeptAround(m0, m2, m3, s, o.data, o.kids);
  }

  lemma BodyInOld(mem: Mem, caps: Caps, s: Loc, n: nat, o: Object, ts: seq<Tree>)
    requires Detached(mem, s, n) && ObjectAt(mem, s) == Some(o) && HasAll(mem, o.data)
    requires ReadAll(mem, caps, o.kids, n - 1) == Some(ts)
    ensures HasAll(mem, o.data + o.kids) && s !in o.data + o.kids
  {
    hide ObjectAt;
    ReadableAreAllocated(mem, caps, o.kids, n - 1);
  }

  lemma MovedReads(m0: Mem, m1: Mem, m: Mem, caps: Caps, sk: Loc, dk: Loc, n: nat, t: Tree)
    requires Moved(m0, m1, m, caps, sk, dk, n, t)
    ensures Read(m, caps, dk, n) == if IsCap(m0, sk) then None else Some(t)
    ensures IsCap(m0, sk) ==> Spoilt(m0, m, sk, dk)
  {
  }

  lemma StructReads(mem: Mem, caps: Caps, s: Loc, n: nat, dw: nat, pc: nat, data: seq<Loc>, kids: seq<Loc>, frame: seq<Loc>, ts: seq<Tree>)
    requires n > 0 && Has(mem, s) && ObjectAt(mem, s) == Some(Object(KStruct(dw, pc), data, kids, frame))
    requires HasAll(mem, data) && ReadAll(mem, caps, kids, n - 1) == Some(ts)
    ensures Read(mem, caps, s, n) == Some(Node(KStruct(dw, pc), Values(mem, data), ts))
  {
  }

  lemma KeptAround(m0: Mem, m2: Mem, m3: Mem, s: Loc, data: seq<Loc>, kids: seq<Loc>)
    requires KeptBut(m0, m2, [s]) && KeptBut(m2, m3, data + kids)
    ensures KeptBut(m0, m3, [s] + data + kids)
  {
  }

  // ---------------------------------------------------------------------------------------------
  // Steps of resizing

  /** The data there is room for is in the new body, followed by zeros; the new pointers are null. */
  lemma BodyCopied(m0: Mem, m1: Mem, m2: Mem, at: Loc, from: Loc, n: nat, dw: nat, pc: nat, data: seq<Loc>)
    requires Kept(m0, m1) && KeptBut(m1, m2, Range(at.seg, at.off, n)) && n == Min(|data|, dw)
    requires forall l :: InRegion(at, dw + pc, l) ==> Has(m1, l) && At(m1, l) == ZERO && !Has(m0, l)
    requires forall i :: 0 <= i < n ==> SameWord(m1, m2, from.seg, from.off, at.seg, at.off, i)
    requires HasAll(m0, data) && data == Range(from.seg, from.off, |data|)
    ensures Kept(m0, m2)
    ensures var ls, dks := Range(at.seg, at.off, dw), Range(at.seg, at.off + dw, pc);
      && HasAll(m2, ls) && HasAll(m2, dks) && Distinct(dks)
      && (forall l :: l in ls || l in dks ==> !Has(m0, l)) && (forall l :: l in ls ==> l !in dks)
      && (forall l :: l in dks ==> At(m2, l) == ZERO)
      && Values(m2, ls) == Fit(Values(m0, data), dw, ZERO)
  {
    var ls, dks, part := Range(at.seg, at.off, dw), Range(at.seg, at.off + dw, pc), Range(at.seg, at.off, n);
    forall l | l in part || l in ls || l in dks
      ensures !Has(m0, l) && Has(m2, l)
    {
      assert InRegion(at, dw + pc, l);
    }
    KeptFresh(m0, m1, m2, part);
    forall l | l in dks
      ensures At(m2, l) == ZERO
    {
      assert InRegion(at, dw + pc, l) && l !in part;
    }
    forall i | 0 <= i < dw
      ensures Fits(m2, ls[i]) && At(m2, ls[i]) == Fit(Values(m0, data), dw, ZERO)[i]
    {
      assert ls[i] in ls;
      if i < n {
        assert SameWord(m1, m2, from.seg, from.off, at.seg, at.off, i);
        assert data[i] in data;
      } else {
        assert InRegion(at, dw + pc, ls[i]) && ls[i] !in part;
      }
    }
  }

  lemma RehousedBy(m0: Mem, m2: Mem, m3: Mem, s: Loc, at: Loc, slot: Slot, dw: nat, pc: nat)
    requires Valid(m3) && Kept(m0, m2) && Has(m0, s) && Fitting(m2, at) && KeptBut(m2, m3, [s]) && Leads(m3, s, at, slot)
    requires forall l :: l in slot.pads ==> !Has(m2, l)
    requires dw < 0x1_0000 && pc < 0x1_0000
    ensures Has(m3, slot.target)
    ensures var m4 := Put(m3, slot.target, NearWord(STRUCT, slot.offset, StructHi(dw, pc)));
      && Valid(m4) && KeptBut(m2, m4, [s]) && Rehoused(m0, m4, s, at, dw, pc, slot.pads)
      && forall l :: l in slot.pads ==> Has(m4, l)
  {
    hide NearWord, StructHi, ObjectAt;
    var w := NearWord(STRUCT, slot.offset, StructHi(dw, pc));
    StoreKeeps(m2, m3, s, at, slot, w);
    StructReadsBack(m3, s, at, slot, dw, pc);
    var m4 := Put(m3, slot.target, w);
    PutKeeps(m3, slot.target, w);
    PadsAllocated(m3, s, at, slot);
    if At(m4, s) == ZERO {
      NullObject(m4, s);
      NearIfNull(m3, s, at, slot, w);
      assert Range(at.seg, at.off, 0) == [] && Range(at.seg, at.off + 0, 0) == [] && [s] + [] == [s];
    }
  }

  lemma PadsAllocated(mem: Mem, p: Loc, content: Loc, slot: Slot)
    requires Leads(mem, p, content, slot)
    ensures HasAll(mem, slot.pads)
  {
  }

  lemma NearIfNull(mem: Mem, p: Loc, content: Loc, slot: Slot, w: Word)
    requires Valid(mem) && Leads(mem, p, content, slot) && Has(mem, slot.target) && At(Put(mem, slot.target, w), p) == ZERO
    ensures slot.pads == []
  {
    if slot.pads != [] {
      var pad := slot.pads[0];
      assert At(Put(mem, slot.target, w), p) == At(mem, p);
      assert ValidSeg(mem.segs[pad.seg]);
      FarReads(|slot.pads| == 2, pad.off, pad.seg);
      FarIsNotNull(At(mem, p));
    }
  }

  /** A pointer of the struct, before it is moved, is as it was. */
  lemma KidSource(m0: Mem, mem: Mem, caps: Caps, s: Loc, sk: Loc, n: nat)
    requires KeptBut(m0, mem, [s]) && Read(m0, caps, sk, n).Some?
    requires forall l :: Touches(m0, sk, n, l) ==> SameAt(m0, mem, l)
    ensures SameAt(m0, mem, sk) && ObjectAt(m0, sk).Some?
    ensures At(m0, sk) != ZERO ==>
      && TargetOf(m0, sk).Some? && TargetOf(mem, sk) == TargetOf(m0, sk)
      && var t := TargetOf(m0, sk).value;
      && t.off >= 0 && Fitting(mem, Loc(t.seg, t.off))
      && if IsCap(m0, sk) then t == Target(At(m0, sk), sk.seg, sk.off + 1, []) && TypeOf(t.word) == OTHER else TypeOf(t.word) < 2
  {
    hide ObjectAt, TargetOf, Read, Touches, KeptBut, Fitting;
    RootObject(m0, caps, sk, n);
    if IsCap(m0, sk) {
      CapSource(m0, mem, caps, sk, n);
    } else if At(m0, sk) != ZERO {
      SourceTarget(m0, mem, s, sk);
    }
  }

  lemma CapSource(m0: Mem, mem: Mem, caps: Caps, sk: Loc, n: nat)
    requires SameAt(m0, mem, sk) && IsCap(m0, sk) && Read(m0, caps, sk, n).Some?
    ensures TypeOf(At(m0, sk)) == OTHER
    ensures TargetOf(m0, sk) == TargetOf(mem, sk) == Some(Target(At(m0, sk), sk.seg, sk.off + 1, []))
    ensures Fitting(mem, Loc(sk.seg, sk.off + 1))
  {
    assert At(m0, sk).lo == OTHER;
    hide ObjectAt, Read;
  }

  lemma SourceTarget(m0: Mem, mem: Mem, s: Loc, sk: Loc)
    requires SameAt(m0, mem, sk) && At(m0, sk) != ZERO && ObjectAt(m0, sk).Some? && !ObjectAt(m0, sk).value.kind.KCap?
    requires KeptBut(m0, mem, [s]) && forall l :: l in ObjectAt(m0, sk).value.frame ==> SameAt(m0, mem, l)
    ensures TargetOf(m0, sk).Some? && TargetOf(mem, sk) == TargetOf(m0, sk)
    ensures var t := TargetOf(m0, sk).value;
      t.off >= 0 && TypeOf(t.word) < 2 && Fitting(mem, Loc(t.seg, t.off))
  {
    hide ObjectAt, TargetOf;
    PadsInFrame(m0, sk);
    TargetSame(m0, mem, sk);
    NearTarget(m0, sk);
    StillInBounds(m0, mem, s, TargetOf(m0, sk).value);
  }

  lemma KidUntouched(m0: Mem, mem: Mem, caps: Caps, s: Loc, o: Object, n: nat, j: nat)
    requires Detached(m0, s, n) && ObjectAt(m0, s) == Some(o) && j < |o.kids| && KeptBut(m0, mem, [s])
    requires Read(m0, caps, o.kids[j], n - 1).Some?
    ensures forall l :: Touches(m0, o.kids[j], n - 1, l) ==> SameAt(m0, mem, l)
  {
    FrameHasPointer(m0, s);
    hide ObjectAt, Under, Read, Touches;
    forall l | Touches(m0, o.kids[j], n - 1, l)
      ensures SameAt(m0, mem, l)
    {
      UnderIsTouched(m0, o.kids[j], n - 1, l);
      TouchesAllocated(m0, caps, o.kids[j], n - 1, l);
      assert l != s;
    }
  }

  lemma StillInBounds(m0: Mem, mem: Mem, s: Loc, t: Target)
    requires KeptBut(m0, mem, [s]) && InBounds(m0, t.seg, t.off)
    ensures t.off >= 0 && Fitting(mem, Loc(t.seg, t.off))
  {
  }

  lemma NearTarget(mem: Mem, p: Loc)
    requires Has(mem, p) && At(mem, p) != ZERO && ObjectAt(mem, p).Some? && !ObjectAt(mem, p).value.kind.KCap?
    ensures TargetOf(mem, p).Some?
    ensures var t := TargetOf(mem, p).value; TypeOf(t.word) < 2 && InBounds(mem, t.seg, t.off)
  {
    NotFar(mem, p);
  }

  lemma NotFar(mem: Mem, p: Loc)
    requires Has(mem, p) && TargetOf(mem, p).Some?
    ensures TypeOf(TargetOf(mem, p).value.word) != FAR && TypeOf(TargetOf(mem, p).value.word) < 4
  {
  }

  lemma NothingMoved(m0: Mem, m1: Mem, caps: Caps, s: Loc, sks: seq<Loc>, dks: seq<Loc>, n: nat, ts: seq<Tree>)
    requires KeptBut(m0, m1, [s]) && |sks| == |ts| && HasAll(m1, dks) && Distinct(dks)
    requires forall l :: l in dks ==> !Has(m0, l) && At(m1, l) == ZERO
    ensures MovedSoFar(m0, m1, m1, caps, s, sks, dks, 0, n, ts)
  {
    assert forall j :: 0 <= j < |dks| ==> dks[j] in dks;
  }

  lemma StructContent(mem: Mem, s: Loc)
    requires Has(mem, s) && ObjectAt(mem, s).Some? && ObjectAt(mem, s).value.kind.KStruct?
    ensures At(mem, s) != ZERO ==> TargetOf(mem, s).Some? && TargetOf(mem, s).value.off >= 0
    ensures var o := ObjectAt(mem, s).value;
      var from := if At(mem, s) == ZERO then Loc(s.seg, s.off + 1) else Loc(TargetOf(mem, s).value.seg, TargetOf(mem, s).value.off);
      o.data == Range(from.seg, from.off, o.kind.dataWords) && |o.kids| == o.kind.pointers
  {
    if At(mem, s) == ZERO {
      assert Range(s.seg, s.off + 1, 0) == [];
    } else {
      ObjectParts(mem, s);
    }
  }

  lemma BodyRoom(m0: Mem, m1: Mem, at: Loc, from: Loc, n: nat, dw: nat, pc: nat)
    requires Kept(m0, m1) && n <= dw && forall l :: InRegion(from, n, l) ==> Has(m0, l)
    requires forall l :: InRegion(at, dw + pc, l) ==> Has(m1, l) && At(m1, l) == ZERO && !Has(m0, l)
    ensures forall l :: InRegion(from, n, l) ==> Has(m1, l)
    ensures forall l :: InRegion(at, n, l) ==> Has(m1, l)
    ensures forall l :: InRegion(from, n, l) ==> !InRegion(at, n, l)
  {
    assert forall l :: InRegion(at, n, l) ==> InRegion(at, dw + pc, l);
  }

  lemma BodyFits(m1: Mem, m2: Mem, at: Loc, ls: seq<Loc>, s: Loc, m0: Mem)
    requires KeptBut(m1, m2, ls) && Fitting(m1, at) && Kept(m0, m2) && Has(m0, s)
    ensures Fitting(m2, at) && Has(m2, s)
  {
  }

  lemma NewBodyStands(m0: Mem, m2: Mem, m1: Mem, s: Loc, at: Loc, pads: seq<Loc>, ls: seq<Loc>, dks: seq<Loc>, dw: nat, pc: nat, n: nat)
    requires Rehoused(m0, m1, s, at, dw, pc, pads) && KeptBut(m2, m1, [s]) && Kept(m0, m2) && Has(m0, s)
    requires HasAll(m2, ls) && HasAll(m2, dks) && HasAll(m1, pads) && forall l :: l in pads ==> !Has(m2, l)
    requires (forall l :: l in ls || l in dks ==> !Has(m0, l)) && (forall l :: l in ls ==> l !in dks)
    requires forall l :: l in dks ==> At(m2, l) == ZERO
    ensures KeptBut(m0, m1, [s]) && HasAll(m1, ls) && HasAll(m1, dks) && Values(m1, ls) == Values(m2, ls)
    ensures forall l :: l in dks ==> At(m1, l) == ZERO
    ensures forall l :: l in pads || l in ls ==> Has(m1, l) && l !in dks
  {
    forall l | l in ls || l in dks
      ensures SameAt(m2, m1, l)
    {
      assert l != s;
    }
    ValuesSame(m2, m1, ls);
  }

  lemma SoFar(m0: Mem, m1: Mem, m: Mem, caps: Caps, s: Loc, sks: seq<Loc>, dks: seq<Loc>, k: nat, n: nat, ts: seq<Tree>)
    requires k < |sks| == |ts| && k < |dks| && MovedSoFar(m0, m1, m, caps, s, sks, dks, k, n, ts)
    ensures KeptBut(m0, m, [s]) && Grown(m0, m) && !Has(m0, dks[k]) && Has(m, dks[k]) && At(m, dks[k]) == ZERO
    ensures forall l :: Has(m1, l) ==> Has(m, l)
  {
    assert dks[k] in dks;
  }

  lemma BodyStays(m0: Mem, m1: Mem, m: Mem, caps: Caps, s: Loc, o: Object, dks: seq<Loc>, k: nat, n: nat, ts: seq<Tree>)
    requires k <= |o.kids| == |ts| && k <= |dks| && MovedSoFar(m0, m1, m, caps, s, o.kids, dks, k, n, ts)
    requires HasAll(m0, o.data) && ReadAll(m0, caps, o.kids, n).Some?
    ensures HasAll(m, o.data + o.kids)
  {
    ReadableAreAllocated(m0, caps, o.kids, n);
    forall l | l in o.data + o.kids
      ensures Has(m, l)
    {
      assert Has(m0, l);
    }
  }
}
