/**
 Trees whose parts do not overlap, and what erasing one does to memory (erase of
 src/serialization/pointers/pointer.utils.ts).
 */
module Erasing {
  import opened Options
  import opened Memory
  import opened Trees

  /** No word serves two purposes: the words that lead to an object, its data, and the trees under its
      pointers are all apart. */
  ghost predicate Apart(mem: Mem, p: Loc, n: nat)
    decreases n, 0
  {
    n > 0 && Has(mem, p) && ObjectAt(mem, p).Some? &&
    var o := ObjectAt(mem, p).value;
    && (forall i, j :: 0 <= i < j < |o.frame| ==> o.frame[i] != o.frame[j])
    && HasAll(mem, o.data)
    && (forall l :: l in o.frame ==> l !in o.data && !TouchesAny(mem, o.kids, n - 1, l))
    && (forall l :: l in o.data ==> !TouchesAny(mem, o.kids, n - 1, l))
    && ApartAll(mem, o.kids, n - 1)
  }

  ghost predicate ApartAll(mem: Mem, ps: seq<Loc>, n: nat)
    decreases n, |ps|
  {
    ps != [] ==>
      && Apart(mem, ps[0], n)
      && ApartAll(mem, ps[1..], n)
      && (forall l :: Touches(mem, ps[0], n, l) ==> !TouchesAny(mem, ps[1..], n, l))
  }

  /** The data of a bit list is left behind: its size in bytes is not a number. */
  function WipedData(o: Object): seq<Loc> {
    if o.kind.KList? && o.kind.size == BIT then [] else o.data
  }

  /** The words erasing a tree sets to zero. */
  predicate Wiped(mem: Mem, p: Loc, n: nat, l: Loc)
    decreases n, 0
  {
    n > 0 && Has(mem, p) &&
    match ObjectAt(mem, p)
    case None => false
    case Some(o) => l in o.frame || l in WipedData(o) || WipedAny(mem, o.kids, n - 1, l)
  }

  predicate WipedAny(mem: Mem, ps: seq<Loc>, n: nat, l: Loc)
    decreases n, |ps|
  {
    ps != [] && (Wiped(mem, ps[0], n, l) || WipedAny(mem, ps[1..], n, l))
  }

  /** Exactly the words in `ls` and those of the trees under `ks` are zero now. */
  ghost predicate Erased(mem: Mem, mem': Mem, ls: seq<Loc>, ks: seq<Loc>, n: nat) {
    && SameShape(mem, mem')
    && forall l :: Fits(mem, l) ==> At(mem', l) == if l in ls || WipedAny(mem, ks, n, l) then ZERO else At(mem, l)
  }

  /** Exactly the tree's wiped words are zero now, and everything else is as it was. */
  ghost predicate ErasedTree(mem: Mem, mem': Mem, p: Loc, n: nat) {
    && SameShape(mem, mem')
    && forall l :: Fits(mem, l) ==> At(mem', l) == if Wiped(mem, p, n, l) then ZERO else At(mem, l)
  }

  ghost predicate SameShape(mem: Mem, mem': Mem) {
    && mem'.single == mem.single && |mem'.segs| == |mem.segs|
    && (forall i :: 0 <= i < |mem.segs| ==>
          mem'.segs[i].used == mem.segs[i].used && |mem'.segs[i].words| == |mem.segs[i].words|)
    && (forall l :: Fits(mem', l) == Fits(mem, l) && Has(mem', l) == Has(mem, l))
  }

  /** What is wiped is part of the tree. */
  lemma {:induction false} WipedIsTouched(mem: Mem, p: Loc, n: nat, l: Loc)
    requires Wiped(mem, p, n, l)
    ensures Touches(mem, p, n, l)
    decreases n, 0
  {
    hide ObjectAt;
    var o := ObjectAt(mem, p).value;
    if l !in o.frame && l !in WipedData(o) {
      WipedAnyIsTouched(mem, o.kids, n - 1, l);
    }
  }

  lemma {:induction false} WipedAnyIsTouched(mem: Mem, ps: seq<Loc>, n: nat, l: Loc)
    requires WipedAny(mem, ps, n, l)
    ensures TouchesAny(mem, ps, n, l)
    decreases n, |ps|
  {
    if Wiped(mem, ps[0], n, l) {
      WipedIsTouched(mem, ps[0], n, l);
    } else {
      WipedAnyIsTouched(mem, ps[1..], n, l);
    }
  }

  /** The data words of the bit lists in a tree. */
  predicate BitData(mem: Mem, p: Loc, n: nat, l: Loc)
    decreases n, 0
  {
    n > 0 && Has(mem, p) &&
    match ObjectAt(mem, p)
    case None => false
    case Some(o) => (o.kind.KList? && o.kind.size == BIT && l in o.data) || BitDataAny(mem, o.kids, n - 1, l)
  }

  predicate BitDataAny(mem: Mem, ps: seq<Loc>, n: nat, l: Loc)
    decreases n, |ps|
  {
    ps != [] && (BitData(mem, ps[0], n, l) || BitDataAny(mem, ps[1..], n, l))
  }

  lemma {:induction false} BitDataIsTouched(mem: Mem, p: Loc, n: nat, l: Loc)
    requires BitData(mem, p, n, l)
    ensures Touches(mem, p, n, l)
    decreases n, 0
  {
    hide ObjectAt;
    var o := ObjectAt(mem, p).value;
    if BitDataAny(mem, o.kids, n - 1, l) {
      BitDataAnyIsTouched(mem, o.kids, n - 1, l);
    }
  }

  lemma {:induction false} BitDataAnyIsTouched(mem: Mem, ps: seq<Loc>, n: nat, l: Loc)
    requires BitDataAny(mem, ps, n, l)
    ensures TouchesAny(mem, ps, n, l)
    decreases n, |ps|
  {
    if BitData(mem, ps[0], n, l) {
      BitDataIsTouched(mem, ps[0], n, l);
    } else {
      BitDataAnyIsTouched(mem, ps[1..], n, l);
    }
  }

  /** Erasing a tree whose parts are apart wipes all of it but exactly the data of its bit lists. */
  lemma {:induction false} WipedAllButBits(mem: Mem, p: Loc, n: nat, l: Loc)
    requires Apart(mem, p, n)
    ensures Wiped(mem, p, n, l) <==> Touches(mem, p, n, l) && !BitData(mem, p, n, l)
    decreases n, 0
  {
    ListHasNoKids(mem, p);
    hide ObjectAt;
    var o := ObjectAt(mem, p).value;
    WipedAnyAllButBits(mem, o.kids, n - 1, l);
    if WipedAny(mem, o.kids, n - 1, l) {
      WipedAnyIsTouched(mem, o.kids, n - 1, l);
    }
    if BitDataAny(mem, o.kids, n - 1, l) {
      BitDataAnyIsTouched(mem, o.kids, n - 1, l);
    }
  }

  lemma {:induction false} WipedAnyAllButBits(mem: Mem, ps: seq<Loc>, n: nat, l: Loc)
    requires ApartAll(mem, ps, n)
    ensures WipedAny(mem, ps, n, l) <==> TouchesAny(mem, ps, n, l) && !BitDataAny(mem, ps, n, l)
    decreases n, |ps|
  {
    hide Apart, Touches, Wiped, BitData;
    if ps != [] {
      WipedAllButBits(mem, ps[0], n, l);
      WipedAnyAllButBits(mem, ps[1..], n, l);
      if BitData(mem, ps[0], n, l) {
        BitDataIsTouched(mem, ps[0], n, l);
      }
      if BitDataAny(mem, ps[1..], n, l) {
        BitDataAnyIsTouched(mem, ps[1..], n, l);
      }
    }
  }

  lemma ListHasNoKids(mem: Mem, p: Loc)
    requires Has(mem, p) && ObjectAt(mem, p).Some?
    ensures ObjectAt(mem, p).value.kind.KList? ==> ObjectAt(mem, p).value.kids == []
  {
  }

  // ---------------------------------------------------------------------------------------------
  // Trees apart stay so when other words change

  lemma {:induction false} ApartSame(mem: Mem, mem': Mem, p: Loc, n: nat)
    requires Apart(mem, p, n) && Grown(mem, mem')
    requires forall l :: Touches(mem, p, n, l) ==> SameAt(mem, mem', l)
    ensures Apart(mem', p, n)
    ensures forall l :: Touches(mem', p, n, l) == Touches(mem, p, n, l)
    ensures forall l :: Wiped(mem', p, n, l) == Wiped(mem, p, n, l)
    decreases n, 0
  {
    hide ObjectAt;
    var o := ObjectAt(mem, p).value;
    FrameHasPointer(mem, p);
    assert forall l :: l in o.frame ==> Touches(mem, p, n, l);
    ObjectSame(mem, mem', p);
    assert forall l :: l in o.data ==> Touches(mem, p, n, l);
    ApartAllSame(mem, mem', o.kids, n - 1);
  }

  lemma {:induction false} ApartAllSame(mem: Mem, mem': Mem, ps: seq<Loc>, n: nat)
    requires ApartAll(mem, ps, n) && Grown(mem, mem')
    requires forall l :: TouchesAny(mem, ps, n, l) ==> SameAt(mem, mem', l)
    ensures ApartAll(mem', ps, n)
    ensures forall l :: TouchesAny(mem', ps, n, l) == TouchesAny(mem, ps, n, l)
    ensures forall l :: WipedAny(mem', ps, n, l) == WipedAny(mem, ps, n, l)
    decreases n, |ps|
  {
    hide Apart, Touches, Wiped;
    if ps != [] {
      assert forall l :: Touches(mem, ps[0], n, l) ==> TouchesAny(mem, ps, n, l);
      assert forall l :: TouchesAny(mem, ps[1..], n, l) ==> TouchesAny(mem, ps, n, l);
      ApartSame(mem, mem', ps[0], n);
      ApartAllSame(mem, mem', ps[1..], n);
    }
  }

  /** A null pointer is a tree of one word. */
  lemma NullIsApart(mem: Mem, p: Loc, n: nat)
    requires Has(mem, p) && At(mem, p) == ZERO && n > 0
    ensures Apart(mem, p, n) && forall l :: Touches(mem, p, n, l) == (l == p)
  {
  }

  lemma {:induction false} ApartAllocated(mem: Mem, p: Loc, n: nat, l: Loc)
    requires Apart(mem, p, n) && Touches(mem, p, n, l)
    ensures Has(mem, l)
    decreases n, 0
  {
    FrameAllocated(mem, p);
    hide ObjectAt;
    var o := ObjectAt(mem, p).value;
    if l !in o.frame && l !in o.data {
      ApartAllAllocated(mem, o.kids, n - 1, l);
    }
  }

  lemma {:induction false} ApartAllAllocated(mem: Mem, ps: seq<Loc>, n: nat, l: Loc)
    requires ApartAll(mem, ps, n) && TouchesAny(mem, ps, n, l)
    ensures Has(mem, l)
    decreases n, |ps|
  {
    if Touches(mem, ps[0], n, l) {
      ApartAllocated(mem, ps[0], n, l);
    } else {
      ApartAllAllocated(mem, ps[1..], n, l);
    }
  }

  lemma {:induction false} WipedAnySplit(mem: Mem, ps: seq<Loc>, k: nat, n: nat, l: Loc)
    requires k < |ps|
    ensures WipedAny(mem, ps[..k + 1], n, l) == (WipedAny(mem, ps[..k], n, l) || Wiped(mem, ps[k], n, l))
    decreases k
  {
    hide Wiped;
    if k == 0 {
      assert ps[..1][1..] == [];
    } else {
      assert ps[..k + 1][1..] == ps[1..][..k] && ps[..k][1..] == ps[1..][..k - 1];
      WipedAnySplit(mem, ps[1..], k - 1, n, l);
    }
  }

  // ---------------------------------------------------------------------------------------------
  // Erasing step by step

  lemma ZeroKeeps(mem: Mem, l: Loc)
    requires Valid(mem) && Fits(mem, l)
    ensures Valid(Put(mem, l, ZERO)) && SameShape(mem, Put(mem, l, ZERO))
    ensures At(Put(mem, l, ZERO), l) == ZERO
    ensures forall x :: Fits(mem, x) && x != l ==> At(Put(mem, l, ZERO), x) == At(mem, x)
  {
    var mem' := Put(mem, l, ZERO);
    assert ValidSeg(mem'.segs[l.seg]) by {
      assert ValidSeg(mem.segs[l.seg]);
    }
  }

  lemma ErasedNothing(mem: Mem, n: nat)
    ensures Erased(mem, mem, [], [], n)
  {
  }

  /** Only which words are erased matters, not their order. */
  lemma ErasedInAnyOrder(m0: Mem, m1: Mem, ls: seq<Loc>, ls': seq<Loc>, n: nat)
    requires Erased(m0, m1, ls, [], n) && forall l :: l in ls <==> l in ls'
    ensures Erased(m0, m1, ls', [], n)
  {
  }

  lemma ErasedMore(m0: Mem, m1: Mem, m2: Mem, ls: seq<Loc>, more: seq<Loc>, ks: seq<Loc>, n: nat)
    requires Erased(m0, m1, ls, ks, n) && Erased(m1, m2, more, [], n)
    ensures Erased(m0, m2, ls + more, ks, n)
  {
  }

  /** The trees under `ks`, erased after words that none of them uses. */
  lemma ErasedKids(m0: Mem, m1: Mem, m2: Mem, ls: seq<Loc>, ks: seq<Loc>, n: nat)
    requires Erased(m0, m1, ls, [], n) && Erased(m1, m2, [], ks, n)
    requires forall l :: WipedAny(m1, ks, n, l) == WipedAny(m0, ks, n, l)
    ensures Erased(m0, m2, ls, ks, n)
  {
  }

  /** Trees that use none of the erased words are as they were. */
  lemma ErasedElsewhere(m0: Mem, m1: Mem, ls: seq<Loc>, ks: seq<Loc>, ps: seq<Loc>, n: nat)
    requires Erased(m0, m1, ls, ks, n) && ApartAll(m0, ps, n)
    requires forall l :: TouchesAny(m0, ps, n, l) ==> l !in ls && !WipedAny(m0, ks, n, l)
    ensures ApartAll(m1, ps, n)
    ensures forall l :: TouchesAny(m1, ps, n, l) == TouchesAny(m0, ps, n, l)
    ensures forall l :: WipedAny(m1, ps, n, l) == WipedAny(m0, ps, n, l)
  {
    forall l | TouchesAny(m0, ps, n, l)
      ensures SameAt(m0, m1, l)
    {
      ApartAllAllocated(m0, ps, n, l);
    }
    hide ApartAll, TouchesAny, WipedAny;
    ApartAllSame(m0, m1, ps, n);
  }

  /** The words that lead to an object stay readable until they are erased themselves. */
  lemma ErasedFrame(m0: Mem, m1: Mem, p: Loc, n: nat, ls: seq<Loc>)
    requires Apart(m0, p, n) && At(m0, p) != ZERO
    requires Erased(m0, m1, ls, ObjectAt(m0, p).value.kids, n - 1)
    requires forall l :: l in [p] + TargetOf(m0, p).value.pads ==> l !in ls
    ensures TargetOf(m0, p).Some? && TargetOf(m1, p) == TargetOf(m0, p)
  {
    var o := ObjectAt(m0, p).value;
    PadsInFrame(m0, p);
    FrameHasPointer(m0, p);
    FrameAllocated(m0, p);
    hide ObjectAt;
    forall l | l in [p] + TargetOf(m0, p).value.pads
      ensures SameAt(m0, m1, l)
    {
      assert l in o.frame;
      NotWiped(m0, o.kids, n - 1, l);
    }
    TargetSame(m0, m1, p);
  }

  lemma NotWiped(mem: Mem, ps: seq<Loc>, n: nat, l: Loc)
    requires !TouchesAny(mem, ps, n, l)
    ensures !WipedAny(mem, ps, n, l)
  {
    if WipedAny(mem, ps, n, l) {
      WipedAnyIsTouched(mem, ps, n, l);
    }
  }

  /** Everything that has to go is gone. */
  lemma ErasedWhole(m0: Mem, m1: Mem, p: Loc, n: nat, ls: seq<Loc>)
    requires Apart(m0, p, n)
    requires Erased(m0, m1, ls, ObjectAt(m0, p).value.kids, n - 1)
    requires var o := ObjectAt(m0, p).value;
      && (forall l :: l in o.frame || l in WipedData(o) ==> l in ls)
      && (forall l :: l in ls ==> l in o.frame || l in WipedData(o) || l in o.kids)
    ensures ErasedTree(m0, m1, p, n)
  {
    hide ObjectAt;
    var o := ObjectAt(m0, p).value;
    forall l | l in o.kids
      ensures WipedAny(m0, o.kids, n - 1, l)
    {
      KidsAreWiped(m0, o.kids, n - 1, l);
    }
  }

  lemma {:induction false} KidsAreWiped(mem: Mem, ps: seq<Loc>, n: nat, l: Loc)
    requires ApartAll(mem, ps, n) && l in ps
    ensures WipedAny(mem, ps, n, l)
    decreases |ps|
  {
    if ps[0] == l {
      FrameHasPointer(mem, l);
    } else {
      KidsAreWiped(mem, ps[1..], n, l);
    }
  }

  lemma NullErased(mem: Mem, p: Loc, n: nat)
    requires Has(mem, p) && At(mem, p) == ZERO
    ensures ErasedTree(mem, mem, p, n)
  {
  }

  /** What is erased of an object before its pointers: its data, or a composite list's tag. */
  function FirstErased(o: Object): seq<Loc> {
    match o.kind
    case KComposite(_, _, _) => if o.frame == [] then [] else [o.frame[|o.frame| - 1]]
    case _ => WipedData(o)
  }

  lemma KidsUnharmed(m0: Mem, m1: Mem, p: Loc, n: nat, first: seq<Loc>)
    requires Apart(m0, p, n) && first == FirstErased(ObjectAt(m0, p).value) && Erased(m0, m1, first, [], n - 1)
    ensures var kids, m: nat := ObjectAt(m0, p).value.kids, n - 1;
      ApartAll(m1, kids, m) && forall l :: WipedAny(m1, kids, m, l) == WipedAny(m0, kids, m, l)
  {
    hide ObjectAt;
    ErasedElsewhere(m0, m1, first, [], ObjectAt(m0, p).value.kids, n - 1);
  }

  /** After the content the words that lead to it are still there. */
  lemma ContentErased(m0: Mem, m1: Mem, p: Loc, n: nat, ls: seq<Loc>)
    requires Apart(m0, p, n) && At(m0, p) != ZERO
    requires var o := ObjectAt(m0, p).value;
      && ls == FirstErased(o) + (if o.kind.KComposite? then o.data + o.kids else [])
      && Erased(m0, m1, ls, o.kids, n - 1)
    ensures TargetOf(m0, p).Some? && TargetOf(m1, p) == TargetOf(m0, p)
  {
    var o := ObjectAt(m0, p).value;
    PadsInFrame(m0, p);
    FrameHasPointer(m0, p);
    TagIsLast(m0, p);
    hide ObjectAt, TargetOf;
    var path := [p] + TargetOf(m0, p).value.pads;
    forall l | l in path
      ensures l !in ls
    {
      assert l in o.frame && l !in o.data;
      if l in o.kids {
        KidsAreTouched(m0, o.kids, n - 1, l);
      }
    }
    ErasedFrame(m0, m1, p, n, ls);
  }

  /** The words that lead to an object, in order; a composite list's tag is the last. */
  lemma TagIsLast(mem: Mem, p: Loc)
    requires Has(mem, p) && ObjectAt(mem, p).Some? && At(mem, p) != ZERO
    requires var f := ObjectAt(mem, p).value.frame; forall i, j :: 0 <= i < j < |f| ==> f[i] != f[j]
    ensures var o, path := ObjectAt(mem, p).value, [p] + TargetOf(mem, p).value.pads;
      if o.kind.KComposite? then
        o.frame == path + FirstErased(o) && forall l :: l in path ==> l !in FirstErased(o)
      else o.frame == path
  {
    PadsInFrame(mem, p);
    var o, path := ObjectAt(mem, p).value, [p] + TargetOf(mem, p).value.pads;
    if o.kind.KComposite? {
      forall l | l in path
        ensures l != o.frame[|path|]
      {
        var i :| 0 <= i < |path| && path[i] == l;
        assert o.frame[i] == l;
      }
    }
  }

  lemma {:induction false} KidsAreTouched(mem: Mem, ps: seq<Loc>, n: nat, l: Loc)
    requires ApartAll(mem, ps, n) && l in ps
    ensures TouchesAny(mem, ps, n, l)
    decreases |ps|
  {
    if ps[0] == l {
      FrameHasPointer(mem, l);
    } else {
      KidsAreTouched(mem, ps[1..], n, l);
    }
  }

  lemma {:induction false} ApartAreAllocated(mem: Mem, ps: seq<Loc>, n: nat)
    requires ApartAll(mem, ps, n)
    ensures HasAll(mem, ps)
    decreases |ps|
  {
    if ps != [] {
      ApartAreAllocated(mem, ps[1..], n);
    }
  }

  /** All the words that are erased are there. */
  lemma ApartParts(mem: Mem, p: Loc, n: nat)
    requires Apart(mem, p, n)
    ensures n > 0 && Has(mem, p) && ObjectAt(mem, p).Some?
    ensures var o := ObjectAt(mem, p).value;
      HasAll(mem, FirstErased(o)) && HasAll(mem, o.data) && HasAll(mem, o.kids)
  {
    FrameAllocated(mem, p);
    hide ObjectAt;
    ApartAreAllocated(mem, ObjectAt(mem, p).value.kids, n - 1);
  }

  lemma AllErased(m0: Mem, m1: Mem, p: Loc, n: nat, ls: seq<Loc>)
    requires Apart(m0, p, n) && At(m0, p) != ZERO && TargetOf(m0, p).Some?
    requires var o := ObjectAt(m0, p).value;
      && ls == FirstErased(o) + (if o.kind.KComposite? then o.data + o.kids else []) + ([p] + TargetOf(m0, p).value.pads)
      && Erased(m0, m1, ls, o.kids, n - 1)
    ensures ErasedTree(m0, m1, p, n)
  {
    TagIsLast(m0, p);
    hide ObjectAt, TargetOf, Erased, ErasedTree;
    ErasedWhole(m0, m1, p, n, ls);
  }

  // ---------------------------------------------------------------------------------------------
  // Erasing pointers one after another

  ghost predicate ErasedSoFar(m0: Mem, mem: Mem, ps: seq<Loc>, k: nat, n: nat)
    requires k <= |ps|
  {
    Erased(m0, mem, [], ps[..k], n)
  }

  lemma {:induction false} ApartSplit(mem: Mem, ps: seq<Loc>, k: nat, n: nat)
    requires ApartAll(mem, ps, n) && k < |ps|
    ensures Apart(mem, ps[k], n)
    ensures forall l :: Touches(mem, ps[k], n, l) ==> !WipedAny(mem, ps[..k], n, l)
    decreases |ps|
  {
    hide Apart, Touches, Wiped;
    if k == 0 {
      assert ps[..0] == [];
    } else {
      ApartSplit(mem, ps[1..], k - 1, n);
      forall l | Touches(mem, ps[k], n, l)
        ensures !WipedAny(mem, ps[..k], n, l)
      {
        assert ps[..k][1..] == ps[1..][..k - 1];
        TouchesKid(mem, ps[1..], n, k - 1, l);
        if Wiped(mem, ps[0], n, l) {
          WipedIsTouched(mem, ps[0], n, l);
        }
      }
    }
  }

  lemma NextIsApart(m0: Mem, mem: Mem, ps: seq<Loc>, k: nat, n: nat)
    requires ApartAll(m0, ps, n) && k < |ps| && ErasedSoFar(m0, mem, ps, k, n)
    ensures Apart(mem, ps[k], n) && forall l :: Wiped(mem, ps[k], n, l) == Wiped(m0, ps[k], n, l)
  {
    hide Apart, ApartAll, Wiped, WipedAny, Touches;
    ApartSplit(m0, ps, k, n);
    forall l | Touches(m0, ps[k], n, l)
      ensures SameAt(m0, mem, l)
    {
      ApartAllocated(m0, ps[k], n, l);
    }
    ApartSame(m0, mem, ps[k], n);
  }

  lemma ErasedOneMore(m0: Mem, m1: Mem, m2: Mem, ps: seq<Loc>, k: nat, n: nat)
    requires k < |ps| && ErasedSoFar(m0, m1, ps, k, n) && ErasedTree(m1, m2, ps[k], n)
    requires forall l :: Wiped(m1, ps[k], n, l) == Wiped(m0, ps[k], n, l)
    ensures ErasedSoFar(m0, m2, ps, k + 1, n)
  {
    hide Wiped, WipedAny;
    forall l
      ensures WipedAny(m0, ps[..k + 1], n, l) == (WipedAny(m0, ps[..k], n, l) || Wiped(m0, ps[k], n, l))
    {
      WipedAnySplit(m0, ps, k, n, l);
    }
  }
}
