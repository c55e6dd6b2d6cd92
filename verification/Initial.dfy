/**
 New structs and lists: every word of their content is zero (initStruct of
 src/serialization/pointers/struct.utils.ts, initList of src/serialization/pointers/list/list.ts).
 */
module Initial {
  import opened Options
  import opened Memory
  import opened Trees
  import opened Placement
  import opened Erasing
  import opened Copying
  import opened Resizing

  lemma {:induction false} NullsBuilt(m0: Mem, mem: Mem, caps: Caps, ps: seq<Loc>)
    requires HasAll(mem, ps) && forall p :: p in ps ==> At(mem, p) == ZERO
    ensures BuiltAll(m0, mem, caps, ps, 1, Nulls(|ps|))
  {
    forall k | 0 <= k < |ps|
      ensures Built(m0, mem, caps, ps[k], 1, NULL)
    {
      assert ps[k] in ps;
      NullReads(mem, caps, ps[k], 1);
    }
    BuiltEach(m0, mem, caps, ps, 1, Nulls(|ps|));
  }

  lemma ZerosThere(mem: Mem, ls: seq<Loc>)
    requires HasAll(mem, ls) && forall l :: l in ls ==> At(mem, l) == ZERO
    ensures Values(mem, ls) == Zeros(|ls|)
  {
    assert forall i :: 0 <= i < |ls| ==> ls[i] in ls;
  }

  lemma BlankStruct(m1: Mem, m2: Mem, caps: Caps, at: Loc, dw: nat, pc: nat)
    requires Kept(m1, m2)
    requires forall l :: InRegion(at, dw + pc, l) ==> Has(m2, l) && At(m2, l) == ZERO && !Has(m1, l)
    ensures forall l :: Has(m1, l) ==> Has(m2, l)
    ensures HasAll(m2, Range(at.seg, at.off, dw)) && Values(m2, Range(at.seg, at.off, dw)) == Zeros(dw)
    ensures BuiltAll(m2, m2, caps, Range(at.seg, at.off + dw, pc), 1, Nulls(pc))
  {
    var ls, ds := Range(at.seg, at.off, dw), Range(at.seg, at.off + dw, pc);
    forall l | l in ls || l in ds
      ensures Has(m2, l) && At(m2, l) == ZERO
    {
      assert InRegion(at, dw + pc, l);
    }
    ZerosThere(m2, ls);
    NullsBuilt(m2, m2, caps, ds);
  }

  function ListKind(size: nat, length: nat, dw: nat, pc: nat): Kind {
    if size == POINTERS then KPointers(length)
    else if size == COMPOSITE then KComposite(length, dw, pc)
    else KList(size, length)
  }

  /** How many data words and pointers a list has. */
  function DataCount(kind: Kind): nat {
    match kind
    case KList(size, length) => ListWords(size, length)
    case KComposite(length, dw, pc) => dw * length
    case _ => 0
  }

  function KidCount(kind: Kind): nat {
    match kind
    case KPointers(length) => length
    case KComposite(length, dw, pc) => pc * length
    case _ => 0
  }

  lemma {:induction false} CompositeCounts(seg: nat, off: nat, length: nat, dw: nat, pc: nat)
    ensures |CompositeData(seg, off, length, dw, pc)| == dw * length
    ensures |CompositeKids(seg, off, length, dw, pc)| == pc * length
    decreases length
  {
    if length > 0 {
      CompositeCounts(seg, off + dw + pc, length - 1, dw, pc);
      assert dw * length == dw * (length - 1) + dw && pc * length == pc * (length - 1) + pc;
    }
  }

  /** The content of a new list that is not composite. */
  lemma BlankList(m0: Mem, m1: Mem, caps: Caps, p: Loc, at: Loc, size: nat, length: nat)
    requires Has(m0, p) && Kept(m0, m1) && !Has(m0, at) && size < 8 && size != COMPOSITE && length < 0x2000_0000
    requires var n := if size == POINTERS then length else ListWords(size, length);
      forall l :: InRegion(at, n, l) ==> Has(m1, l) && At(m1, l) == ZERO && !Has(m0, l)
    ensures var kind := ListKind(size, length, 0, 0);
      && at != p && Has(m1, p) && ListShape(m1, at, size, length, kind)
      && (forall l :: l in ListData(kind, at) || l in ListKids(kind, at) ==> !Has(m0, l))
      && (forall l :: Has(m0, l) ==> Has(m1, l))
      && HasAll(m1, ListData(kind, at)) && Values(m1, ListData(kind, at)) == Zeros(DataCount(kind))
      && BuiltAll(m1, m1, caps, ListKids(kind, at), 1, Nulls(KidCount(kind)))
  {
    var kind := ListKind(size, length, 0, 0);
    var n := if size == POINTERS then length else ListWords(size, length);
    forall l | l in ListData(kind, at) || l in ListKids(kind, at)
      ensures Has(m1, l) && At(m1, l) == ZERO && !Has(m0, l)
    {
      assert InRegion(at, n, l);
    }
    ZerosThere(m1, ListData(kind, at));
    NullsBuilt(m1, m1, caps, ListKids(kind, at));
  }

  lemma NewTag(length: nat, dw: nat, pc: nat, tag: Word)
    requires length < 0x2000_0000 && dw < 0x1_0000 && pc < 0x1_0000 && tag == NearWord(STRUCT, length, StructHi(dw, pc))
    ensures OffsetOf(tag) == length && DataWords(tag) == dw && PointerCount(tag) == pc
  {
    NearReads(STRUCT, length, StructHi(dw, pc));
    NearHi(STRUCT, length, StructHi(dw, pc));
    StructHiReads(dw, pc, tag);
  }

  /** The content of a new composite list. */
  lemma BlankComposite(m0: Mem, m1: Mem, caps: Caps, p: Loc, at: Loc, length: nat, dw: nat, pc: nat)
    requires Has(m0, p) && Kept(m0, m1) && Has(m1, at) && !Has(m0, at) && CompositeWords(length, dw, pc) < 0x2000_0000
    requires OffsetOf(At(m1, at)) == length && DataWords(At(m1, at)) == dw && PointerCount(At(m1, at)) == pc
    requires forall l :: InRegion(Loc(at.seg, at.off + 1), CompositeWords(length, dw, pc), l) ==>
      Has(m1, l) && !Has(m0, l) && At(m1, l) == ZERO
    ensures var kind := KComposite(length, dw, pc);
      && at != p && Has(m1, p) && ListShape(m1, at, COMPOSITE, CompositeWords(length, dw, pc), kind)
      && (forall l :: l in ListData(kind, at) || l in ListKids(kind, at) ==> !Has(m0, l))
      && (forall l :: Has(m0, l) ==> Has(m1, l))
      && HasAll(m1, ListData(kind, at)) && Values(m1, ListData(kind, at)) == Zeros(DataCount(kind))
      && BuiltAll(m1, m1, caps, ListKids(kind, at), 1, Nulls(KidCount(kind)))
  {
    hide CompositeWords, CompositeData, CompositeKids, OffsetOf, DataWords, PointerCount, BuiltAll;
    var content, words := Loc(at.seg, at.off + 1), CompositeWords(length, dw, pc);
    var data, kids := CompositeData(content.seg, content.off, length, dw, pc), CompositeKids(content.seg, content.off, length, dw, pc);
    forall l | l in data || l in kids
      ensures Has(m1, l) && At(m1, l) == ZERO && !Has(m0, l)
    {
      if l in data {
        DataInside(content.seg, content.off, length, dw, pc, l);
      } else {
        KidsInside(content.seg, content.off, length, dw, pc, l);
      }
      assert InRegion(content, words, l);
    }
    CompositeCounts(content.seg, content.off, length, dw, pc);
    ZerosThere(m1, data);
    NullsBuilt(m1, m1, caps, kids);
  }

  /** A list of voids has no content. */
  lemma VoidList(m0: Mem, caps: Caps, p: Loc, length: nat)
    requires Valid(m0) && Has(m0, p) && length < 0x2000_0000
    ensures var m1 := Put(m0, p, NearWord(LIST, 0, ListHi(VOID, length)));
      && KeptBut(m0, m1, [p])
      && Built(m0, m1, caps, p, 2, Node(KList(VOID, length), Zeros(ListWords(VOID, length)), Nulls(0)))
  {
    hide ObjectAt, Built, BuiltAll;
    var content, slot := Loc(p.seg, p.off + 1), Slot(p, 0, []);
    var w := NearWord(LIST, 0, ListHi(VOID, length));
    PutKeeps(m0, p, w);
    ListReadsBack(m0, p, content, slot, VOID, length);
    var m1 := Put(m0, p, w);
    assert ListWords(VOID, length) == 0 && Range(content.seg, content.off, 0) == [];
    assert [p] + [] == [p];
    NullsBuilt(m0, m1, caps, []);
    BuiltObject(m0, m0, m1, caps, p, Object(KList(VOID, length), [], [], [p]), 2, Zeros(0), Nulls(0));
  }
}
