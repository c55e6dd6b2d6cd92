/** Writing a pointer to content that is there: near, or through a single or double landing pad. */
module Placement {

  // initPointer and the setters of src/serialization/pointers/pointer.utils.ts.

  import opened Options
  import opened Memory
  import opened Trees

  /** Where the pointer's own data goes, and which offset it needs, so that `p` leads to `content`. */
  datatype Slot = Slot(target: Loc, offset: int, pads: seq<Loc>)

  ghost predicate Leads(mem: Mem, p: Loc, content: Loc, s: Slot) {
    Has(mem, p) && Has(mem, s.target) &&
    if s.pads == [] then
      p.seg == content.seg && s.target == p && s.offset == content.off - p.off - 1
    else if |s.pads| == 1 then
      && s.pads[0] == s.target != p && s.target.seg == content.seg
      && s.offset == content.off - s.target.off - 1
      && At(mem, p) == FarWord(false, s.target.off, s.target.seg)
    else
      && |s.pads| == 2 && s.pads[1] == s.target == Loc(s.pads[0].seg, s.pads[0].off + 1)
      && s.offset == 0 && s.target != p && s.pads[0] != p && Has(mem, s.pads[0])
      && At(mem, p) == FarWord(true, s.pads[0].off, s.pads[0].seg)
      && At(mem, s.pads[0]) == FarWord(false, content.off, content.seg)
  }

  /** Content positions and segment numbers fit their fields. */
  predicate Fitting(mem: Mem, content: Loc) {
    content.seg < |mem.segs| && content.off <= mem.segs[content.seg].used
  }

  /** The data stored at the target is what the pointer then means, in all three forms. */
  lemma LeadsReads(mem: Mem, p: Loc, content: Loc, s: Slot, w: Word)
    requires Valid(mem) && Leads(mem, p, content, s) && Fitting(mem, content)
    requires TypeOf(w) != FAR
    ensures var found := TargetOf(Put(mem, s.target, w), p);
      && found.Some? && found.value.word == w && found.value.pads == s.pads
      && (OffsetOf(w) == s.offset ==> found.value.seg == content.seg && found.value.off == content.off)
  {
    hide FarWord, OffsetOf, TypeOf;
    PutKeeps(mem, s.target, w);
    assert ValidSeg(mem.segs[content.seg]) && ValidSeg(mem.segs[s.target.seg]);
    if |s.pads| == 1 {
      FarReads(false, s.target.off, s.target.seg);
      assert s.pads == [s.target];
    } else if |s.pads| == 2 {
      assert s.pads == [s.pads[0], s.target];
      FarReads(true, s.pads[0].off, s.pads[0].seg);
      FarReads(false, content.off, content.seg);
    }
  }

  /** The offset a near target needs fits the offset field. */
  lemma OffsetFits(mem: Mem, p: Loc, content: Loc, s: Slot)
    requires Valid(mem) && Leads(mem, p, content, s) && Fitting(mem, content)
    ensures -0x2000_0000 <= s.offset < 0x2000_0000
  {
    assert ValidSeg(mem.segs[content.seg]) && ValidSeg(mem.segs[s.target.seg]);
  }

  /** A struct pointer reads back with the location and size given. */
  lemma StructReadsBack(mem: Mem, p: Loc, content: Loc, s: Slot, dw: nat, pc: nat)
    requires Valid(mem) && Leads(mem, p, content, s) && Fitting(mem, content)
    requires dw < 0x1_0000 && pc < 0x1_0000
    ensures var mem' := Put(mem, s.target, NearWord(STRUCT, s.offset, StructHi(dw, pc)));
      At(mem', p) != ZERO ==>
        ObjectAt(mem', p) == Some(Object(KStruct(dw, pc), Range(content.seg, content.off, dw),
                                         Range(content.seg, content.off + dw, pc), [p] + s.pads))
    ensures var mem' := Put(mem, s.target, NearWord(STRUCT, s.offset, StructHi(dw, pc)));
      At(mem', p) == ZERO ==> dw == 0 && pc == 0
  {
    hide NearWord, TypeOf, OffsetOf, TargetOf, StructHi, Leads, FarWord, DataWords, PointerCount;
    var w := NearWord(STRUCT, s.offset, StructHi(dw, pc));
    LeadsHas(mem, p, content, s);
    OffsetFits(mem, p, content, s);
    NearReads(STRUCT, s.offset, StructHi(dw, pc));
    NearHi(STRUCT, s.offset, StructHi(dw, pc));
    StructHiReads(dw, pc, w);
    PutKeeps(mem, s.target, w);
    LeadsReads(mem, p, content, s, w);
    ZeroHi(mem, p, content, s, w);
    if At(Put(mem, s.target, w), p) == ZERO {
      ZeroSize(w);
    }
  }

  lemma NearHi(kind: nat, off: int, hi: half)
    requires kind < 4
    ensures NearWord(kind, off, hi).hi == hi
  {
  }

  lemma LeadsHas(mem: Mem, p: Loc, content: Loc, s: Slot)
    requires Leads(mem, p, content, s)
    ensures Has(mem, p) && Has(mem, s.target)
  {
  }

  /** A pointer that is null after all was written in place. */
  lemma ZeroHi(mem: Mem, p: Loc, content: Loc, s: Slot, w: Word)
    requires Valid(mem) && Leads(mem, p, content, s)
    ensures At(Put(mem, s.target, w), p) == ZERO ==> w == ZERO
  {
    if s.pads != [] {
      var pad := s.pads[0];
      assert At(Put(mem, s.target, w), p) == At(mem, p);
      assert ValidSeg(mem.segs[pad.seg]);
      FarReads(|s.pads| == 2, pad.off, pad.seg);
      FarIsNotNull(At(mem, p));
    }
  }

  lemma FarIsNotNull(w: Word)
    requires TypeOf(w) == FAR
    ensures w != ZERO
  {
  }

  lemma ZeroSize(w: Word)
    ensures w == ZERO ==> DataWords(w) == 0 && PointerCount(w) == 0
  {
  }

  /** A list pointer reads back with the location, element size and length given; a composite list with
      the size and count its tag says. */
  lemma ListReadsBack(mem: Mem, p: Loc, content: Loc, s: Slot, size: nat, length: nat)
    requires Valid(mem) && Leads(mem, p, content, s) && Fitting(mem, content)
    requires size < 8 && length < 0x2000_0000
    ensures var mem' := Put(mem, s.target, NearWord(LIST, s.offset, ListHi(size, length)));
      ObjectAt(mem', p) == ListAt(mem', Target(NearWord(LIST, s.offset, ListHi(size, length)), content.seg, content.off, s.pads), [p] + s.pads)
    ensures ElementSize(NearWord(LIST, s.offset, ListHi(size, length))) == size
    ensures ListLength(NearWord(LIST, s.offset, ListHi(size, length))) == length
  {
    hide NearWord, TypeOf, OffsetOf, TargetOf, ListHi, Leads, FarWord, ElementSize, ListLength, ListAt;
    var w := NearWord(LIST, s.offset, ListHi(size, length));
    LeadsHas(mem, p, content, s);
    OffsetFits(mem, p, content, s);
    NearReads(LIST, s.offset, ListHi(size, length));
    NearHi(LIST, s.offset, ListHi(size, length));
    ListHiReads(size, length, w);
    PutKeeps(mem, s.target, w);
    LeadsReads(mem, p, content, s, w);
    ZeroHi(mem, p, content, s, w);
    ListIsNotNull(w);
  }

  lemma ListIsNotNull(w: Word)
    requires TypeOf(w) == LIST
    ensures w != ZERO
  {
  }
}
