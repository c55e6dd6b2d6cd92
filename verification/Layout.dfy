/** Where the parts of an object are, bit by bit, whatever functions the model counts words with. */
module Layout {

  // The fields of a pointer word, the bits of a list's elements, and the data and pointers of the structs of
  // a composite list (src/serialization/pointers/pointer.utils.ts, src/serialization/pointers/list).

  import opened Options
  import opened Memory
  import opened Trees
  import opened Copying
  import opened Initial

  // ---------------------------------------------------------------------------------------------
  // Pointer words

  /** A pointer word as one 64-bit number, and the fields the encoding gives it: two bits of type, thirty of
      offset in two's complement, then sixteen and sixteen for a struct, or three and twenty-nine for a list;
      a far pointer has a bit for its two-word form, twenty-nine of offset, and a segment. */
  lemma PointerFields(w: Word)
    ensures var x := w.lo + 0x1_0000_0000 * w.hi;
      && TypeOf(w) == x % 4
      && (TypeOf(w) < 2 ==>
            var off := x / 4 % 0x4000_0000;
            OffsetOf(w) == if off < 0x2000_0000 then off else off - 0x4000_0000)
      && DataWords(w) == x / 0x1_0000_0000 % 0x1_0000 && PointerCount(w) == x / 0x1_0000_0000_0000
      && ElementSize(w) == x / 0x1_0000_0000 % 8 && ListLength(w) == x / 0x8_0000_0000
      && (IsDouble(w) <==> x / 4 % 2 == 1) && w.lo / 8 == x / 8 % 0x2000_0000
  {
    TypeAndOffset(w.lo, w.hi);
    FarOffset(w.lo, w.hi);
    HighFields(w.lo, w.hi);
  }

  /** What dividing by `d` gives, said without division. */
  lemma Divided(x: nat, d: nat, q: nat, r: nat)
    requires d > 0 && x == d * q + r && r < d
    ensures x / d == q && x % d == r
  {
    var k, m := x / d, x % d;
    assert x == d * k + m;
    NotMore(d, q, r, k, m);
    NotMore(d, k, m, q, r);
  }

  lemma NotMore(d: nat, q: nat, r: nat, k: nat, m: nat)
    requires d * q + r == d * k + m && m < d
    ensures q <= k
  {
    Further(d, k, q);
  }

  lemma Further(d: nat, k: nat, q: nat)
    ensures q > k ==> d * q >= d * k + d
  {
    var more := if q > k then q - k - 1 else 0;
    assert q > k ==> d * q == d * (k + 1 + more) == d * k + d + d * more;
  }

  lemma TypeAndOffset(lo: half, hi: half)
    ensures var x := lo + 0x1_0000_0000 * hi;
      x % 4 == lo % 4 && x / 4 % 2 == lo / 4 % 2 && x / 4 % 0x4000_0000 == lo / 4
  {
    var q, r := lo / 4, lo % 4;
    var x, y := lo + 0x1_0000_0000 * hi, q + 0x4000_0000 * hi;
    Divided(x, 4, y, r);
    Divided(y, 0x4000_0000, hi, q);
    Divided(y, 2, q / 2 + 0x2000_0000 * hi, q % 2);
  }

  lemma FarOffset(lo: half, hi: half)
    ensures (lo + 0x1_0000_0000 * hi) / 8 % 0x2000_0000 == lo / 8
  {
    var q, r := lo / 8, lo % 8;
    var y := q + 0x2000_0000 * hi;
    Divided(lo + 0x1_0000_0000 * hi, 8, y, r);
    Divided(y, 0x2000_0000, hi, q);
  }

  lemma HighFields(lo: half, hi: half)
    ensures var x := lo + 0x1_0000_0000 * hi;
      x / 0x1_0000_0000 == hi && x / 0x1_0000_0000_0000 == hi / 0x1_0000 && x / 0x8_0000_0000 == hi / 8
  {
    var x := lo + 0x1_0000_0000 * hi;
    Divided(x, 0x1_0000_0000, hi, lo);
    Divided(x, 0x1_0000_0000_0000, hi / 0x1_0000, 0x1_0000_0000 * (hi % 0x1_0000) + lo);
    Divided(x, 0x8_0000_0000, hi / 8, 0x1_0000_0000 * (hi % 8) + lo);
  }

  // ---------------------------------------------------------------------------------------------
  // Lists of plain elements

  /** The bits of an element: nothing, one bit, and one, two, four and eight bytes. */
  function ElementBits(size: nat): nat {
    match size
    case 1 => 1
    case 2 => 8
    case 3 => 16
    case 4 => 32
    case 5 => 64
    case _ => 0
  }

  /** A list takes as many words as its elements' bits need and no more. */
  lemma ListWordsAreLeast(size: nat, length: nat)
    requires size < POINTERS
    ensures 64 * ListWords(size, length) >= ElementBits(size) * length
    ensures forall n: nat :: 64 * n >= ElementBits(size) * length ==> ListWords(size, length) <= n
  {
  }

  /** Bit `b` of a list's content belongs to element `i`. */
  predicate OfElement(size: nat, i: nat, b: nat) {
    i * ElementBits(size) <= b < (i + 1) * ElementBits(size)
  }

  /** Every bit of every element lies in the list's words. */
  lemma ElementInside(size: nat, length: nat, i: nat, b: nat)
    requires size < POINTERS && i < length && OfElement(size, i, b)
    ensures b / 64 < ListWords(size, length)
  {
    var width := ElementBits(size);
    ListWordsAreLeast(size, length);
    assert (i + 1) * width <= length * width;
    assert b < 64 * ListWords(size, length);
  }

  function Nth(x: nat, b: nat): nat {
    if b == 0 then x % 2 else Nth(x / 2, b - 1)
  }

  function BitOf(w: Word, b: nat): nat {
    Nth(if b < 32 then w.lo else w.hi, b % 32)
  }

  /** Bit `b` of the content a pointer leads to is in allocated memory. */
  predicate HasBit(mem: Mem, p: Loc, b: nat) {
    && Has(mem, p) && TargetOf(mem, p).Some?
    && var t := TargetOf(mem, p).value;
    t.off >= 0 && Has(mem, Loc(t.seg, t.off + b / 64))
  }

  function ContentBit(mem: Mem, p: Loc, b: nat): nat
    requires HasBit(mem, p, b)
  {
    var t := TargetOf(mem, p).value;
    BitOf(At(mem, Loc(t.seg, t.off + b / 64)), b % 64)
  }

  /** Every bit of a list that reads as a tree is there, and is the bit of the tree's data. */
  lemma ListBit(mem: Mem, caps: Caps, p: Loc, n: nat, i: nat, b: nat)
    requires Read(mem, caps, p, n).Some? && Read(mem, caps, p, n).value.kind.KList?
    requires var kind := Read(mem, caps, p, n).value.kind;
      i < kind.length && OfElement(kind.size, i, b)
    ensures var t := Read(mem, caps, p, n).value;
      && HasBit(mem, p, b) && b / 64 < |t.data| && ContentBit(mem, p, b) == BitOf(t.data[b / 64], b % 64)
  {
    ReadableObject(mem, caps, p, n);
    ObjectOfTree(mem, caps, p, n);
    var o := ObjectAt(mem, p).value;
    ObjectParts(mem, p);
    ElementInside(o.kind.size, o.kind.length, i, b);
    assert o.data[b / 64] in o.data;
  }

  lemma ObjectOfTree(mem: Mem, caps: Caps, p: Loc, n: nat)
    requires Read(mem, caps, p, n).Some? && Read(mem, caps, p, n).value.kind.KList?
    ensures At(mem, p) != ZERO && ObjectAt(mem, p).Some? && ObjectAt(mem, p).value.kind == Read(mem, caps, p, n).value.kind
    ensures ObjectAt(mem, p).value.kind.size < POINTERS
  {
    ReadableObject(mem, caps, p, n);
  }

  /** Every bit of every element of the one list is in memory and is that of the other. */
  ghost predicate ElementsCopied(m0: Mem, s: Loc, m1: Mem, d: Loc, kind: Kind)
    requires kind.KList?
  {
    forall i: nat, b: nat :: i < kind.length && OfElement(kind.size, i, b) ==>
      HasBit(m0, s, b) && HasBit(m1, d, b) && ContentBit(m1, d, b) == ContentBit(m0, s, b)
  }

  ghost predicate ElementsZero(mem: Mem, p: Loc, kind: Kind)
    requires kind.KList?
  {
    forall i: nat, b: nat :: i < kind.length && OfElement(kind.size, i, b) ==> HasBit(mem, p, b) && ContentBit(mem, p, b) == 0
  }

  /** Two lists that read as the same tree have every bit of every element in common. */
  lemma SameElements(m0: Mem, caps0: Caps, s: Loc, n0: nat, m1: Mem, caps1: Caps, d: Loc, n1: nat)
    requires Read(m0, caps0, s, n0).Some? && Read(m0, caps0, s, n0).value.kind.KList?
    requires Read(m1, caps1, d, n1) == Read(m0, caps0, s, n0)
    ensures ElementsCopied(m0, s, m1, d, Read(m0, caps0, s, n0).value.kind)
  {
    hide Read, HasBit, ContentBit, OfElement;
    var kind := Read(m0, caps0, s, n0).value.kind;
    forall i: nat, b: nat | i < kind.length && OfElement(kind.size, i, b)
      ensures HasBit(m0, s, b) && HasBit(m1, d, b) && ContentBit(m1, d, b) == ContentBit(m0, s, b)
    {
      ListBit(m0, caps0, s, n0, i, b);
      ListBit(m1, caps1, d, n1, i, b);
    }
  }

  /** A list whose data is zero has all its elements, and they are zero. */
  lemma NewElements(mem: Mem, caps: Caps, p: Loc, n: nat)
    requires Read(mem, caps, p, n).Some? && Read(mem, caps, p, n).value.kind.KList?
    requires forall w :: w in Read(mem, caps, p, n).value.data ==> w == ZERO
    ensures ElementsZero(mem, p, Read(mem, caps, p, n).value.kind)
  {
    hide Read, HasBit, ContentBit, OfElement;
    var t := Read(mem, caps, p, n).value;
    forall i: nat, b: nat | i < t.kind.length && OfElement(t.kind.size, i, b)
      ensures HasBit(mem, p, b) && ContentBit(mem, p, b) == 0
    {
      ListBit(mem, caps, p, n, i, b);
      assert t.data[b / 64] in t.data;
      ZeroBits(b % 64 % 32);
    }
  }

  lemma {:induction false} ZeroBits(b: nat)
    ensures Nth(0, b) == 0
  {
    if b > 0 {
      ZeroBits(b - 1);
    }
  }

  // ---------------------------------------------------------------------------------------------
  // Lists of structs

  function Times(i: nat, n: nat): nat {
    i * n
  }

  lemma TimesNext(i: nat, n: nat)
    ensures Times(0, n) == 0 && Times(i + 1, n) == n + Times(i, n)
  {
  }

  /** The data of struct `i` of a composite list: the structs follow one another, and each takes its data
      words first. */
  lemma {:induction false} StructData(seg: nat, off: nat, length: nat, dw: nat, pc: nat, i: nat, k: nat)
    requires i < length && k < dw
    ensures var data := CompositeData(seg, off, length, dw, pc);
      Times(i, dw) + k < |data| && data[Times(i, dw) + k] == Loc(seg, off + Times(i, dw + pc) + k)
    decreases length
  {
    var rest := CompositeData(seg, off + dw + pc, length - 1, dw, pc);
    assert CompositeData(seg, off, length, dw, pc) == Range(seg, off, dw) + rest;
    hide CompositeData, Times;
    TimesNext(if i > 0 then i - 1 else 0, dw);
    TimesNext(if i > 0 then i - 1 else 0, dw + pc);
    if i > 0 {
      StructData(seg, off + dw + pc, length - 1, dw, pc, i - 1, k);
    }
  }

  /** And its pointers after them. */
  lemma {:induction false} StructPointers(seg: nat, off: nat, length: nat, dw: nat, pc: nat, i: nat, k: nat)
    requires i < length && k < pc
    ensures var kids := CompositeKids(seg, off, length, dw, pc);
      Times(i, pc) + k < |kids| && kids[Times(i, pc) + k] == Loc(seg, off + Times(i, dw + pc) + dw + k)
    decreases length
  {
    var rest := CompositeKids(seg, off + dw + pc, length - 1, dw, pc);
    assert CompositeKids(seg, off, length, dw, pc) == Range(seg, off + dw, pc) + rest;
    hide CompositeKids, Times;
    TimesNext(if i > 0 then i - 1 else 0, pc);
    TimesNext(if i > 0 then i - 1 else 0, dw + pc);
    if i > 0 {
      StructPointers(seg, off + dw + pc, length - 1, dw, pc, i - 1, k);
    }
  }
}
