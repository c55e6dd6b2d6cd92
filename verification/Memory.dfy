/** The memory of a message, word by word: segments with a bump allocator, and pointer words. */
module Memory {

  // Segments grow as their arena lets them (src/serialization/segment.ts, src/serialization/arena,
  // allocateSegment of src/serialization/message.ts).

  import opened Options

  const TWO_31: nat := 0x8000_0000
  const TWO_32: nat := 0x1_0000_0000
  const MAX_SEGMENT_LENGTH: nat := 0xffff_ffff
  /** Segments are shorter than this, in words: 2^31 bytes. */
  const LIMIT: nat := 0x1000_0000
  /** In words: 256 and 1024 bytes. */
  const DEFAULT_BUFFER_SIZE: nat := 32
  const MIN_SINGLE_SEGMENT_GROWTH: nat := 128

  type half = x: int | 0 <= x < 0x1_0000_0000

  /** The low and the high half of a 64-bit word. */
  datatype Word = Word(lo: half, hi: half)

  const ZERO: Word := Word(0, 0)

  datatype Loc = Loc(seg: nat, off: nat)

  /** The first `used` words of the buffer are allocated. */
  datatype Seg = Seg(words: seq<Word>, used: nat)

  /** `single`: the arena keeps one segment and regrows it; otherwise it appends segments. */
  datatype Mem = Mem(segs: seq<Seg>, single: bool)

  // ---------------------------------------------------------------------------------------------
  // Words in memory

  predicate Fits(mem: Mem, l: Loc) {
    l.seg < |mem.segs| && l.off < |mem.segs[l.seg].words|
  }

  /** The word is allocated. */
  predicate Has(mem: Mem, l: Loc) {
    Fits(mem, l) && l.off < mem.segs[l.seg].used
  }

  function At(mem: Mem, l: Loc): Word
    requires Fits(mem, l)
  {
    mem.segs[l.seg].words[l.off]
  }

  function Put(mem: Mem, l: Loc, w: Word): Mem
    requires Fits(mem, l)
  {
    var s := mem.segs[l.seg];
    mem.(segs := mem.segs[l.seg := s.(words := s.words[l.off := w])])
  }

  ghost predicate Valid(mem: Mem) {
    && 0 < |mem.segs| < TWO_32
    && (mem.single ==> |mem.segs| == 1)
    && forall i :: 0 <= i < |mem.segs| ==> ValidSeg(mem.segs[i])
  }

  /** Words that are not allocated are zero. */
  ghost predicate ValidSeg(s: Seg) {
    && s.used <= |s.words| < LIMIT
    && forall j :: s.used <= j < |s.words| ==> s.words[j] == ZERO
  }

  /** Nothing that was allocated changes, except at most the words in `ls`. */
  ghost predicate KeptBut(mem: Mem, mem': Mem, ls: seq<Loc>) {
    && mem'.single == mem.single
    && |mem.segs| <= |mem'.segs|
    && (forall i :: 0 <= i < |mem.segs| ==> mem.segs[i].used <= mem'.segs[i].used)
    && (forall l :: Has(mem, l) ==> Has(mem', l))
    && (forall l :: Has(mem, l) && l !in ls ==> At(mem', l) == At(mem, l))
  }

  ghost predicate Kept(mem: Mem, mem': Mem) {
    KeptBut(mem, mem', [])
  }

  lemma PutKeeps(mem: Mem, l: Loc, w: Word)
    requires Valid(mem) && Has(mem, l)
    ensures Valid(Put(mem, l, w))
    ensures forall x :: Has(Put(mem, l, w), x) == Has(mem, x) && Fits(Put(mem, l, w), x) == Fits(mem, x)
    ensures At(Put(mem, l, w), l) == w
    ensures forall x :: Fits(mem, x) && x != l ==> At(Put(mem, l, w), x) == At(mem, x)
    ensures KeptBut(mem, Put(mem, l, w), [l])
  {
  }

  // ---------------------------------------------------------------------------------------------
  // The allocator

  function Zeros(n: nat): (z: seq<Word>)
    ensures |z| == n
  {
    seq(n, _ => ZERO)
  }

  function Min(a: nat, b: nat): nat {
    if a <= b then a else b
  }

  function Max(a: nat, b: nat): nat {
    if a < b then b else a
  }

  /** A larger copy of the buffer of the only segment. */
  function Regrown(s: Seg, n: nat): Seg {
    s.(words := s.words + Zeros(Max(n, MIN_SINGLE_SEGMENT_GROWTH)))
  }

  function Appended(n: nat): Seg {
    Seg(Zeros(Max(n, DEFAULT_BUFFER_SIZE)), 0)
  }

  /** Allocate `n` words for a pointer in segment `seg`: there if it has room, otherwise in the segment
      the arena comes up with.  None: the request or the segment is too long. */
  function Alloc(mem: Mem, seg: nat, n: nat): Option<(Mem, Loc)>
    requires seg < |mem.segs|
  {
    var s := mem.segs[seg];
    if 8 * n > MAX_SEGMENT_LENGTH - 8 then None
    else if |s.words| - s.used >= n then
      Some((mem.(segs := mem.segs[seg := s.(used := s.used + n)]), Loc(seg, s.used)))
    else if mem.single then
      var grown := Regrown(mem.segs[0], n);
      if |grown.words| >= LIMIT then None
      else Some((mem.(segs := mem.segs[0 := grown.(used := grown.used + n)]), Loc(0, grown.used)))
    else
      var next := Appended(n);
      if |next.words| >= LIMIT || |mem.segs| + 1 >= TWO_32 then None
      else Some((mem.(segs := mem.segs + [next.(used := n)]), Loc(|mem.segs|, 0)))
  }

  /** The word belongs to the region. */
  predicate InRegion(at: Loc, n: nat, l: Loc) {
    l.seg == at.seg && at.off <= l.off < at.off + n
  }

  /** An allocation keeps everything allocated before, and its region is new, zero and all that is
      new. */
  lemma AllocIsSafe(mem: Mem, seg: nat, n: nat)
    requires Valid(mem) && seg < |mem.segs| && Alloc(mem, seg, n).Some?
    ensures var (mem', at) := Alloc(mem, seg, n).value;
      && Valid(mem') && Kept(mem, mem')
      && at.seg < |mem'.segs| && at.off + n <= mem'.segs[at.seg].used && !Has(mem, at)
      && (forall l :: InRegion(at, n, l) ==> Has(mem', l) && At(mem', l) == ZERO && !Has(mem, l))
      && (forall l :: Has(mem', l) ==> Has(mem, l) || InRegion(at, n, l))
  {
    var (mem', at) := Alloc(mem, seg, n).value;
    var s := mem.segs[seg];
    assert ValidSeg(s);
    if |s.words| - s.used >= n {
      assert ValidSeg(mem'.segs[seg]);
    } else if mem.single {
      assert ValidSeg(mem'.segs[0]);
    } else {
      assert ValidSeg(mem'.segs[|mem.segs|]);
    }
  }

  /** Content goes into the pointer's own segment whenever that has room, directly behind what is used, and no
      buffer grows; otherwise the only segment grows by what is asked for or 1024 bytes, or one segment of what
      is asked for or 256 bytes is added, whichever is more. */
  lemma AllocGoesWhere(mem: Mem, seg: nat, n: nat)
    requires Valid(mem) && seg < |mem.segs| && Alloc(mem, seg, n).Some?
    ensures var (mem', at) := Alloc(mem, seg, n).value;
      && mem'.single == mem.single && at.seg < |mem'.segs|
      && at.off == (if at.seg < |mem.segs| then mem.segs[at.seg].used else 0)
      && mem'.segs[at.seg].used == at.off + n
      && (forall i :: 0 <= i < |mem.segs| && i != at.seg ==> mem'.segs[i] == mem.segs[i])
      && (|mem.segs[seg].words| - mem.segs[seg].used >= n ==>
            at.seg == seg && |mem'.segs| == |mem.segs| && |mem'.segs[seg].words| == |mem.segs[seg].words|)
      && (|mem.segs[seg].words| - mem.segs[seg].used < n ==>
            if mem.single
            then at.seg == 0 && |mem'.segs| == 1 && |mem'.segs[0].words| == |mem.segs[0].words| + (if 8 * n > 1024 then n else 128)
            else at.seg == |mem.segs| && |mem'.segs| == |mem.segs| + 1 && |mem'.segs[at.seg].words| == if 8 * n > 256 then n else 32)
  {
    assert ValidSeg(mem.segs[seg]);
  }

  // ---------------------------------------------------------------------------------------------
  // Any number of allocations

  datatype Request = Request(seg: nat, n: nat)

  datatype Region = Region(at: Loc, n: nat)

  /** Allocations one after another; those that fail give no region. */
  function AllocAll(mem: Mem, requests: seq<Request>): (Mem, seq<Region>)
    decreases |requests|
  {
    if requests == [] then (mem, [])
    else
      var r := requests[0];
      if r.seg >= |mem.segs| || Alloc(mem, r.seg, r.n).None? then AllocAll(mem, requests[1..])
      else
        var (mem1, at) := Alloc(mem, r.seg, r.n).value;
        var (mem2, regions) := AllocAll(mem1, requests[1..]);
        (mem2, [Region(at, r.n)] + regions)
  }

  /** Over any sequence of allocations every region is in bounds and zero, no two overlap, none overlaps
      what was allocated before, and nothing that was allocated changes. */
  lemma {:induction false} AllocationsAreSafe(mem: Mem, requests: seq<Request>)
    requires Valid(mem)
    ensures var (mem', regions) := AllocAll(mem, requests);
      && Valid(mem') && Kept(mem, mem')
      && (forall i :: 0 <= i < |regions| ==>
            forall l :: InRegion(regions[i].at, regions[i].n, l) ==> Has(mem', l) && At(mem', l) == ZERO && !Has(mem, l))
      && (forall i, j, l :: 0 <= i < j < |regions| && InRegion(regions[i].at, regions[i].n, l) ==>
            !InRegion(regions[j].at, regions[j].n, l))
    decreases |requests|
  {
    if requests != [] {
      var r := requests[0];
      if r.seg >= |mem.segs| || Alloc(mem, r.seg, r.n).None? {
        AllocationsAreSafe(mem, requests[1..]);
      } else {
        var (mem1, at) := Alloc(mem, r.seg, r.n).value;
        AllocIsSafe(mem, r.seg, r.n);
        AllocationsAreSafe(mem1, requests[1..]);
      }
    }
  }

  // ---------------------------------------------------------------------------------------------
  // Pointer words

  const STRUCT: nat := 0
  const LIST: nat := 1
  const FAR: nat := 2
  const OTHER: nat := 3

  function TypeOf(w: Word): nat {
    w.lo % 4
  }

  function Signed(x: half): int {
    if x >= TWO_31 then x - TWO_32 else x
  }

  /** The offset field.  The code tests one bit of the type: far and other pointers have 29 offset bits,
      struct and list pointers 30. */
  function OffsetOf(w: Word): int {
    if w.lo / 2 % 2 == 1 then Signed(w.lo) / 8 else Signed(w.lo) / 4
  }

  function IsDouble(w: Word): bool {
    w.lo / 4 % 2 == 1
  }

  function DataWords(w: Word): nat {
    w.hi % 0x1_0000
  }

  function PointerCount(w: Word): nat {
    w.hi / 0x1_0000
  }

  function ElementSize(w: Word): nat {
    w.hi % 8
  }

  function ListLength(w: Word): nat {
    w.hi / 8
  }

  /** A struct or list pointer word with the given offset; stores wrap around at 32 bits. */
  function NearWord(kind: nat, off: int, hi: half): Word
    requires kind < 4
  {
    Word((kind + 4 * off) % TWO_32, hi)
  }

  function StructHi(dataWords: nat, pointers: nat): half {
    dataWords % 0x1_0000 + 0x1_0000 * (pointers % 0x1_0000)
  }

  function ListHi(size: nat, length: nat): half
    requires size < 8
  {
    (size + 8 * length) % TWO_32
  }

  function FarWord(double: bool, off: nat, seg: nat): Word {
    Word((FAR + (if double then 4 else 0) + 8 * off) % TWO_32, seg % TWO_32)
  }

  function CapWord(id: nat): Word {
    Word(OTHER, id % TWO_32)
  }

  lemma NearReads(kind: nat, off: int, hi: half)
    requires kind < 2 && -0x2000_0000 <= off < 0x2000_0000
    ensures TypeOf(NearWord(kind, off, hi)) == kind && OffsetOf(NearWord(kind, off, hi)) == off
  {
    var lo := kind + 4 * off;
    if off >= 0 {
      assert lo % TWO_32 == lo;
    } else {
      assert lo % TWO_32 == lo + TWO_32;
    }
  }

  lemma FarReads(double: bool, off: nat, seg: nat)
    requires off < LIMIT && seg < TWO_32
    ensures var w := FarWord(double, off, seg);
      && TypeOf(w) == FAR && IsDouble(w) == double && w.hi == seg && w.lo / 8 == off && OffsetOf(w) == off
  {
    var d := if double then 1 else 0;
    FarBits(d, off);
    assert FAR + 4 * d + 8 * off < TWO_31;
  }

  lemma FarBits(d: nat, off: nat)
    requires d < 2
    ensures var lo := FAR + 4 * d + 8 * off;
      lo % 4 == 2 && lo / 2 % 2 == 1 && lo / 4 % 2 == d && lo / 8 == off
  {
    var lo := FAR + 4 * d + 8 * off;
    assert lo / 2 == 1 + 2 * (d + 2 * off);
    assert lo / 4 == d + 2 * off;
  }

  lemma StructHiReads(dataWords: nat, pointers: nat, w: Word)
    requires dataWords < 0x1_0000 && pointers < 0x1_0000 && w.hi == StructHi(dataWords, pointers)
    ensures DataWords(w) == dataWords && PointerCount(w) == pointers
  {
  }

  lemma ListHiReads(size: nat, length: nat, w: Word)
    requires size < 8 && length < 0x2000_0000 && w.hi == ListHi(size, length)
    ensures ElementSize(w) == size && ListLength(w) == length
  {
    assert size + 8 * length < TWO_32;
  }
}
