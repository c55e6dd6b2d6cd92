/**
 When an operation on a message may run out of room, and how much room a tree asks for at once.
 */
module Room {
  import opened Options
  import opened Memory
  import opened Trees

  /** The arena cannot come up with room for so many more words. */
  predicate Cramped(mem: Mem, n: nat) {
    if mem.single
    then mem.segs != [] && |mem.segs[0].words| + Max(n, MIN_SINGLE_SEGMENT_GROWTH) >= LIMIT
    else Max(n, DEFAULT_BUFFER_SIZE) >= LIMIT || |mem.segs| + 1 >= TWO_32
  }

  /** An allocation fails if and only if the segment is full and the arena cramped. */
  lemma AllocFailsIff(mem: Mem, seg: nat, n: nat)
    requires Valid(mem) && seg < |mem.segs|
    ensures Alloc(mem, seg, n).None? <==> |mem.segs[seg].words| - mem.segs[seg].used < n && Cramped(mem, n)
  {
    assert ValidSeg(mem.segs[seg]);
    assert mem.single ==> seg == 0;
  }

  lemma CrampedForMore(mem: Mem, n: nat, more: nat)
    requires Cramped(mem, n) && n <= more
    ensures Cramped(mem, more)
  {
  }

  /** The words of an object that are allocated together. */
  function WordsOf(kind: Kind): nat {
    match kind
    case KStruct(dw, pc) => dw + pc
    case KList(size, length) => ListWords(size, length)
    case KPointers(length) => length
    case KComposite(length, dw, pc) => (dw + pc) * length + 1
    case KCap(_) => 0
  }

  /** The words of the largest object in a tree. */
  function Widest(t: Tree): nat {
    Max(WordsOf(t.kind), WidestOf(t.kids))
  }

  function WidestOf(ts: seq<Tree>): nat {
    if ts == [] then 0 else Max(Widest(ts[0]), WidestOf(ts[1..]))
  }

  lemma {:induction false} KidIsNoWider(ts: seq<Tree>, k: nat)
    requires k < |ts|
    ensures Widest(ts[k]) <= WidestOf(ts)
  {
    hide Widest;
    if k > 0 {
      KidIsNoWider(ts[1..], k - 1);
    }
  }

  /** No room for content of so many words, for landing pads, or for another capability. */
  predicate Full(mem: Mem, caps: Caps, n: nat) {
    Cramped(mem, Max(n, 2)) || |caps| >= TWO_32 - 1
  }

  /** Why copying a sound tree of so many levels may fail: a depth limit, or no room. */
  predicate Excused(sd: nat, dd: nat, levels: nat, mem: Mem, caps: Caps, n: nat) {
    sd <= levels || dd <= levels || Full(mem, caps, n)
  }

  lemma DepthExcused(sd: nat, dd: nat, levels: nat, mem: Mem, caps: Caps, n: nat)
    ensures sd <= levels || dd <= levels ==> Excused(sd, dd, levels, mem, caps, n)
  {
  }

  lemma NodeFull(mem: Mem, caps: Caps, t: Tree)
    requires Cramped(mem, 2) || Cramped(mem, WordsOf(t.kind))
    ensures Full(mem, caps, Widest(t))
  {
  }

  lemma NodeExcused(sd: nat, dd: nat, levels: nat, mem: Mem, caps: Caps, t: Tree)
    requires levels > 0
    requires Cramped(mem, 2) || Cramped(mem, WordsOf(t.kind))
      || (dd > 0 && Excused(if sd > 0 then sd - 1 else 0, dd - 1, levels - 1, mem, caps, WidestOf(t.kids)))
    ensures Excused(sd, dd, levels, mem, caps, Widest(t))
  {
  }

  lemma KidExcused(sd: nat, dd: nat, levels: nat, mem: Mem, caps: Caps, ts: seq<Tree>, k: nat)
    requires k < |ts| && levels > 0
    requires dd <= 1 || Excused(sd, dd, levels, mem, caps, Widest(ts[k]))
    ensures Excused(sd, dd, levels, mem, caps, WidestOf(ts))
  {
    KidIsNoWider(ts, k);
  }
}
