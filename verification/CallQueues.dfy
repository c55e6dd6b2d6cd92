/**
 The bounded queue in which promise clients hold calls back: ring-buffer indices over a fixed array
 of slots (src/rpc/queue.ts, src/rpc/call-queue.ts).
 */
module CallQueues {
  import opened Options
  import opened RpcMessages

  const CALL_QUEUE_SIZE: nat := 64

  /** A held call knows where its answer goes: a local fulfiller or the answer of a remote question.
      A queue may also hold the echo of a disembargo. */
  datatype Slot =
    | LocalCall(body: Body, f: nat)
    | RemoteCall(body: Body, a: nat)
    | Echo(embargoId: nat, target: Target)

  // ---------------------------------------------------------------------------------------------
  // What a ring of slots holds

  /** The `i`-th position of a ring that starts at `start`. */
  function At(start: nat, i: nat, cap: nat): nat
    requires cap > 0
  {
    (start + i) % cap
  }

  lemma AtWraps(start: nat, i: nat, cap: nat)
    requires start < cap && i <= cap
    ensures At(start, i, cap) == if start + i < cap then start + i else start + i - cap
  {
    if start + i < cap {
      DividesOnce(start + i, cap, 0, start + i);
    } else {
      DividesOnce(start + i, cap, 1, start + i - cap);
    }
  }

  lemma DividesOnce(x: nat, cap: nat, d: nat, r: nat)
    requires x == d * cap + r && r < cap
    ensures x % cap == r
  {
    var k := x / cap - d;
    assert k * cap == r - x % cap;
    FewTimes(k, cap);
    FewTimes(-k, cap);
  }

  lemma FewTimes(k: int, cap: nat)
    ensures k >= 1 ==> k * cap >= cap
  {
  }

  /** The first `n` positions hold slots. */
  ghost predicate Holds<T>(ring: seq<Option<T>>, start: nat, n: nat) {
    && n <= |ring|
    && (|ring| > 0 ==> start < |ring|)
    && (forall i :: 0 <= i < n ==> ring[At(start, i, |ring|)].Some?)
  }

  ghost function Held<T>(ring: seq<Option<T>>, start: nat, n: nat): (s: seq<T>)
    requires Holds(ring, start, n)
    ensures |s| == n
  {
    seq(n, i requires 0 <= i < n => ring[At(start, i, |ring|)].value)
  }

  /** Distinct offsets are distinct positions. */
  lemma AtInjective(start: nat, i: nat, j: nat, cap: nat)
    requires start < cap && i < cap && j < cap && i != j
    ensures At(start, i, cap) != At(start, j, cap)
  {
    AtWraps(start, i, cap);
    AtWraps(start, j, cap);
  }

  lemma HeldAppend<T>(ring: seq<Option<T>>, start: nat, n: nat, x: T)
    requires Holds(ring, start, n) && n < |ring|
    ensures At(start, n, |ring|) < |ring|
    ensures Holds(ring[At(start, n, |ring|) := Some(x)], start, n + 1)
    ensures Held(ring[At(start, n, |ring|) := Some(x)], start, n + 1) == Held(ring, start, n) + [x]
  {
    var ring' := ring[At(start, n, |ring|) := Some(x)];
    forall i | 0 <= i < n
      ensures ring'[At(start, i, |ring|)] == ring[At(start, i, |ring|)]
    {
      AtInjective(start, i, n, |ring|);
    }
  }

  lemma HeldDropFirst<T>(ring: seq<Option<T>>, start: nat, n: nat)
    requires Holds(ring, start, n) && n > 0
    ensures var next := (start + 1) % |ring|;
      && Holds(ring[start := None], next, n - 1)
      && Held(ring[start := None], next, n - 1) == Held(ring, start, n)[1..]
    ensures ring[start].Some? && ring[start].value == Held(ring, start, n)[0]
  {
    var next := (start + 1) % |ring|;
    var ring' := ring[start := None];
    AtWraps(start, 1, |ring|);
    AtWraps(start, 0, |ring|);
    forall i | 0 <= i < n - 1
      ensures At(next, i, |ring|) == At(start, i + 1, |ring|)
      ensures ring'[At(next, i, |ring|)] == ring[At(start, i + 1, |ring|)]
    {
      AtWraps(start, i + 1, |ring|);
      AtWraps(next, i, |ring|);
      AtInjective(start, 0, i + 1, |ring|);
    }
  }

  // ---------------------------------------------------------------------------------------------

  /** Ring indices over a storage whose length never changes. */
  class Queue {
    const q: array<Option<Slot>>
    const cap: nat
    var start: nat
    var n: nat

    ghost predicate Valid()
      reads this, q
    {
      cap == q.Length && Holds(q[..], start, n)
    }

    ghost function Contents(): seq<Slot>
      reads this, q
      requires Valid()
    {
      Held(q[..], start, n)
    }

    /** A queue over a storage whose first `n` slots are filled. */
    constructor (q: array<Option<Slot>>, n: nat)
      requires n <= q.Length && forall i :: 0 <= i < n ==> q[i].Some?
      ensures this.q == q && Valid()
      ensures Contents() == seq(n, i requires 0 <= i < n && q[i].Some? reads q => q[i].value)
    {
      this.q, this.n, start, cap := q, n, 0, q.Length;
      new;
      forall i | 0 <= i < n
        ensures At(start, i, cap) == i
      {
        AtWraps(0, i, cap);
      }
    }

    /** Reserve the slot after the last; -1 when there is none. */
    method Push() returns (i: int)
      requires Valid()
      modifies this`n
      ensures old(n) >= cap ==> i == -1 && n == old(n)
      ensures old(n) < cap ==> i == At(start, old(n), cap) && n == old(n) + 1
    {
      if n >= cap {
        return -1;
      }
      i := (start + n) % cap;
      n := n + 1;
    }

    method Front() returns (i: int)
      requires Valid()
      ensures n == 0 ==> i == -1
      ensures n > 0 ==> 0 <= i < q.Length && q[i] == Some(Contents()[0])
    {
      if n == 0 {
        return -1;
      }
      HeldDropFirst(q[..], start, n);
      i := start;
    }

    /** Clear the first slot and move on. */
    method Pop() returns (ok: bool)
      requires Valid()
      modifies this, q
      ensures Valid()
      ensures ok == (old(n) > 0)
      ensures Contents() == if ok then old(Contents())[1..] else old(Contents())
    {
      if n == 0 {
        return false;
      }
      HeldDropFirst(q[..], start, n);
      ghost var ring := q[..];
      q[start] := None;
      assert q[..] == ring[start := None];
      start := (start + 1) % cap;
      n := n - 1;
      ok := true;
    }
  }

  /** Where a client's calls and a queue's refusals end up, in order. */
  class Sink {
    var called: seq<Slot>
    var echoed: seq<Slot>
    var rejected: seq<Slot>

    constructor ()
      ensures called == [] && echoed == [] && rejected == []
    {
      called, echoed, rejected := [], [], [];
    }
  }

  /** The slots that hold calls, in order. */
  function CallsIn(slots: seq<Slot>): seq<Slot> {
    if slots == [] then []
    else (if slots[0].Echo? then [] else [slots[0]]) + CallsIn(slots[1..])
  }

  function EchoesIn(slots: seq<Slot>): seq<Slot> {
    if slots == [] then []
    else (if slots[0].Echo? then [slots[0]] else []) + EchoesIn(slots[1..])
  }

  /** Calls and echoes together are all slots: a flush loses none. */
  lemma {:induction false} CallsAndEchoes(slots: seq<Slot>)
    ensures multiset(CallsIn(slots)) + multiset(EchoesIn(slots)) == multiset(slots)
  {
    if slots != [] {
      CallsAndEchoes(slots[1..]);
      assert slots == [slots[0]] + slots[1..];
    }
  }

  /** A queue without echoes flushes to exactly itself. */
  lemma {:induction false} CallsInAll(slots: seq<Slot>)
    requires forall s :: s in slots ==> !s.Echo?
    ensures CallsIn(slots) == slots && EchoesIn(slots) == []
  {
    if slots != [] {
      CallsInAll(slots[1..]);
    }
  }

  lemma NoneIn()
    ensures CallsIn([]) == [] && EchoesIn([]) == []
  {
  }

  lemma FirstGoes(slots: seq<Slot>, called: seq<Slot>, echoed: seq<Slot>)
    requires slots != []
    ensures !slots[0].Echo? ==>
      && called + CallsIn(slots) == called + [slots[0]] + CallsIn(slots[1..])
      && EchoesIn(slots) == EchoesIn(slots[1..])
    ensures slots[0].Echo? ==>
      && echoed + EchoesIn(slots) == echoed + [slots[0]] + EchoesIn(slots[1..])
      && CallsIn(slots) == CallsIn(slots[1..])
  {
  }

  class CallQueue {
    const cap: nat
    const storage: array<Option<Slot>>
    const q: Queue

    ghost predicate Valid()
      reads this, q, q.q
    {
      q.q == storage && q.Valid() && q.cap == cap
    }

    ghost function Contents(): seq<Slot>
      reads this, q, q.q
      requires Valid()
    {
      q.Contents()
    }

    /** A queue that starts with `initial`: it has room for those even beyond the given capacity. */
    constructor (cap: nat, initial: seq<Slot>)
      ensures Valid() && fresh(q) && fresh(storage)
      ensures Contents() == initial
      ensures this.cap == if cap >= |initial| then cap else |initial|
    {
      var size := if cap >= |initial| then cap else |initial|;
      var data := new Option<Slot>[size](_ => None);
      for i := 0 to |initial|
        invariant forall j :: 0 <= j < i ==> data[j] == Some(initial[j])
      {
        data[i] := Some(initial[i]);
      }
      this.cap, storage := size, data;
      q := new Queue(data, |initial|);
    }

    method Length() returns (len: nat)
      requires Valid()
      ensures len == |Contents()|
    {
      len := q.n;
    }

    /** Add at the end unless the queue is full. */
    method PushSlot(slot: Slot) returns (ok: bool)
      requires Valid()
      modifies q, storage
      ensures Valid()
      ensures ok == (|old(Contents())| < cap)
      ensures Contents() == if ok then old(Contents()) + [slot] else old(Contents())
    {
      ghost var ring, start, n := storage[..], q.start, q.n;
      if n < cap {
        HeldAppend(ring, start, n, slot);
      }
      var i := q.Push();
      if i == -1 {
        return false;
      }
      storage[i] := Some(slot);
      assert storage[..] == ring[i := Some(slot)];
      ok := true;
    }

    /** Hand every call to `target` and every echo to the handler, first in first out. */
    method FlushTo(target: Sink)
      requires Valid()
      modifies q, storage, target`called, target`echoed
      ensures Valid() && Contents() == []
      ensures target.called == old(target.called) + CallsIn(old(Contents()))
      ensures target.echoed == old(target.echoed) + EchoesIn(old(Contents()))
    {
      hide CallsIn, EchoesIn;
      while q.n > 0
        invariant Valid()
        invariant target.called + CallsIn(Contents()) == old(target.called) + CallsIn(old(Contents()))
        invariant target.echoed + EchoesIn(Contents()) == old(target.echoed) + EchoesIn(old(Contents()))
        decreases q.n
      {
        var i := q.Front();
        var slot := storage[i].value;
        FirstGoes(Contents(), target.called, target.echoed);
        if slot.Echo? {
          target.echoed := target.echoed + [slot];
        } else {
          target.called := target.called + [slot];
        }
        var _ := q.Pop();
      }
      NoneIn();
    }

    /** Reject every call; echoes are dropped. */
    method RejectAll(target: Sink)
      requires Valid()
      modifies q, storage, target`rejected
      ensures Valid() && Contents() == []
      ensures target.rejected == old(target.rejected) + CallsIn(old(Contents()))
    {
      hide CallsIn;
      while q.n > 0
        invariant Valid()
        invariant target.rejected + CallsIn(Contents()) == old(target.rejected) + CallsIn(old(Contents()))
        decreases q.n
      {
        var i := q.Front();
        var slot := storage[i].value;
        FirstGoes(Contents(), target.rejected, []);
        if !slot.Echo? {
          target.rejected := target.rejected + [slot];
        }
        var _ := q.Pop();
      }
      NoneIn();
    }

    method Snapshot() returns (slots: seq<Slot>)
      requires Valid()
      ensures slots == Contents()
    {
      slots := [];
      for k := 0 to q.n
        invariant slots == Contents()[..k]
      {
        var i := (q.start + k) % q.cap;
        assert i == At(q.start, k, q.cap);
        slots := slots + [storage[i].value];
      }
    }

    /** An independent queue with the same contents and capacity. */
    method Copy() returns (c: CallQueue)
      requires Valid()
      ensures c.Valid() && fresh(c) && fresh(c.q) && fresh(c.storage)
      ensures c.Contents() == Contents() && c.cap == cap
    {
      var slots := Snapshot();
      c := new CallQueue(cap, slots);
    }
  }
}
