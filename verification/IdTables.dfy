/**
 Question and export ids: a table of slots with the generator that numbers it.  The generator hands
 out recycled ids last-in first-out before it counts further (src/rpc/idgen.ts).
 */
module IdTables {
  import opened Options

  /** The generator: a counter and a stack of ids returned to it. */
  class IDGen {
    var i: nat
    var free: seq<nat>

    constructor ()
      ensures i == 0 && free == []
    {
      i, free := 0, [];
    }

    method Next() returns (id: nat)
      modifies this
      ensures old(free) == [] ==> id == old(i) && i == old(i) + 1 && free == []
      ensures old(free) != [] ==> old(free) == free + [id] && i == old(i)
    {
      if |free| > 0 {
        id := free[|free| - 1];
        free := free[..|free| - 1];
      } else {
        id := i;
        i := i + 1;
      }
    }

    method Remove(id: nat)
      modifies this
      ensures free == old(free) + [id] && i == old(i)
    {
      free := free + [id];
    }
  }

  /** A table of slots together with its generator's state. */
  datatype IdTable<T> = IdTable(slots: seq<Option<T>>, next: nat, free: seq<nat>) {

    /** The table is as long as the generator's counter, and the empty slots are exactly the
        recycled ids, each recycled once. */
    ghost predicate Valid() {
      && |slots| == next
      && (forall k :: 0 <= k < |free| ==> free[k] < next)
      && (forall k, l :: 0 <= k < l < |free| ==> free[k] != free[l])
      && (forall id :: 0 <= id < next ==> (slots[id].None? <==> id in free))
    }

    function Find(id: nat): Option<T> {
      if id < |slots| then slots[id] else None
    }

    function NextId(): nat {
      if free == [] then next else free[|free| - 1]
    }

    /** Take the next id and store `v` there.  The slot sequence of the source grows by one when the
        id is its length and is overwritten otherwise. */
    function Alloc(v: T): IdTable<T> {
      var id := NextId();
      IdTable(if id >= |slots| then slots + [Some(v)] else slots[id := Some(v)],
              if free == [] then next + 1 else next,
              if free == [] then free else free[..|free| - 1])
    }

    function Update(id: nat, v: T): IdTable<T>
      requires id < |slots|
    {
      this.(slots := slots[id := Some(v)])
    }

    /** Empty the slot and return its id to the generator. */
    function Drop(id: nat): IdTable<T>
      requires id < |slots|
    {
      this.(slots := slots[id := None], free := free + [id])
    }
  }

  function Empty<T>(): IdTable<T> {
    IdTable([], 0, [])
  }

  /** Allocating never overwrites a live entry, stores the value, and keeps every other slot. */
  lemma AllocIsFresh<T>(t: IdTable<T>, v: T)
    requires t.Valid()
    ensures t.Alloc(v).Valid()
    ensures t.Find(t.NextId()).None?
    ensures t.Alloc(v).Find(t.NextId()) == Some(v)
    ensures forall id: nat :: id != t.NextId() ==> t.Alloc(v).Find(id) == t.Find(id)
  {
    var t' := t.Alloc(v);
    if t.free != [] {
      var last := |t.free| - 1;
      assert t.free[last] in t.free;
      forall id | 0 <= id < t'.next
        ensures t'.slots[id].None? <==> id in t'.free
      {
        if id in t.free && id != t.NextId() {
          var k :| 0 <= k < |t.free| && t.free[k] == id;
          assert t'.free[k] == id;
        }
      }
    }
  }

  /** The next id is a free slot or the first past the end. */
  lemma AllocFits<T>(t: IdTable<T>, v: T)
    requires t.Valid()
    ensures t.Alloc(v).Valid()
    ensures t.NextId() <= |t.slots| && (t.free == [] <==> t.NextId() == |t.slots|)
  {
    AllocIsFresh(t, v);
    if t.free != [] {
      assert t.free[|t.free| - 1] < t.next;
    }
  }

  lemma UpdateKeepsIds<T>(t: IdTable<T>, id: nat, v: T)
    requires t.Valid() && t.Find(id).Some?
    ensures t.Update(id, v).Valid()
    ensures t.Update(id, v).Find(id) == Some(v)
    ensures forall k: nat :: k != id ==> t.Update(id, v).Find(k) == t.Find(k)
  {
  }

  /** Dropping a live entry recycles its id exactly once and keeps every other slot. */
  lemma DropRecycles<T>(t: IdTable<T>, id: nat)
    requires t.Valid() && t.Find(id).Some?
    ensures t.Drop(id).Valid()
    ensures t.Drop(id).Find(id).None? && t.Drop(id).NextId() == id
    ensures forall k: nat :: k != id ==> t.Drop(id).Find(k) == t.Find(k)
  {
    var t' := t.Drop(id);
    forall k | 0 <= k < t'.next
      ensures t'.slots[k].None? <==> k in t'.free
    {
      if k in t.free {
        var l :| 0 <= l < |t.free| && t.free[l] == k;
        assert t'.free[l] == k;
      }
      if k == id {
        assert t'.free[|t.free|] == id;
      }
    }
  }

  lemma EmptyIsValid<T>()
    ensures Empty<T>().Valid()
  {
  }
}
