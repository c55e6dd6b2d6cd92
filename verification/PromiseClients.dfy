/**
 The two clients a promise passes through: the importer's (src/rpc/import-client.ts) and the
 exporter's (src/rpc/promise-export-client.ts).  Each is given as functions of its state, generic in
 what a client is, and as a class proved to follow them.
 */
module PromiseClients {
  import opened Options
  import opened RpcMessages
  import opened CallQueues

  /** What became of a call: turned down with an error, held back, handed to the client the promise
      resolved to, or sent to the peer. */
  datatype Fate = Refused | Queued | Passed | Sent

  /** Hold a call back unless the queue is full. */
  function Hold(queue: seq<Body>, body: Body): (seq<Body>, Fate) {
    if |queue| < CALL_QUEUE_SIZE then (queue + [body], Queued) else (queue, Refused)
  }

  // ---------------------------------------------------------------------------------------------
  // The importer's client

  datatype ImportState<C> = ImportState(closed: bool, resolved: Option<C>, embargo: Option<nat>, queue: seq<Body>) {

    function Call(body: Body): (ImportState<C>, Fate) {
      if closed then (this, Refused)
      else if embargo.Some? && resolved.Some? then
        var (queue', fate) := Hold(queue, body);
        (this.(queue := queue'), fate)
      else (this, if resolved.Some? then Passed else Sent)
    }

    function SetResolved(client: C): ImportState<C> {
      if closed then this else this.(resolved := Some(client))
    }

    /** Lifting an embargo that is not this one changes nothing; otherwise the held calls go to the
        resolution. */
    function Lift(id: nat): (ImportState<C>, seq<Body>) {
      if embargo != Some(id) then (this, [])
      else if resolved.None? then (this.(embargo := None), [])
      else (this.(embargo := None, queue := []), queue)
    }

    function Close(): (ImportState<C>, seq<Body>) {
      if closed then (this, [])
      else (this.(closed := true, embargo := None, queue := []), queue)
    }
  }

  function NewImport<C>(): ImportState<C> {
    ImportState(false, None, None, [])
  }

  // ---------------------------------------------------------------------------------------------
  // The exporter's client

  datatype ExportState<C> = ExportState(closed: bool, resolved: Option<C>, queue: seq<Body>) {

    function Call(body: Body): (ExportState<C>, Fate) {
      if closed then (this, Refused)
      else if resolved.None? then
        var (queue', fate) := Hold(queue, body);
        (this.(queue := queue'), fate)
      else (this, Passed)
    }

    /** The calls the resolution receives at once. */
    function Resolve(client: C): (ExportState<C>, seq<Body>) {
      if closed then (this, []) else (this.(resolved := Some(client), queue := []), queue)
    }

    /** A rejection answers the held calls and leaves no trace of itself. */
    function Reject(): (ExportState<C>, seq<Body>) {
      (this.(queue := []), queue)
    }

    function Close(): (ExportState<C>, seq<Body>) {
      if closed then (this, []) else (this.(closed := true, queue := []), queue)
    }
  }

  function NewExport<C>(): ExportState<C> {
    ExportState(false, None, [])
  }

  /** A client that holds calls back holds up to sixty-four, and the next is refused. */
  lemma HeldUpToTheLimit<C>(s: ImportState<C>, x: ExportState<C>, body: Body)
    ensures s.Call(body).1.Refused? <==> s.closed || (s.embargo.Some? && s.resolved.Some? && |s.queue| >= 64)
    ensures s.Call(body).1.Queued? ==> s.Call(body).0.queue == s.queue + [body]
    ensures x.Call(body).1.Refused? <==> x.closed || (x.resolved.None? && |x.queue| >= 64)
    ensures x.Call(body).1.Queued? ==> x.Call(body).0.queue == x.queue + [body]
  {
  }

  /** The echo of its own embargo, and no other, lets the held calls go to the resolution; after it no call is
      held back. */
  lemma LiftedByItsOwnEcho<C>(s: ImportState<C>, id: nat, body: Body)
    ensures var (s', held) := s.Lift(id);
      if s.embargo == Some(id)
      then !s'.Call(body).1.Queued? && s'.resolved == s.resolved && (s.resolved.Some? ==> held == s.queue && s'.queue == [])
      else s' == s && held == []
  {
  }

  // ---------------------------------------------------------------------------------------------
  // Closed clients

  /** The first close turns every held call away and leaves nothing held; from then on, whatever resolves or
      lifts, every call is refused and none is held. */
  lemma ImportClosedForGood<C>(s: ImportState<C>, body: Body, found: C, id: nat)
    ensures var (s', turned) := s.Close();
      && s'.closed && turned == (if s.closed then [] else s.queue) && (!s.closed ==> s'.queue == [])
      && s'.Call(body) == (s', Refused) && s'.Close() == (s', [])
      && s'.SetResolved(found) == s'
      && (!s.closed ==> s'.Lift(id) == (s', []))
  {
  }

  lemma ExportClosedForGood<C>(s: ExportState<C>, body: Body, found: C)
    ensures var (s', turned) := s.Close();
      && s'.closed && turned == (if s.closed then [] else s.queue) && (!s.closed ==> s'.queue == [])
      && s'.Call(body) == (s', Refused) && s'.Close() == (s', [])
      && s'.Resolve(found) == (s', [])
  {
  }

  // ---------------------------------------------------------------------------------------------
  // The classes

  /** The calls themselves, without where their answers go. */
  function Bodies(slots: seq<Slot>): seq<Body>
    requires forall s :: s in slots ==> s.LocalCall?
  {
    seq(|slots|, i requires 0 <= i < |slots| => assert slots[i] in slots; slots[i].body)
  }

  /** The queue of a promise client: local calls only. */
  ghost predicate IsHolding(q: CallQueue)
    reads q, q.q, q.q.q
  {
    q.Valid() && q.cap == CALL_QUEUE_SIZE && forall s :: s in q.Contents() ==> s.LocalCall?
  }

  /** Hold a call in a queue. */
  method HoldIn(queue: CallQueue, body: Body, f: nat) returns (fate: Fate)
    requires IsHolding(queue)
    modifies queue.q, queue.storage
    ensures IsHolding(queue)
    ensures (Bodies(queue.Contents()), fate) == Hold(old(Bodies(queue.Contents())), body)
    ensures queue.Contents() == if fate.Queued? then old(queue.Contents()) + [LocalCall(body, f)] else old(queue.Contents())
  {
    ghost var before := queue.Contents();
    var ok := queue.PushSlot(LocalCall(body, f));
    assert Bodies(before + [LocalCall(body, f)]) == Bodies(before) + [body];
    fate := if ok then Queued else Refused;
  }

  class ImportClient {
    const id: nat
    var closed: bool
    var resolved: Option<Sink>
    var embargoId: Option<nat>
    const embargoQueue: CallQueue

    ghost predicate Valid()
      reads this, embargoQueue, embargoQueue.q, embargoQueue.q.q
    {
      IsHolding(embargoQueue)
    }

    ghost function State(): ImportState<Sink>
      reads this, embargoQueue, embargoQueue.q, embargoQueue.q.q
      requires Valid()
    {
      ImportState(closed, resolved, embargoId, Bodies(embargoQueue.Contents()))
    }

    constructor (id: nat)
      ensures Valid() && State() == NewImport() && this.id == id
      ensures fresh(embargoQueue) && fresh(embargoQueue.q) && fresh(embargoQueue.storage)
    {
      this.id, closed, resolved, embargoId := id, false, None, None;
      embargoQueue := new CallQueue(CALL_QUEUE_SIZE, []);
    }

    /** `Sent` leaves the call to the connection, which asks a new question. */
    method Call(body: Body, f: nat) returns (fate: Fate)
      requires Valid()
      modifies embargoQueue.q, embargoQueue.storage, if resolved.Some? then {resolved.value} else {}
      ensures Valid() && (State(), fate) == old(State()).Call(body)
      ensures fate.Passed? ==> resolved.Some? && resolved.value.called == old(resolved.value.called) + [LocalCall(body, f)]
      ensures !fate.Passed? && resolved.Some? ==> resolved.value.called == old(resolved.value.called)
    {
      if closed {
        return Refused;
      }
      if embargoId.Some? && resolved.Some? {
        fate := HoldIn(embargoQueue, body, f);
        return;
      }
      if resolved.Some? {
        resolved.value.called := resolved.value.called + [LocalCall(body, f)];
        return Passed;
      }
      fate := Sent;
    }

    method SetResolved(client: Sink)
      requires Valid()
      modifies this`resolved
      ensures Valid() && State() == old(State()).SetResolved(client)
    {
      if closed {
        return;
      }
      resolved := Some(client);
    }

    method ActivateEmbargo(id: nat)
      requires Valid()
      modifies this`embargoId
      ensures Valid() && State() == old(State()).(embargo := Some(id))
    {
      embargoId := Some(id);
    }

    /** Lift the embargo and let the held calls through, in order. */
    method LiftEmbargo(id: nat) returns (lifted: bool)
      requires Valid()
      modifies this`embargoId, embargoQueue.q, embargoQueue.storage, if resolved.Some? then {resolved.value} else {}
      ensures Valid() && State() == old(State()).Lift(id).0
      ensures lifted == (old(embargoId) == Some(id))
      ensures resolved.Some? ==>
        resolved.value.called == old(resolved.value.called) + (if lifted then old(embargoQueue.Contents()) else [])
    {
      if embargoId != Some(id) {
        return false;
      }
      embargoId := None;
      if resolved.None? {
        return true;
      }
      CallsInAll(embargoQueue.Contents());
      embargoQueue.FlushTo(resolved.value);
      lifted := true;
    }

    /** Close once: the held calls are rejected. */
    method Close(refused: Sink)
      requires Valid()
      modifies this, embargoQueue.q, embargoQueue.storage, refused`rejected
      ensures Valid() && State() == old(State()).Close().0
      ensures refused.rejected == old(refused.rejected) + (if old(closed) then [] else old(embargoQueue.Contents()))
    {
      if closed {
        return;
      }
      closed := true;
      CallsInAll(embargoQueue.Contents());
      embargoQueue.RejectAll(refused);
      embargoId := None;
    }
  }

  class PromiseExportClient {
    var resolved: Option<Sink>
    var closed: bool
    const queue: CallQueue

    ghost predicate Valid()
      reads this, queue, queue.q, queue.q.q
    {
      IsHolding(queue)
    }

    ghost function State(): ExportState<Sink>
      reads this, queue, queue.q, queue.q.q
      requires Valid()
    {
      ExportState(closed, resolved, Bodies(queue.Contents()))
    }

    constructor ()
      ensures Valid() && State() == NewExport()
      ensures fresh(queue) && fresh(queue.q) && fresh(queue.storage)
    {
      closed, resolved := false, None;
      queue := new CallQueue(CALL_QUEUE_SIZE, []);
    }

    method Call(body: Body, f: nat) returns (fate: Fate)
      requires Valid()
      modifies queue.q, queue.storage, if resolved.Some? then {resolved.value} else {}
      ensures Valid() && (State(), fate) == old(State()).Call(body)
      ensures fate.Passed? ==> resolved.Some? && resolved.value.called == old(resolved.value.called) + [LocalCall(body, f)]
      ensures !fate.Passed? && resolved.Some? ==> resolved.value.called == old(resolved.value.called)
    {
      if closed {
        return Refused;
      }
      if resolved.None? {
        fate := HoldIn(queue, body, f);
        return;
      }
      resolved.value.called := resolved.value.called + [LocalCall(body, f)];
      fate := Passed;
    }

    /** Resolve to a client and let the held calls through, in order. */
    method Resolve(client: Sink)
      requires Valid()
      modifies this`resolved, queue.q, queue.storage, client`called, client`echoed
      ensures Valid() && State() == old(State()).Resolve(client).0
      ensures client.called == old(client.called) + (if closed then [] else old(queue.Contents()))
    {
      if closed {
        return;
      }
      resolved := Some(client);
      CallsInAll(queue.Contents());
      queue.FlushTo(client);
    }

    method Reject(refused: Sink)
      requires Valid()
      modifies queue.q, queue.storage, refused`rejected
      ensures Valid() && State() == old(State()).Reject().0
      ensures refused.rejected == old(refused.rejected) + old(queue.Contents())
    {
      CallsInAll(queue.Contents());
      queue.RejectAll(refused);
    }

    /** Close once: the held calls are rejected. */
    method Close(refused: Sink)
      requires Valid()
      modifies this`closed, queue.q, queue.storage, refused`rejected
      ensures Valid() && State() == old(State()).Close().0
      ensures refused.rejected == old(refused.rejected) + (if old(closed) then [] else old(queue.Contents()))
    {
      if closed {
        return;
      }
      closed := true;
      Reject(refused);
    }
  }
}
