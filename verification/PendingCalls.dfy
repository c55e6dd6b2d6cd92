/** Calls pipelined on a result that is not there yet, and what settling it does with them. */
module PendingCalls {

  // The local promise (src/rpc/fulfiller/fulfiller.ts, embargo-client.ts) and the answer table's entry
  // (src/rpc/answer.ts, src/rpc/queue-client.ts).

  import opened RpcMessages
  import opened CallQueues

  /** A call waits for the capability at the end of a path through the result. */
  datatype PCall = PCall(slot: Slot, path: seq<nat>)

  /** What following a path through a result finds. */
  datatype Lookup = Throws | NullClient | Cap(index: nat)

  type Content = seq<nat> -> Lookup

  // ---------------------------------------------------------------------------------------------
  // The split, as a function

  /** The calls for one capability, in the order they were made. */
  function ForCap(queue: seq<PCall>, content: Content, index: nat): seq<Slot> {
    if queue == [] then []
    else
      (if content(queue[0].path) == Cap(index) then [queue[0].slot] else [])
      + ForCap(queue[1..], content, index)
  }

  /** The calls for no capability at all. */
  function ForNone(queue: seq<PCall>, content: Content): seq<Slot> {
    if queue == [] then []
    else
      (if content(queue[0].path).Cap? then [] else [queue[0].slot]) + ForNone(queue[1..], content)
  }

  function Slots(queue: seq<PCall>): seq<Slot> {
    if queue == [] then [] else [queue[0].slot] + Slots(queue[1..])
  }

  /** How often a slot is among the calls for the capabilities below `bound`. */
  function InCapsBelow(queue: seq<PCall>, content: Content, bound: nat, s: Slot): nat {
    if bound == 0 then 0
    else InCapsBelow(queue, content, bound - 1, s) + multiset(ForCap(queue, content, bound - 1))[s]
  }

  lemma ForCapStep(queue: seq<PCall>, content: Content, index: nat)
    requires queue != []
    ensures ForCap(queue, content, index)
         == (if content(queue[0].path) == Cap(index) then [queue[0].slot] else []) + ForCap(queue[1..], content, index)
  {
  }

  lemma ForNoneStep(queue: seq<PCall>, content: Content)
    requires queue != []
    ensures ForNone(queue, content)
         == (if content(queue[0].path).Cap? then [] else [queue[0].slot]) + ForNone(queue[1..], content)
  {
  }

  lemma {:induction false} ForCapSnoc(queue: seq<PCall>, p: PCall, content: Content, index: nat)
    ensures ForCap(queue + [p], content, index)
         == ForCap(queue, content, index) + (if content(p.path) == Cap(index) then [p.slot] else [])
  {
    if queue == [] {
      assert queue + [p] == [p];
    } else {
      ForCapSnoc(queue[1..], p, content, index);
      ForCapStep(queue, content, index);
      ForCapStep(queue + [p], content, index);
      hide ForCap;
      assert (queue + [p])[1..] == queue[1..] + [p];
    }
  }

  lemma {:induction false} ForNoneSnoc(queue: seq<PCall>, p: PCall, content: Content)
    ensures ForNone(queue + [p], content)
         == ForNone(queue, content) + (if content(p.path).Cap? then [] else [p.slot])
  {
    if queue == [] {
      assert queue + [p] == [p];
    } else {
      ForNoneSnoc(queue[1..], p, content);
      ForNoneStep(queue, content);
      ForNoneStep(queue + [p], content);
      hide ForNone;
      assert (queue + [p])[1..] == queue[1..] + [p];
    }
  }

  lemma {:induction false} SlotsSnoc(queue: seq<PCall>, p: PCall)
    ensures Slots(queue + [p]) == Slots(queue) + [p.slot]
  {
    if queue == [] {
      assert queue + [p] == [p];
    } else {
      assert (queue + [p])[1..] == queue[1..] + [p];
      SlotsSnoc(queue[1..], p);
    }
  }

  lemma {:induction false} ForCapIsShort(queue: seq<PCall>, content: Content, index: nat)
    ensures |ForCap(queue, content, index)| <= |queue|
  {
    if queue != [] {
      ForCapIsShort(queue[1..], content, index);
    }
  }

  lemma CountAppend(a: seq<Slot>, b: seq<Slot>, s: Slot)
    ensures multiset(a + b)[s] == multiset(a)[s] + multiset(b)[s]
  {
  }

  lemma HeadForCap(queue: seq<PCall>, content: Content, index: nat, s: Slot)
    requires queue != []
    ensures multiset(ForCap(queue, content, index))[s]
         == multiset(ForCap(queue[1..], content, index))[s]
            + (if content(queue[0].path) == Cap(index) && queue[0].slot == s then 1 else 0)
  {
    CountAppend(if content(queue[0].path) == Cap(index) then [queue[0].slot] else [], ForCap(queue[1..], content, index), s);
  }

  lemma {:induction false} HeadInCaps(queue: seq<PCall>, content: Content, bound: nat, s: Slot)
    requires queue != []
    ensures InCapsBelow(queue, content, bound, s)
         == InCapsBelow(queue[1..], content, bound, s)
            + (if content(queue[0].path).Cap? && content(queue[0].path).index < bound && queue[0].slot == s then 1 else 0)
  {
    hide ForCap;
    if bound > 0 {
      HeadInCaps(queue, content, bound - 1, s);
      HeadForCap(queue, content, bound - 1, s);
    }
  }

  /** Every waiting call is either for no capability or for exactly one: the split keeps each call
      once, whatever the result holds. */
  lemma {:induction false} SplitIsPartition(queue: seq<PCall>, content: Content, bound: nat, s: Slot)
    requires forall p :: p in queue && content(p.path).Cap? ==> content(p.path).index < bound
    ensures multiset(Slots(queue))[s] == multiset(ForNone(queue, content))[s] + InCapsBelow(queue, content, bound, s)
  {
    if queue == [] {
      NothingInCaps(content, bound, s);
    } else {
      var p := queue[0];
      SplitIsPartition(queue[1..], content, bound, s);
      HeadInCaps(queue, content, bound, s);
      var head := if content(p.path).Cap? then [] else [p.slot];
      CountAppend(head, ForNone(queue[1..], content), s);
      CountAppend([p.slot], Slots(queue[1..]), s);
    }
  }

  lemma {:induction false} NothingInCaps(content: Content, bound: nat, s: Slot)
    ensures InCapsBelow([], content, bound, s) == 0
  {
    if bound > 0 {
      NothingInCaps(content, bound - 1, s);
    }
  }

  /** Two calls for the same capability reach it in the order they were made. */
  lemma {:induction false} SplitKeepsOrder(queue: seq<PCall>, content: Content, i: nat, j: nat, index: nat) returns (k: nat, l: nat)
    requires i < j < |queue|
    requires content(queue[i].path) == Cap(index) == content(queue[j].path)
    ensures k < l < |ForCap(queue, content, index)|
    ensures ForCap(queue, content, index)[k] == queue[i].slot && ForCap(queue, content, index)[l] == queue[j].slot
  {
    if i > 0 {
      k, l := SplitKeepsOrder(queue[1..], content, i - 1, j - 1, index);
      if content(queue[0].path) == Cap(index) {
        k, l := k + 1, l + 1;
      }
    } else {
      l := PositionInCap(queue[1..], content, j - 1, index);
      k, l := 0, l + 1;
    }
  }

  lemma {:induction false} PositionInCap(queue: seq<PCall>, content: Content, j: nat, index: nat) returns (l: nat)
    requires j < |queue| && content(queue[j].path) == Cap(index)
    ensures l < |ForCap(queue, content, index)| && ForCap(queue, content, index)[l] == queue[j].slot
  {
    if j == 0 {
      l := 0;
    } else {
      l := PositionInCap(queue[1..], content, j - 1, index);
      if content(queue[0].path) == Cap(index) {
        l := l + 1;
      }
    }
  }

  // ---------------------------------------------------------------------------------------------
  // The local promise over its whole life

  datatype Promise = Promise(
    settled: bool,
    answered: bool,
    queue: seq<PCall>,
    accepted: seq<Slot>,
    rejected: seq<Slot>,
    passed: seq<PCall>,
    content: Content)

  datatype Event = Pipeline(call: PCall) | Fulfill(content: Content) | Reject

  function Fresh(): Promise {
    Promise(false, false, [], [], [], [], _ => Throws)
  }

  /** One event.  A call is passed straight on once there is an answer, refused when the queue is
      full, and queued otherwise; settling happens once. */
  function Happen(p: Promise, e: Event): Promise {
    match e
    case Pipeline(call) =>
      if p.answered then p.(passed := p.passed + [call])
      else if |p.queue| == CALL_QUEUE_SIZE then p
      else p.(queue := p.queue + [call], accepted := p.accepted + [call.slot])
    case Fulfill(content) =>
      if p.settled then p
      else p.(settled := true, answered := true, queue := [], content := content,
              rejected := ForNone(p.queue, content))
    case Reject =>
      if p.settled then p else p.(settled := true, queue := [], rejected := Slots(p.queue))
  }

  function After(events: seq<Event>): Promise {
    if events == [] then Fresh() else Happen(After(events[..|events| - 1]), events[|events| - 1])
  }

  /** The calls accepted before settlement, which is when the queue was emptied. */
  function Before(events: seq<Event>): seq<PCall>
    decreases |events|
  {
    if events == [] then []
    else
      var p := After(events[..|events| - 1]);
      if p.settled then Before(events[..|events| - 1]) else p.queue
  }

  /** A promise never loses a call it accepted: in every history each is still waiting, was rejected
      once, or was delivered once to the capability its path leads to. */
  lemma {:induction false} AcceptedAreSettledOnce(events: seq<Event>)
    ensures var p := After(events);
      && |p.queue| <= CALL_QUEUE_SIZE
      && (p.answered ==> p.settled && p.queue == [])
      && (!p.settled ==> p.accepted == Slots(p.queue) && p.rejected == [])
      && (p.answered ==> p.accepted == Slots(Before(events)) && p.rejected == ForNone(Before(events), p.content))
      && (p.settled && !p.answered ==> p.rejected == Slots(Before(events)) && p.accepted == p.rejected + Slots(p.queue))
  {
    if events != [] {
      var last := |events| - 1;
      AcceptedAreSettledOnce(events[..last]);
      var p := After(events[..last]);
      if events[last].Pipeline? {
        SlotsSnoc(p.queue, events[last].call);
        assert p.rejected + (Slots(p.queue) + [events[last].call.slot]) == p.rejected + Slots(p.queue) + [events[last].call.slot];
      }
    }
  }

  /** Once there is a result, every accepted call was rejected once or is among the calls for exactly one
      capability, those that `Fulfiller.TryFulfill` delivers. */
  lemma AcceptedAreDeliveredOnce(events: seq<Event>, bound: nat, s: Slot)
    requires After(events).answered
    requires forall p :: p in Before(events) && After(events).content(p.path).Cap? ==> After(events).content(p.path).index < bound
    ensures multiset(After(events).accepted)[s]
         == multiset(After(events).rejected)[s] + InCapsBelow(Before(events), After(events).content, bound, s)
  {
    AcceptedAreSettledOnce(events);
    SplitIsPartition(Before(events), After(events).content, bound, s);
  }

  /** After a rejection the promise keeps accepting calls while its queue has room, and none of those is
      ever settled. */
  lemma {:induction false} LateCallsWaitForever(events: seq<Event>, later: seq<Event>)
    requires After(events).settled && !After(events).answered
    ensures After(events).queue <= After(events + later).queue
    ensures !After(events + later).answered && After(events + later).rejected == After(events).rejected
    ensures later != [] && later[|later| - 1].Pipeline? ==>
      var before := After(events + later[..|later| - 1]).queue;
      After(events + later).queue == if |before| == CALL_QUEUE_SIZE then before else before + [later[|later| - 1].call]
    decreases |later|
  {
    if later == [] {
      assert events + later == events;
    } else {
      var last := |later| - 1;
      LateCallsWaitForever(events, later[..last]);
      var all := events + later;
      assert all[..|all| - 1] == events + later[..last] && all[|all| - 1] == later[last];
      SettledStays(events, later[..last]);
    }
  }

  lemma {:induction false} SettledStays(events: seq<Event>, later: seq<Event>)
    requires After(events).settled
    ensures After(events + later).settled
    decreases |later|
  {
    if later == [] {
      assert events + later == events;
    } else {
      var last := |later| - 1;
      SettledStays(events, later[..last]);
      var all := events + later;
      assert all[..|all| - 1] == events + later[..last] && all[|all| - 1] == later[last];
    }
  }

  // ---------------------------------------------------------------------------------------------
  // The imperative form

  /** A client behind a queue of its own: created over a copy of the calls that waited for it, which
      it sends on at once. */
  class EmbargoClient {
    const client: Sink
    const queue: CallQueue

    ghost predicate Valid()
      reads this, queue, queue.q, queue.q.q
    {
      queue.Valid()
    }

    constructor (client: Sink, queue: CallQueue)
      requires queue.Valid()
      modifies client`called, client`echoed
      ensures Valid() && this.queue.Contents() == [] && this.client == client
      ensures client.called == old(client.called) + CallsIn(old(queue.Contents()))
      ensures queue.Valid() && queue.Contents() == old(queue.Contents())
    {
      var copy := queue.Copy();
      this.client, this.queue := client, copy;
      new;
      copy.FlushTo(client);
    }

    /** With nothing held back a call goes straight on; otherwise it waits behind the others. */
    method Call(slot: Slot) returns (ok: bool)
      requires Valid() && !slot.Echo?
      modifies client`called, queue.q, queue.storage
      ensures Valid()
      ensures old(queue.Contents()) == [] ==>
        ok && client.called == old(client.called) + [slot] && queue.Contents() == []
      ensures old(queue.Contents()) != [] ==>
        && client.called == old(client.called)
        && ok == (|old(queue.Contents())| < queue.cap)
        && queue.Contents() == old(queue.Contents()) + (if ok then [slot] else [])
    {
      var held := queue.Length();
      if held == 0 {
        client.called := client.called + [slot];
        return true;
      }
      ok := queue.PushSlot(slot);
    }
  }

  /** Put a client behind a queue of calls, which it sends on. */
  method SendOn(client: Sink, calls: seq<Slot>)
    requires forall s :: s in calls ==> !s.Echo?
    modifies client`called, client`echoed
    ensures client.called == old(client.called) + calls
  {
    CallsInAll(calls);
    var queue := new CallQueue(CALL_QUEUE_SIZE, calls);
    var embargo := new EmbargoClient(client, queue);
  }

  /** Whether an entry of a result's capability table is a client. */
  ghost predicate HasClient(table: seq<Sink?>, index: nat) {
    index < |table| && table[index] != null
  }

  /** How far the calls go out: up to the first entry that has calls and no client, where the source
      throws. */
  ghost function Reach(queue: seq<PCall>, content: Content, table: seq<Sink?>, i: nat): (n: nat)
    requires i <= |table|
    ensures i <= n <= |table|
    ensures forall k :: i <= k < n && table[k] == null ==> ForCap(queue, content, k) == []
    ensures n < |table| ==> table[n] == null && ForCap(queue, content, n) != []
    decreases |table| - i
  {
    if i == |table| || (table[i] == null && ForCap(queue, content, i) != []) then i
    else Reach(queue, content, table, i + 1)
  }

  /** The calls a client receives when waiting calls go out index by index: those for each of the first
      `n` entries of the capability table that is this client, which may be several. */
  ghost function CallsFor(queue: seq<PCall>, content: Content, table: seq<Sink?>, n: nat, c: Sink): seq<Slot>
    requires n <= |table|
  {
    if n == 0 then []
    else CallsFor(queue, content, table, n - 1, c) + (if table[n - 1] == c then ForCap(queue, content, n - 1) else [])
  }

  /** How often a call is among what the clients receive, each client counted once. */
  ghost function Deliveries(queue: seq<PCall>, content: Content, table: seq<Sink?>, clients: seq<Sink>, n: nat, s: Slot): nat
    requires n <= |table|
  {
    if clients == [] then 0
    else
      Deliveries(queue, content, table, clients[1..], n, s)
      + multiset(CallsFor(queue, content, table, n, clients[0]))[s]
  }

  lemma {:induction false} NothingYet(queue: seq<PCall>, content: Content, table: seq<Sink?>, clients: seq<Sink>, s: Slot)
    ensures Deliveries(queue, content, table, clients, 0, s) == 0
  {
    if clients != [] {
      NothingYet(queue, content, table, clients[1..], s);
    }
  }

  lemma {:induction false} OneMoreIndex(queue: seq<PCall>, content: Content, table: seq<Sink?>, clients: seq<Sink>, n: nat, s: Slot)
    requires n < |table| && forall i, j :: 0 <= i < j < |clients| ==> clients[i] != clients[j]
    ensures Deliveries(queue, content, table, clients, n + 1, s)
         == Deliveries(queue, content, table, clients, n, s)
            + (if table[n] in clients then multiset(ForCap(queue, content, n))[s] else 0)
  {
    hide ForCap;
    if clients != [] {
      OneMoreIndex(queue, content, table, clients[1..], n, s);
      CountAppend(CallsFor(queue, content, table, n, clients[0]),
                  if table[n] == clients[0] then ForCap(queue, content, n) else [], s);
    }
  }

  /** Every call for one of the entries the calls go out to is delivered once, whichever entries are the
      same client. */
  lemma {:induction false} EachIsDeliveredOnce(queue: seq<PCall>, content: Content, table: seq<Sink?>, clients: seq<Sink>, n: nat, s: Slot)
    requires n <= Reach(queue, content, table, 0) && (forall c: Sink :: c in table ==> c in clients)
    requires forall i, j :: 0 <= i < j < |clients| ==> clients[i] != clients[j]
    ensures Deliveries(queue, content, table, clients, n, s) == InCapsBelow(queue, content, n, s)
    decreases n
  {
    hide ForCap, CallsFor, Deliveries;
    if n == 0 {
      NothingYet(queue, content, table, clients, s);
    } else {
      EachIsDeliveredOnce(queue, content, table, clients, n - 1, s);
      OneMoreIndex(queue, content, table, clients, n - 1, s);
      assert table[n - 1] in table;
    }
  }

  lemma {:induction false} MoreInMoreCaps(queue: seq<PCall>, content: Content, n: nat, bound: nat, index: nat, s: Slot)
    requires n <= bound
    ensures InCapsBelow(queue, content, n, s) <= InCapsBelow(queue, content, bound, s)
    ensures n <= index < bound ==>
      InCapsBelow(queue, content, n, s) + multiset(ForCap(queue, content, index))[s] <= InCapsBelow(queue, content, bound, s)
    ensures (forall i :: n <= i < bound ==> ForCap(queue, content, i) == []) ==>
      InCapsBelow(queue, content, n, s) == InCapsBelow(queue, content, bound, s)
  {
    hide ForCap;
    if n < bound {
      MoreInMoreCaps(queue, content, n, bound - 1, index, s);
    }
  }

  lemma {:induction false} FoundForCap(queue: seq<PCall>, content: Content, index: nat)
    ensures ForCap(queue, content, index) != [] <==> exists p :: p in queue && content(p.path) == Cap(index)
  {
    if queue != [] {
      FoundForCap(queue[1..], content, index);
      assert queue == [queue[0]] + queue[1..];
    }
  }

  /** Settling delivers or rejects each waiting call once if and only if every capability that a waiting
      call leads to is in the result's table; never does it settle a call twice. */
  lemma SettledOnceIff(queue: seq<PCall>, content: Content, table: seq<Sink?>, clients: seq<Sink>)
    requires forall c: Sink :: c in table ==> c in clients
    requires forall i, j :: 0 <= i < j < |clients| ==> clients[i] != clients[j]
    ensures var n := Reach(queue, content, table, 0);
      && (forall s :: multiset(ForNone(queue, content))[s] + Deliveries(queue, content, table, clients, n, s) <= multiset(Slots(queue))[s])
      && ((forall s :: multiset(ForNone(queue, content))[s] + Deliveries(queue, content, table, clients, n, s) == multiset(Slots(queue))[s])
          <==> forall p :: p in queue && content(p.path).Cap? ==> HasClient(table, content(p.path).index))
  {
    hide ForCap, ForNone, Slots, InCapsBelow, Deliveries;
    var n := Reach(queue, content, table, 0);
    var bound := CapBound(queue, content, n);
    forall i {
      FoundForCap(queue, content, i);
    }
    forall s
      ensures multiset(Slots(queue))[s] == multiset(ForNone(queue, content))[s] + InCapsBelow(queue, content, bound, s)
      ensures Deliveries(queue, content, table, clients, n, s) == InCapsBelow(queue, content, n, s) <= InCapsBelow(queue, content, bound, s)
    {
      SplitIsPartition(queue, content, bound, s);
      EachIsDeliveredOnce(queue, content, table, clients, n, s);
      MoreInMoreCaps(queue, content, n, bound, n, s);
    }
    if p :| p in queue && content(p.path).Cap? && !HasClient(table, content(p.path).index) {
      var index := content(p.path).index;
      var calls := ForCap(queue, content, index);
      assert calls != [];
      var s := calls[0];
      assert multiset(calls)[s] > 0;
      assert n <= index < bound;
      MoreInMoreCaps(queue, content, n, bound, index, s);
      assert multiset(ForNone(queue, content))[s] + Deliveries(queue, content, table, clients, n, s) < multiset(Slots(queue))[s];
    } else {
      forall s {
        MoreInMoreCaps(queue, content, n, bound, n, s);
      }
    }
  }

  /** A bound on the capabilities waiting calls lead to. */
  lemma {:induction false} CapBound(queue: seq<PCall>, content: Content, least: nat) returns (bound: nat)
    ensures bound >= least
    ensures forall p :: p in queue && content(p.path).Cap? ==> content(p.path).index < bound
  {
    bound := least;
    if queue != [] {
      bound := CapBound(queue[1..], content, least);
      var l := content(queue[0].path);
      assert queue == [queue[0]] + queue[1..];
      if l.Cap? && l.index >= bound {
        bound := l.index + 1;
      }
    }
  }

  /** The calls split off for one capability. */
  function SplitOff(qs: map<nat, seq<Slot>>, index: nat): seq<Slot> {
    if index in qs then qs[index] else []
  }

  lemma CallsForStep(queue: seq<PCall>, content: Content, table: seq<Sink?>, n: nat)
    requires n < |table|
    ensures forall c: Sink ::
      CallsFor(queue, content, table, n + 1, c)
      == CallsFor(queue, content, table, n, c) + (if table[n] == c then ForCap(queue, content, n) else [])
    ensures !HasClient(table, n) && ForCap(queue, content, n) != [] ==> Reach(queue, content, table, n) == n
    ensures HasClient(table, n) || ForCap(queue, content, n) == [] ==>
      Reach(queue, content, table, n) == Reach(queue, content, table, n + 1)
  {
    hide ForCap;
  }

  lemma CallsForNone(queue: seq<PCall>, content: Content, table: seq<Sink?>)
    ensures forall c: Sink :: CallsFor(queue, content, table, 0, c) == []
    ensures Reach(queue, content, table, |table|) == |table|
  {
  }

  /** Send on the calls of every capability that has any, from the lowest index on, up to one that is
      not there. */
  method SendAll(qs: map<nat, seq<Slot>>, table: seq<Sink?>, ghost queue: seq<PCall>, ghost content: Content) returns (thrown: bool)
    requires forall i :: i in qs ==> qs[i] != [] && forall s :: s in qs[i] ==> !s.Echo?
    requires forall i :: SplitOff(qs, i) == ForCap(queue, content, i)
    modifies table
    ensures thrown <==> exists i :: SplitOff(qs, i) != [] && !HasClient(table, i)
    ensures forall c: Sink :: c in table ==>
      c.called == old(c.called) + CallsFor(queue, content, table, Reach(queue, content, table, 0), c)
    ensures forall c: Sink :: c in table ==> c.rejected == old(c.rejected)
  {
    hide ForCap, CallsFor, Reach;
    CallsForNone(queue, content, table);
    for i := 0 to |table|
      invariant Reach(queue, content, table, 0) == Reach(queue, content, table, i)
      invariant forall k :: 0 <= k < i && SplitOff(qs, k) != [] ==> HasClient(table, k)
      invariant forall c: Sink :: c in table ==> c.called == old(c.called) + CallsFor(queue, content, table, i, c)
      invariant forall c: Sink :: c in table ==> c.rejected == old(c.rejected)
    {
      CallsForStep(queue, content, table, i);
      var calls := SplitOff(qs, i);
      assert calls == ForCap(queue, content, i);
      if i in qs {
        if table[i] == null {
          return true;
        }
        SendOn(table[i], calls);
      }
    }
    thrown := exists i :: i in qs && i >= |table|;
    assert forall i :: i in qs <==> SplitOff(qs, i) != [];
  }

  /** What pushing to a full or not so full call queue does to its contents. */
  function Pushed(held: seq<Slot>, slot: Slot): seq<Slot> {
    if |held| < CALL_QUEUE_SIZE then held + [slot] else held
  }

  class Fulfiller {
    var settled: bool
    var answered: bool
    var queue: seq<PCall>

    ghost predicate Valid()
      reads this
    {
      |queue| <= CALL_QUEUE_SIZE && (answered ==> queue == []) && (forall p :: p in queue ==> p.slot.LocalCall?)
    }

    /** The object is in the state a history of events leads to. */
    ghost predicate Is(p: Promise)
      reads this
    {
      settled == p.settled && answered == p.answered && queue == p.queue
    }

    constructor ()
      ensures Valid() && Is(Fresh())
    {
      settled, answered, queue := false, false, [];
    }

    /** Queue a call unless there is an answer already or the queue is full. */
    method PipelineCall(call: PCall) returns (taken: bool)
      requires Valid() && call.slot.LocalCall?
      modifies this`queue
      ensures Valid()
      ensures taken == (!answered && |old(queue)| < CALL_QUEUE_SIZE)
      ensures queue == if taken then old(queue) + [call] else old(queue)
      ensures forall p :: old(Is(p)) ==> Is(Happen(p, Pipeline(call)))
    {
      if answered || |queue| == CALL_QUEUE_SIZE {
        return false;
      }
      queue := queue + [call];
      taken := true;
    }

    /** Split the queue by capability into call queues, given by their contents.  None of them ever
        turns a call away for lack of room. */
    method EmptyQueue(content: Content, refused: Sink) returns (qs: map<nat, seq<Slot>>)
      requires |queue| <= CALL_QUEUE_SIZE
      modifies this`queue, refused`rejected
      ensures queue == []
      ensures forall i :: i in qs ==> qs[i] != []
      ensures forall i :: SplitOff(qs, i) == ForCap(old(queue), content, i)
      ensures refused.rejected == old(refused.rejected) + ForNone(old(queue), content)
    {
      hide ForCap, ForNone;
      qs := map[];
      NoCalls(content);
      for k := 0 to |queue|
        invariant queue == old(queue)
        invariant forall i :: i in qs ==> qs[i] != []
        invariant forall i :: SplitOff(qs, i) == ForCap(queue[..k], content, i)
        invariant refused.rejected == old(refused.rejected) + ForNone(queue[..k], content)
      {
        var pc := queue[k];
        assert queue[..k + 1] == queue[..k] + [pc];
        ForNoneSnoc(queue[..k], pc, content);
        forall i {
          ForCapSnoc(queue[..k], pc, content, i);
        }
        match content(pc.path)
        case Throws => refused.rejected := refused.rejected + [pc.slot];
        case NullClient => refused.rejected := refused.rejected + [pc.slot];
        case Cap(index) =>
          ForCapIsShort(queue[..k], content, index);
          if index !in qs {
            qs := qs[index := []];
          }
          qs := qs[index := Pushed(qs[index], pc.slot)];
      }
      assert queue[..|queue|] == queue;
      queue := [];
    }

    /** Settle with a result: every waiting call is either rejected or handed, in order, to the entry
        of the result's capability table its path leads to, up to an entry that is not there.  Entries
        may be the same client. */
    method TryFulfill(content: Content, table: seq<Sink?>, refused: Sink) returns (ok: bool, thrown: bool)
      requires Valid() && refused !in table
      modifies this, refused`rejected, table
      ensures Valid() && settled
      ensures ok == !old(settled)
      ensures thrown == (ok && exists i :: ForCap(old(queue), content, i) != [] && !HasClient(table, i))
      ensures !ok ==> queue == old(queue) && answered == old(answered) && refused.rejected == old(refused.rejected)
      ensures !ok ==> forall c: Sink :: c in table ==> c.called == old(c.called)
      ensures ok ==> answered && queue == []
      ensures ok ==> refused.rejected == old(refused.rejected) + ForNone(old(queue), content)
      ensures ok ==> forall c: Sink :: c in table ==>
        c.called == old(c.called) + CallsFor(old(queue), content, table, Reach(old(queue), content, table, 0), c)
      ensures forall p :: old(Is(p)) ==> Is(Happen(p, Event.Fulfill(content)))
    {
      hide ForCap, ForNone, CallsIn, CallsFor, Reach;
      if settled {
        return false, false;
      }
      settled, answered := true, true;
      var qs := EmptyQueue(content, refused);
      ghost var calls := old(queue);
      forall i | i in qs {
        OnlyCalls(calls, content, i);
      }
      assert forall i :: ForCap(calls, content, i) == SplitOff(qs, i);
      thrown := SendAll(qs, table, calls, content);
      ok := true;
    }

    /** Settle with an error: every waiting call is rejected, in order. */
    method TryReject(refused: Sink) returns (ok: bool)
      requires Valid()
      modifies this, refused`rejected
      ensures Valid() && settled && answered == old(answered)
      ensures ok == !old(settled)
      ensures queue == if ok then [] else old(queue)
      ensures refused.rejected == old(refused.rejected) + (if ok then Slots(old(queue)) else [])
      ensures forall p :: old(Is(p)) ==> Is(Happen(p, Event.Reject))
    {
      if settled {
        return false;
      }
      settled := true;
      var calls := queue;
      queue := [];
      for k := 0 to |calls|
        invariant queue == [] && settled && answered == old(answered)
        invariant refused.rejected == old(refused.rejected) + Slots(calls[..k])
      {
        assert calls[..k + 1] == calls[..k] + [calls[k]];
        SlotsSnoc(calls[..k], calls[k]);
        refused.rejected := refused.rejected + [calls[k].slot];
      }
      assert calls[..|calls|] == calls;
      ok := true;
    }
  }

  /** The entry of the answer table: remote calls wait for its result. */
  class AnswerEntry {
    var done: bool
    var queue: seq<PCall>

    ghost predicate Valid()
      reads this
    {
      |queue| <= CALL_QUEUE_SIZE && (done ==> queue == []) && (forall p :: p in queue ==> p.slot.RemoteCall?)
    }

    constructor ()
      ensures Valid() && !done && queue == []
    {
      done, queue := false, [];
    }

    /** Queue a call for a result that is not there yet; throws when the queue is full. */
    method QueueCall(call: PCall) returns (thrown: bool)
      requires Valid() && !done && call.slot.RemoteCall?
      modifies this`queue
      ensures Valid()
      ensures thrown == (|old(queue)| >= CALL_QUEUE_SIZE)
      ensures queue == if thrown then old(queue) else old(queue) + [call]
    {
      if |queue| >= CALL_QUEUE_SIZE {
        return true;
      }
      queue := queue + [call];
      thrown := false;
    }

    /** Split the queue by capability; calls for none are rejected. */
    method EmptyQueue(content: Content, refused: Sink) returns (qs: map<nat, seq<Slot>>)
      requires forall p :: p in queue ==> p.slot.RemoteCall?
      modifies this`queue, refused`rejected
      ensures queue == []
      ensures forall i :: i in qs ==> qs[i] != []
      ensures forall i :: SplitOff(qs, i) == ForCap(old(queue), content, i)
      ensures refused.rejected == old(refused.rejected) + ForNone(old(queue), content)
    {
      hide ForCap, ForNone;
      qs := map[];
      NoCalls(content);
      for k := 0 to |queue|
        invariant queue == old(queue)
        invariant forall i :: i in qs ==> qs[i] != []
        invariant forall i :: SplitOff(qs, i) == ForCap(queue[..k], content, i)
        invariant refused.rejected == old(refused.rejected) + ForNone(queue[..k], content)
      {
        var pc := queue[k];
        assert queue[..k + 1] == queue[..k] + [pc];
        ForNoneSnoc(queue[..k], pc, content);
        forall i {
          ForCapSnoc(queue[..k], pc, content, i);
        }
        if pc.slot.RemoteCall? {
          match content(pc.path)
          case Throws => refused.rejected := refused.rejected + [pc.slot];
          case NullClient => refused.rejected := refused.rejected + [pc.slot];
          case Cap(index) =>
            if index !in qs {
              qs := qs[index := []];
            }
            qs := qs[index := qs[index] + [pc.slot]];
        }
      }
      assert queue[..|queue|] == queue;
      queue := [];
    }

    /** Settle with a result, once.  Each capability with waiting calls is put behind a queue of them,
        which has room for all, and every queue is then flushed, up to one that has no client. */
    method Fulfill(content: Content, table: seq<Sink?>, refused: Sink) returns (thrown: bool)
      requires Valid() && refused !in table
      modifies this, refused`rejected, table
      ensures Valid() && done
      ensures thrown == (old(done) || exists i :: ForCap(old(queue), content, i) != [] && !HasClient(table, i))
      ensures refused.rejected == old(refused.rejected) + ForNone(old(queue), content)
      ensures forall c: Sink :: c in table ==>
        c.called == old(c.called)
          + (if old(done) then [] else CallsFor(old(queue), content, table, Reach(old(queue), content, table, 0), c))
    {
      hide ForCap, ForNone, CallsIn, CallsFor, Reach;
      ghost var calls := queue;
      NoCalls(content);
      if done {
        return true;
      }
      done := true;
      var qs := EmptyQueue(content, refused);
      forall i | i in qs {
        OnlyCalls(calls, content, i);
      }
      assert forall i :: ForCap(calls, content, i) == SplitOff(qs, i);
      thrown := SendAll(qs, table, calls, content);
    }

    /** Settle with an error, once: every waiting call is rejected. */
    method Reject(refused: Sink) returns (thrown: bool)
      requires Valid()
      modifies this, refused`rejected
      ensures Valid() && done && queue == []
      ensures thrown == old(done)
      ensures refused.rejected == old(refused.rejected) + Slots(old(queue))
    {
      if done {
        return true;
      }
      done := true;
      for k := 0 to |queue|
        invariant queue == old(queue) && done
        invariant refused.rejected == old(refused.rejected) + Slots(queue[..k])
      {
        assert queue[..k + 1] == queue[..k] + [queue[k]];
        SlotsSnoc(queue[..k], queue[k]);
        if queue[k].slot.RemoteCall? {
          refused.rejected := refused.rejected + [queue[k].slot];
        }
      }
      assert queue[..|queue|] == queue;
      queue := [];
      thrown := false;
    }
  }

  lemma {:induction false} OnlyCalls(queue: seq<PCall>, content: Content, index: nat)
    requires forall p :: p in queue ==> !p.slot.Echo?
    ensures forall s :: s in ForCap(queue, content, index) ==> !s.Echo?
  {
    if queue != [] {
      OnlyCalls(queue[1..], content, index);
    }
  }

  lemma NoCalls(content: Content)
    ensures forall i :: ForCap([], content, i) == []
    ensures ForNone([], content) == []
  {
  }
}
