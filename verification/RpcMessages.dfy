/** The RPC messages two connections exchange, cut down to the fields the connection tables act on. */
module RpcMessages {

  // Three fields are history: no handler branches on them, they are only copied.  `obj` in a
  // descriptor or target is the identity of the client in the export slot the sender means; `serial`
  // is the incarnation of a question id; `body` is the application call a Call message carries
  // (its method and parameters), which forwarding keeps.


  /** An application call: the `n`-th call issued on the promise import `ref`. */
  datatype Body = Body(ref: nat, n: nat)

  datatype Desc =
    | NoCap
    | SenderHosted(id: nat, obj: nat)
    | SenderPromise(id: nat, obj: nat)
    | ReceiverHosted(id: nat, obj: nat)
    | ReceiverAnswer(q: nat, serial: nat)

  datatype Target =
    | ImportedCap(id: nat, obj: nat)
    | PromisedAnswer(q: nat, serial: nat)

  datatype Outcome = Results(caps: seq<Desc>) | Exception

  datatype Resolution = ToCap(desc: Desc) | ToException

  datatype Loopback = SenderLoopback(id: nat) | ReceiverLoopback(id: nat)

  datatype Message =
    | Bootstrap(q: nat, serial: nat)
    | Call(q: nat, serial: nat, target: Target, caps: seq<Desc>, body: Body)
    | Return(q: nat, serial: nat, releaseParamCaps: bool, outcome: Outcome)
    | Finish(q: nat, releaseResultCaps: bool)
    | Resolve(promiseId: nat, resolution: Resolution)
    | Release(id: nat, referenceCount: nat)
    | Disembargo(context: Loopback, target: Target)
    | Unimplemented
    | Abort

  /** Every capability descriptor a message carries. */
  function Descs(m: Message): seq<Desc> {
    match m
    case Call(_, _, _, caps, _) => caps
    case Return(_, _, _, Results(caps)) => caps
    case Resolve(_, ToCap(desc)) => [desc]
    case _ => []
  }

  /** The message opens a question: it asks the receiver for an answer entry. */
  predicate Opens(m: Message) {
    m.Bootstrap? || m.Call?
  }

  /** The message relies on the receiver's export `id` still being the client `obj`. */
  predicate Names(m: Message, id: nat, obj: nat) {
    ReceiverHosted(id, obj) in Descs(m) || (m.Call? && m.target == ImportedCap(id, obj))
  }

  /** The message hands the receiver one reference to the sender's export `id`. */
  predicate Grants(m: Message, id: nat, obj: nat) {
    SenderHosted(id, obj) in Descs(m) || SenderPromise(id, obj) in Descs(m)
  }

  /** The message relies on the receiver's answer `q`, in the incarnation `serial`. */
  predicate Refers(m: Message, q: nat, serial: nat) {
    ReceiverAnswer(q, serial) in Descs(m) || (m.Call? && m.target == PromisedAnswer(q, serial))
  }

  /** How many references to the sender's export `id` the descriptors hand over. */
  function Granted(descs: seq<Desc>, id: nat): nat {
    if descs == [] then 0
    else
      (if (descs[0].SenderHosted? || descs[0].SenderPromise?) && descs[0].id == id then 1 else 0)
      + Granted(descs[1..], id)
  }

  /** References to export `id` handed over by messages still in the channel. */
  function GrantsInFlight(ch: seq<Message>, id: nat): nat {
    if ch == [] then 0 else Granted(Descs(ch[0]), id) + GrantsInFlight(ch[1..], id)
  }

  function Given(m: Message, id: nat): nat {
    if m.Release? && m.id == id then m.referenceCount else 0
  }

  /** References to export `id` given back by Release messages still in the channel. */
  function ReleasesInFlight(ch: seq<Message>, id: nat): nat {
    if ch == [] then 0 else Given(ch[0], id) + ReleasesInFlight(ch[1..], id)
  }

  /** Return messages for the incarnation `serial` of question `q` still in the channel. */
  function ReturnsInFlight(ch: seq<Message>, q: nat, serial: nat): nat {
    if ch == [] then 0
    else
      (if ch[0].Return? && ch[0].q == q && ch[0].serial == serial then 1 else 0)
      + ReturnsInFlight(ch[1..], q, serial)
  }

  lemma {:induction false} GrantedAppend(a: seq<Desc>, b: seq<Desc>, id: nat)
    ensures Granted(a + b, id) == Granted(a, id) + Granted(b, id)
  {
    if a == [] {
      assert a + b == b;
    } else {
      assert (a + b)[1..] == a[1..] + b;
      GrantedAppend(a[1..], b, id);
    }
  }

  lemma {:induction false} GrantsAppend(a: seq<Message>, b: seq<Message>, id: nat)
    ensures GrantsInFlight(a + b, id) == GrantsInFlight(a, id) + GrantsInFlight(b, id)
  {
    if a == [] {
      assert a + b == b;
    } else {
      assert (a + b)[1..] == a[1..] + b;
      GrantsAppend(a[1..], b, id);
    }
  }

  lemma {:induction false} ReleasesAppend(a: seq<Message>, b: seq<Message>, id: nat)
    ensures ReleasesInFlight(a + b, id) == ReleasesInFlight(a, id) + ReleasesInFlight(b, id)
  {
    if a == [] {
      assert a + b == b;
    } else {
      assert (a + b)[1..] == a[1..] + b;
      ReleasesAppend(a[1..], b, id);
    }
  }

  lemma {:induction false} ReturnsAppend(a: seq<Message>, b: seq<Message>, q: nat, serial: nat)
    ensures ReturnsInFlight(a + b, q, serial)
         == ReturnsInFlight(a, q, serial) + ReturnsInFlight(b, q, serial)
  {
    if a == [] {
      assert a + b == b;
    } else {
      assert (a + b)[1..] == a[1..] + b;
      ReturnsAppend(a[1..], b, q, serial);
    }
  }

  /** A descriptor in the sequence is counted. */
  lemma {:induction false} GrantedPositive(descs: seq<Desc>, id: nat, obj: nat)
    requires SenderHosted(id, obj) in descs || SenderPromise(id, obj) in descs
    ensures Granted(descs, id) >= 1
  {
    if descs[0] != SenderHosted(id, obj) && descs[0] != SenderPromise(id, obj) {
      GrantedPositive(descs[1..], id, obj);
    }
  }

  /** A message in the channel is counted. */
  lemma {:induction false} GrantsPositive(ch: seq<Message>, i: nat, id: nat)
    requires i < |ch|
    ensures GrantsInFlight(ch, id) >= Granted(Descs(ch[i]), id)
  {
    if i > 0 {
      GrantsPositive(ch[1..], i - 1, id);
    }
  }

  lemma {:induction false} ReturnsPositive(ch: seq<Message>, i: nat)
    requires i < |ch| && ch[i].Return?
    ensures ReturnsInFlight(ch, ch[i].q, ch[i].serial) >= 1
  {
    if i > 0 {
      ReturnsPositive(ch[1..], i - 1);
    }
  }
}
