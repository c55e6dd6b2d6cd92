/**
 Two connections joined by two first-in first-out channels, and everything that can happen in such
 a system while no question is cancelled, no call is refused before it is routed and the transport
 does not fail.
 */
module TwoVats {
  import opened Options
  import opened IdTables
  import opened RpcMessages
  import opened ConnTables

  /** `cd` carries what `c` sent to `d`; `dc` the other way. */
  datatype System = System(c: Conn, d: Conn, cd: seq<Message>, dc: seq<Message>)

  function Swap(s: System): System {
    System(s.d, s.c, s.dc, s.cd)
  }

  function Start(): System {
    System(NewConn(), NewConn(), [], [])
  }

  datatype Action =
    | DoInitMain(obj: nat)
    | DoBootstrap
    | DoCall(to: CallTo, args: seq<CapArg>, body: Body)
    | DoSettle(q: nat, how: Settlement)
    | DoDropRef(id: nat)
    | DoResolve(promiseId: nat, cap: Option<CapArg>)
    | DoReceive(embargoId: nat)

  /** When vat `c` can act. */
  predicate Enabled(s: System, a: Action) {
    match a
    case DoInitMain(obj) => true
    case DoBootstrap => true
    case DoCall(to, args, body) => CanCall(s.c, to) && forall arg :: arg in args ==> CanDescribe(s.c, arg)
    case DoSettle(q, how) =>
      q in s.c.answers && (how.Fulfill? ==> forall arg :: arg in how.args ==> CanDescribe(s.c, arg))
    case DoDropRef(id) => id in s.c.imports
    case DoResolve(p, cap) =>
      s.c.exports.Find(p).Some? && (cap.Some? ==> cap.value != NullCap && CanDescribe(s.c, cap.value))
    case DoReceive(_) => s.dc != []
  }

  /** Vat `c` acts.  Each action is one synchronous turn of the event loop. */
  function Act(s: System, a: Action, norm: Norm): System
    requires Enabled(s, a)
  {
    match a
    case DoInitMain(obj) => s.(c := InitMain(s.c, obj, norm))
    case DoBootstrap => var (c, out) := SendBootstrap(s.c); s.(c := c, cd := s.cd + out)
    case DoCall(to, args, body) =>
      var (c, out) := SendCall(s.c, to, args, body, norm); s.(c := c, cd := s.cd + out)
    case DoSettle(q, how) => var (c, out) := Settle(s.c, q, how, norm); s.(c := c, cd := s.cd + out)
    case DoDropRef(id) => var (c, out) := DropRef(s.c, id); s.(c := c, cd := s.cd + out)
    case DoResolve(p, cap) => var (c, out) := SendResolve(s.c, p, cap, norm); s.(c := c, cd := s.cd + out)
    case DoReceive(e) =>
      var (c, out) := Handle(s.c, s.dc[0], Known, e, norm);
      System(c, s.d, s.cd + out, s.dc[1..])
  }

  ghost predicate StepOfC(s: System, t: System) {
    exists a: Action, norm: Norm :: Enabled(s, a) && t == Act(s, a, norm)
  }

  /** One step of the system: either vat acts. */
  ghost predicate Next(s: System, t: System) {
    StepOfC(s, t) || StepOfC(Swap(s), Swap(t))
  }

  ghost predicate Run(run: seq<System>) {
    && run != []
    && run[0] == Start()
    && forall i :: 0 <= i < |run| - 1 ==> Next(run[i], run[i + 1])
  }
}
