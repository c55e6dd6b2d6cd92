/**
 The limit on how many pointer objects may be built on one message
 (src/serialization/pointers/pointer.ts and trackPointerAllocation of
 src/serialization/pointers/pointer.utils.ts).
 */
module Traversal {
  /** A pointer object somebody asks for, on a segment of so many bytes. */
  datatype Request = Request(depth: int, offset: int, byteLength: nat)

  datatype Outcome = Ready | TooDeep | TooMany | OutOfBounds

  /** The checks a constructor makes, in their order, with the limit before it. */
  function OutcomeOf(r: Request, limit: int): Outcome {
    if r.depth < 1 then TooDeep
    else if limit - 8 <= 0 then TooMany
    else if r.offset < 0 || r.offset > r.byteLength then OutOfBounds
    else Ready
  }

  function LimitAfter(r: Request, limit: int): int {
    if r.depth < 1 then limit else limit - 8
  }

  class Budget {
    var limit: int

    constructor (limit: int)
      ensures this.limit == limit
    {
      this.limit := limit;
    }

    method TrackPointerAllocation() returns (ok: bool)
      modifies this
      ensures limit == old(limit) - 8 && ok == (limit > 0)
    {
      limit := limit - 8;
      ok := limit > 0;
    }

    method NewPointer(r: Request) returns (o: Outcome)
      modifies this
      ensures o == OutcomeOf(r, old(limit)) && limit == LimitAfter(r, old(limit))
    {
      if r.depth < 1 {
        return TooDeep;
      }
      var ok := TrackPointerAllocation();
      if !ok {
        return TooMany;
      }
      if r.offset < 0 || r.offset > r.byteLength {
        return OutOfBounds;
      }
      o := Ready;
    }
  }

  /** A pointer is built if and only if it is above the depth limit, the budget has more than its cost left,
      and it lies within its segment or just behind it; only a pointer that is too deep costs nothing. */
  lemma ReadyIff(r: Request, limit: int)
    ensures OutcomeOf(r, limit).Ready? <==> r.depth >= 1 && limit > 8 && 0 <= r.offset <= r.byteLength
    ensures OutcomeOf(r, limit).TooDeep? <==> r.depth < 1
    ensures OutcomeOf(r, limit).OutOfBounds? <==> r.depth >= 1 && limit > 8 && !(0 <= r.offset <= r.byteLength)
    ensures LimitAfter(r, limit) == if OutcomeOf(r, limit).TooDeep? then limit else limit - 8
  {
  }

  /** How many of the pointers asked for, in turn, are built. */
  function HowMany(rs: seq<Request>, limit: int): nat {
    if rs == [] then 0
    else (if OutcomeOf(rs[0], limit).Ready? then 1 else 0) + HowMany(rs[1..], LimitAfter(rs[0], limit))
  }

  /** Whatever is asked for, fewer than an eighth of the limit are built; a caller who asks for no pointer
      that is bad in itself gets exactly (limit - 1) / 8 before the first refusal. */
  lemma {:induction false} FewPointers(rs: seq<Request>, limit: int)
    ensures 8 * HowMany(rs, limit) < limit || HowMany(rs, limit) == 0
    ensures (forall r :: r in rs ==> 1 <= r.depth && 0 <= r.offset <= r.byteLength) ==>
      HowMany(rs, limit) == if limit <= 8 then 0 else if |rs| <= (limit - 1) / 8 then |rs| else (limit - 1) / 8
  {
    if rs != [] {
      FewPointers(rs[1..], LimitAfter(rs[0], limit));
      if forall r :: r in rs ==> 1 <= r.depth && 0 <= r.offset <= r.byteLength {
        assert rs[0] in rs && forall r :: r in rs[1..] ==> r in rs;
      }
    }
  }
}
