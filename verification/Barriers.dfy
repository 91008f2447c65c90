/** threading.Barrier as the transfer managers use it: parties fill it, the last
    one starts the draining, and nobody enters again before all have left.  A
    reset breaks those who are waiting; it does nothing to an empty barrier or to
    one that is draining. */
module Barriers {

  datatype Barrier = Barrier(filling: set<int>, draining: set<int>, broken: bool)

  const EMPTY: Barrier := Barrier({}, {}, false)

  function Ranks(n: nat): (s: set<int>)
    ensures forall r :: r in s <==> 0 <= r < n
  {
    if n == 0 then {} else Ranks(n - 1) + {n - 1}
  }

  function Arrive(b: Barrier, r: int, n: nat): Barrier {
    var filling := b.filling + {r};
    if filling == Ranks(n) then b.(filling := {}, draining := filling) else b.(filling := filling)
  }

  /** The arrival that lets everybody go. */
  predicate Completes(b: Barrier, r: int, n: nat) {
    b.filling + {r} == Ranks(n)
  }

  function Leave(b: Barrier, r: int): Barrier {
    b.(draining := b.draining - {r})
  }

  function Reset(b: Barrier): Barrier {
    if b.draining == {} && b.filling != {} then b.(broken := true) else b
  }

  /** A barrier in working order; it never holds all the ranks without draining. */
  ghost predicate Sound(b: Barrier, n: nat) {
    !b.broken && b.filling <= Ranks(n) && b.draining <= Ranks(n) && b.filling != Ranks(n) &&
    (b.filling == {} || b.draining == {})
  }
}
