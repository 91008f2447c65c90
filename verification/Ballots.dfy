/** __ballot_sync and __popc over a sequence of lane flags. */
module Ballots {

  const WARP_SIZE: nat := 32

  /** __popc of the lowest n bits of a ballot. */
  function Popc(mask: seq<bool>, n: nat): nat
    requires n <= |mask|
  {
    if n == 0 then 0 else Popc(mask, n - 1) + (if mask[n - 1] then 1 else 0)
  }

  lemma {:induction false} PopcImplies(a: seq<bool>, b: seq<bool>, n: nat)
    requires n <= |a| && n <= |b| && forall i :: 0 <= i < n && a[i] ==> b[i]
    ensures Popc(a, n) <= Popc(b, n) <= n
    ensures (exists i :: 0 <= i < n && b[i] && !a[i]) ==> Popc(a, n) < Popc(b, n)
  {
    if n > 0 {
      PopcImplies(a, b, n - 1);
    }
  }

  /** Flags set on no common lane add up. */
  lemma {:induction false} PopcSplit(a: seq<bool>, b: seq<bool>, c: seq<bool>, n: nat)
    requires n <= |a| && n <= |b| && n <= |c|
    requires forall i :: 0 <= i < n ==> c[i] == (a[i] || b[i]) && !(a[i] && b[i])
    ensures Popc(c, n) == Popc(a, n) + Popc(b, n)
  {
    if n > 0 {
      PopcSplit(a, b, c, n - 1);
    }
  }

  lemma {:induction false} PopcSome(a: seq<bool>, n: nat) returns (i: nat)
    requires n <= |a| && Popc(a, n) > 0
    ensures i < n && a[i]
  {
    if a[n - 1] {
      i := n - 1;
    } else {
      i := PopcSome(a, n - 1);
    }
  }

  lemma {:induction false} PopcJoin(a: seq<bool>, b: seq<bool>, n: nat)
    requires n <= |b|
    ensures Popc(a + b, |a| + n) == Popc(a, |a|) + Popc(b, n)
  {
    if n > 0 {
      PopcJoin(a, b, n - 1);
    } else {
      PopcSame(a + b, a, |a|);
    }
  }

  lemma {:induction false} PopcSame(a: seq<bool>, b: seq<bool>, n: nat)
    requires n <= |a| && n <= |b| && forall i :: 0 <= i < n ==> a[i] == b[i]
    ensures Popc(a, n) == Popc(b, n)
  {
    if n > 0 {
      PopcSame(a, b, n - 1);
    }
  }

  lemma {:induction false} PopcAll(a: seq<bool>, n: nat)
    requires n <= |a|
    ensures (forall i :: 0 <= i < n ==> a[i]) ==> Popc(a, n) == n
    ensures (forall i :: 0 <= i < n ==> !a[i]) ==> Popc(a, n) == 0
  {
    if n > 0 {
      PopcAll(a, n - 1);
    }
  }

  /** Exactly one flag is set when the given one is and no other. */
  lemma PopcOne(a: seq<bool>, l: nat)
    requires l < |a| && a[l]
    ensures Popc(a, |a|) >= 1
    ensures Popc(a, |a|) == 1 <==> forall o :: 0 <= o < |a| && o != l ==> !a[o]
  {
    var one := seq(|a|, i => i == l);
    PopcImplies(one, a, |a|);
    PopcSingle(one, l, |a|);
    if exists o :: 0 <= o < |a| && o != l && a[o] {
    } else {
      PopcSame(one, a, |a|);
    }
  }

  lemma {:induction false} PopcSingle(one: seq<bool>, l: nat, n: nat)
    requires n <= |one| && l < |one| && forall i :: 0 <= i < |one| ==> one[i] == (i == l)
    ensures Popc(one, n) == if l < n then 1 else 0
  {
    if n > 0 {
      PopcSingle(one, l, n - 1);
    }
  }
}
