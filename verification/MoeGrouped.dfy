/** group_moe_softmax and the grouped moe_top_k of fused_moe_op.h: the experts
    come in k groups, each normalised so that its largest probability is 1, and k
    rounds of a global argmax are to pick one expert per group. */
module MoeGrouped {
  import opened Arith
  import opened Ballots
  import opened MoeTopK
  import opened RealSeqs

  function Times(x: real, f: real): real {
    x * f
  }

  function Reciprocal(z: real): real
    requires z != 0.0
  {
    1.0 / z
  }

  /** soft is the softmax of the group and maxOut the reciprocal of its maximum;
      out is soft scaled so that the maximum becomes 1. */
  ghost predicate Normalised(expOf: real -> real, input: seq<real>, soft: seq<real>, maxOut: real, out: seq<real>) {
    |input| == |soft| == |out| > 0 && maxOut > 0.0 && Times(Max(soft), maxOut) == 1.0 &&
    (forall i :: 0 <= i < |soft| ==> soft[i] > 0.0 && out[i] == Times(soft[i], maxOut)) &&
    IsSoftmax(Exps(expOf, input), soft)
  }

  /** All that the routing uses of exp: it is positive and strictly increasing. */
  ghost predicate Exponential(expOf: real -> real) {
    (forall x :: expOf(x) > 0.0) && forall x, y :: x < y ==> expOf(x) < expOf(y)
  }

  /** The exponentials of the group, shifted by its maximum. */
  ghost function Exps(expOf: real -> real, input: seq<real>): (exps: seq<real>)
    requires |input| > 0
    ensures |exps| == |input|
  {
    var floatMax := Max(input);
    seq(|input|, i requires 0 <= i < |input| => expOf(input[i] - floatMax))
  }

  ghost predicate IsSoftmax(exps: seq<real>, soft: seq<real>) {
    |soft| == |exps| && forall i :: 0 <= i < |soft| ==> Times(soft[i], Sum(exps, |exps|)) == exps[i]
  }

  /** The loop that adds up Z. */
  method SumUp(exps: seq<real>) returns (z: real)
    ensures z == Sum(exps, |exps|)
  {
    z := 0.0;
    for i := 0 to |exps|
      invariant z == Sum(exps, i)
    {
      z := z + exps[i];
    }
  }

  /** group_moe_softmax on one group; expOf stands for exp. */
  method GroupSoftmax(expOf: real -> real, input: seq<real>) returns (out: seq<real>, maxOut: real, soft: seq<real>)
    requires |input| > 0 && Exponential(expOf)
    ensures Normalised(expOf, input, soft, maxOut, out)
  {
    hide Times, Reciprocal, Exponential;
    var floatMax := Max(input);
    var exps := seq(|input|, i requires 0 <= i < |input| => expOf(input[i] - floatMax));
    ExpsPositive(expOf, input, floatMax);
    SumPositive(exps, |exps|);
    var z := SumUp(exps);
    var normalizingFactor := Reciprocal(z);
    var vals := seq(|exps|, i requires 0 <= i < |exps| => Times(exps[i], normalizingFactor));
    forall i | 0 <= i < |vals| ensures vals[i] > 0.0 && Times(vals[i], z) == exps[i] {
      Quotient(exps[i], z);
    }
    soft := vals;
    var top := Max(vals);
    maxOut := Reciprocal(top);
    Quotient(1.0, top);
    out := seq(|vals|, i requires 0 <= i < |vals| => Times(vals[i], maxOut));
  }

  lemma Quotient(x: real, z: real)
    requires x > 0.0 && z > 0.0
    ensures Times(x, Reciprocal(z)) > 0.0 && Times(Times(x, Reciprocal(z)), z) == x
    ensures Reciprocal(z) > 0.0 && Times(z, Reciprocal(z)) == 1.0
  {}

  /** The probabilities of a group add up to 1, and are to each other as the exponentials of
      their logits, taken below the largest one. */
  lemma SoftmaxShares(expOf: real -> real, input: seq<real>, soft: seq<real>, maxOut: real, out: seq<real>,
                      i: nat, j: nat, m: real)
    requires Normalised(expOf, input, soft, maxOut, out) && Exponential(expOf) && i < |input| && j < |input|
    requires m in input && forall x :: x in input ==> x <= m
    ensures Sum(soft, |soft|) == 1.0
    ensures soft[i] / soft[j] == expOf(input[i] - m) / expOf(input[j] - m)
  {
    hide Exponential, Times, Sum, Max, Exps;
    var exps := Exps(expOf, input);
    ExpsPositive(expOf, input, m);
    SumPositive(exps, |exps|);
    var z := Sum(exps, |exps|);
    SumTimes(soft, exps, z, |soft|);
    OneShare(Sum(soft, |soft|), z);
    SameRatio(soft[i], soft[j], exps[i], exps[j], z);
  }

  lemma ExpsPositive(expOf: real -> real, input: seq<real>, m: real)
    requires Exponential(expOf) && m in input && forall x :: x in input ==> x <= m
    ensures forall i :: 0 <= i < |input| ==> Exps(expOf, input)[i] == expOf(input[i] - m) > 0.0
  {
    assert m == Max(input);
  }

  lemma {:induction false} SumTimes(soft: seq<real>, exps: seq<real>, z: real, n: nat)
    requires n <= |soft| == |exps| && forall i :: 0 <= i < |soft| ==> Times(soft[i], z) == exps[i]
    ensures Times(Sum(soft, n), z) == Sum(exps, n)
  {
    if n > 0 {
      SumTimes(soft, exps, z, n - 1);
      assert (Sum(soft, n - 1) + soft[n - 1]) * z == Sum(soft, n - 1) * z + soft[n - 1] * z;
    }
  }

  lemma OneShare(x: real, z: real)
    requires z > 0.0 && Times(x, z) == z
    ensures x == 1.0
  {
    assert (x - 1.0) * z == 0.0;
  }

  lemma SameRatio(x: real, y: real, a: real, b: real, z: real)
    requires x > 0.0 && y > 0.0 && a > 0.0 && b > 0.0 && z > 0.0 && Times(x, z) == a && Times(y, z) == b
    ensures x / y == a / b
  {
    var q := x / y;
    assert q * y == x;
    assert q * b == (q * y) * z == a;
  }

  /** A normalised group reaches 1 exactly at its maxima and nowhere exceeds it,
      and dividing by maxOut gives the softmax probability back. */
  lemma MaximaAreOne(expOf: real -> real, input: seq<real>, soft: seq<real>, maxOut: real, out: seq<real>, i: nat)
    requires Normalised(expOf, input, soft, maxOut, out) && i < |out|
    ensures 0.0 < out[i] <= 1.0 && (out[i] == 1.0 <==> soft[i] == Max(soft))
    ensures Times(out[i], Reciprocal(maxOut)) == soft[i]
  {
    hide Times, Reciprocal, IsSoftmax, Exps;
    ScaledToOne(soft[i], Max(soft), maxOut);
  }

  /** The ones of a normalised group are exactly its largest logits. */
  lemma OnesAreLargest(expOf: real -> real, input: seq<real>, soft: seq<real>, maxOut: real, out: seq<real>, i: nat)
    requires Normalised(expOf, input, soft, maxOut, out) && Exponential(expOf) && i < |out|
    ensures out[i] == 1.0 <==> input[i] == Max(input)
  {
    hide Times, Reciprocal, Max, Sum;
    MaximaAreOne(expOf, input, soft, maxOut, out, i);
    var exps := Exps(expOf, input);
    SumPositive(exps, |exps|);
    var z := Sum(exps, |exps|);
    var top :| 0 <= top < |input| && input[top] == Max(input);
    forall j | 0 <= j < |soft| ensures soft[j] <= soft[top] && (soft[j] == soft[top] <==> input[j] == Max(input)) {
      SameOrder(soft[j], soft[top], z);
    }
    assert soft[top] == Max(soft);
  }

  lemma SameOrder(x: real, y: real, z: real)
    requires z > 0.0
    ensures x < y <==> Times(x, z) < Times(y, z)
    ensures x == y <==> Times(x, z) == Times(y, z)
  {
    if x < y {
      assert (y - x) * z > 0.0;
    } else if y < x {
      assert (x - y) * z > 0.0;
    }
  }

  lemma ScaledToOne(x: real, m: real, f: real)
    requires 0.0 < x <= m && f > 0.0 && Times(m, f) == 1.0
    ensures 0.0 < Times(x, f) <= 1.0 && (Times(x, f) == 1.0 <==> x == m)
    ensures Times(Times(x, f), Reciprocal(f)) == x
  {
    assert (m - x) * f >= 0.0;
    if x < m {
      assert (m - x) * f > 0.0;
    }
  }

  // ---------- one row of k groups ----------

  /** v is the row the rounds look at: k groups of g experts, no value above 1 and
      a 1 in every group. */
  ghost predicate Row(v: seq<real>, k: nat, g: nat) {
    |v| == k * g && g > 0 && (forall e :: 0 <= e < |v| ==> 0.0 < v[e] <= 1.0) &&
    forall i :: 0 <= i < k ==> HasOne(v, g, i)
  }

  ghost predicate InGroup(e: int, g: nat, i: int) {
    i * g <= e < i * g + g
  }

  ghost predicate One(v: seq<real>, g: nat, i: int, e: int) {
    0 <= e < |v| && InGroup(e, g, i) && v[e] == 1.0
  }

  ghost predicate HasOne(v: seq<real>, g: nat, i: int) {
    exists e :: One(v, g, i, e)
  }

  /** The maximum of the group is reached once. */
  ghost predicate UniqueOne(v: seq<real>, g: nat, i: int) {
    forall a, b :: One(v, g, i, a) && One(v, g, i, b) ==> a == b
  }

  ghost function Ones(v: seq<real>): (mask: seq<bool>)
    ensures |mask| == |v|
  {
    seq(|v|, e requires 0 <= e < |v| => v[e] == 1.0)
  }

  /** Among values of at most 1, a 1 is beaten only by earlier ones. */
  lemma RankOfOne(v: seq<real>, e: nat)
    requires e < |v| && v[e] == 1.0 && forall f :: 0 <= f < |v| ==> v[f] <= 1.0
    ensures Rank(v, e) == Popc(Ones(v), e)
  {
    FlagsBelow(Beaters(v, e), Ones(v), e, |v|);
  }

  lemma {:induction false} FlagsBelow(mask: seq<bool>, ones: seq<bool>, e: nat, n: nat)
    requires e <= n <= |mask| == |ones|
    requires forall f :: 0 <= f < |mask| ==> mask[f] == (ones[f] && f < e)
    ensures Popc(mask, n) == Popc(ones, e)
    decreases n
  {
    if n > e {
      FlagsBelow(mask, ones, e, n - 1);
    } else {
      PopcSame(mask, ones, e);
    }
  }

  /** chosen[i] lies in group i, for every round. */
  ghost predicate OnePerGroup(v: seq<real>, g: nat, chosen: seq<int>) {
    forall i :: 0 <= i < |chosen| ==> One(v, g, i, chosen[i])
  }

  /** If the earlier groups have one maximum each, i ones precede group i. */
  lemma {:induction false} OnesBeforeGroup(v: seq<real>, k: nat, g: nat, i: nat)
    requires Row(v, k, g) && i <= k && forall j :: 0 <= j < i ==> UniqueOne(v, g, j)
    ensures 0 <= i * g <= |v| && Popc(Ones(v), i * g) == i
  {
    MulLe(i, k, g);
    if i > 0 {
      OnesBeforeGroup(v, k, g, i - 1);
      assert i * g == (i - 1) * g + g;
      var e := SingleOne(v, k, g, i - 1, (i - 1) * g);
      OneFlag(Ones(v), (i - 1) * g, e, i * g);
    }
  }

  lemma SingleOne(v: seq<real>, k: nat, g: nat, i: nat, off: nat) returns (e: nat)
    requires Row(v, k, g) && i < k && UniqueOne(v, g, i) && off == i * g && off + g <= |v|
    ensures off <= e < off + g && forall f :: off <= f < off + g ==> Ones(v)[f] == (f == e)
  {
    assert HasOne(v, g, i);
    e :| One(v, g, i, e);
    forall f | off <= f < off + g ensures Ones(v)[f] == (f == e) {
      if v[f] == 1.0 {
        assert One(v, g, i, f);
      }
    }
  }

  /** A stretch with a single flag adds one. */
  lemma {:induction false} OneFlag(ones: seq<bool>, from: nat, e: nat, upto: nat)
    requires from <= upto <= |ones| && from <= e && ones[from..upto] != []
    requires forall f :: from <= f < upto ==> ones[f] == (f == e)
    ensures Popc(ones, upto) == Popc(ones, from) + (if e < upto then 1 else 0)
    decreases upto
  {
    if upto > from + 1 {
      OneFlag(ones, from, e, upto - 1);
    }
  }

  lemma {:induction false} NoFlags(ones: seq<bool>, from: nat, upto: nat)
    requires from <= upto <= |ones| && forall f :: from <= f < upto ==> !ones[f]
    ensures Popc(ones, upto) == Popc(ones, from)
  {
    if upto > from {
      NoFlags(ones, from, upto - 1);
    }
  }

  /** The first maximum of a group. */
  lemma {:induction false} FirstOne(v: seq<real>, g: nat, i: nat, e: nat) returns (first: nat)
    requires One(v, g, i, e)
    ensures One(v, g, i, first) && first <= e && forall f :: i * g <= f < first ==> v[f] != 1.0
    decreases e
  {
    if exists f: nat :: f < e && One(v, g, i, f) {
      var f: nat :| f < e && One(v, g, i, f);
      first := FirstOne(v, g, i, f);
    } else {
      first := e;
      forall f | i * g <= f < first ensures v[f] != 1.0 {
        if v[f] == 1.0 {
          assert One(v, g, i, f);
        }
      }
    }
  }

  /** Unique maxima give one expert per group, in group order. */
  lemma UniqueGivesOnePerGroup(v: seq<real>, k: nat, g: nat, chosen: seq<int>)
    requires Row(v, k, g) && |chosen| == k && InOrder(v, chosen)
    requires forall i :: 0 <= i < k - 1 ==> UniqueOne(v, g, i)
    ensures OnePerGroup(v, g, chosen)
  {
    forall i | 0 <= i < k ensures One(v, g, i, chosen[i]) {
      OnesBeforeGroup(v, k, g, i);
      assert HasOne(v, g, i);
      var e :| One(v, g, i, e);
      assert i * g >= 0;
      var first := FirstOne(v, g, i, e);
      RankOfOne(v, first);
      NoFlags(Ones(v), i * g, first);
      assert HasRank(v, chosen[i], i);
      if chosen[i] != first {
        RanksDiffer(v, chosen[i], first);
        assert false;
      }
    }
  }

  /** And only they do: a tie in any group but the last breaks it. */
  lemma OnePerGroupNeedsUnique(v: seq<real>, k: nat, g: nat, chosen: seq<int>, i: nat, a: int, b: int)
    requires Row(v, k, g) && |chosen| == k && InOrder(v, chosen) && OnePerGroup(v, g, chosen)
    requires i + 1 < k && One(v, g, i, a) && One(v, g, i, b)
    ensures a == b
  {
    OnlyChosen(v, k, g, chosen, i, a);
    OnlyChosen(v, k, g, chosen, i, b);
  }

  /** A 1 of an earlier group precedes one of a later group. */
  lemma GroupsApart(v: seq<real>, g: nat, i: nat, j: nat, a: int, b: int)
    requires i < j && One(v, g, i, a) && One(v, g, j, b)
    ensures a < b && Beats(v, a, b)
  {
    MulLe(i + 1, j, g);
  }

  lemma OnlyChosen(v: seq<real>, k: nat, g: nat, chosen: seq<int>, i: nat, d: int)
    requires Row(v, k, g) && |chosen| == k && InOrder(v, chosen) && OnePerGroup(v, g, chosen)
    requires i + 1 < k && One(v, g, i, d)
    ensures d == chosen[i]
  {
    hide Row, Rank, Beats;
    assert One(v, g, i + 1, chosen[i + 1]) && HasRank(v, chosen[i + 1], i + 1);
    GroupsApart(v, g, i, i + 1, d, chosen[i + 1]);
    RanksDiffer(v, d, chosen[i + 1]);
    var r := Rank(v, d);
    assert HasRank(v, chosen[r], r) && One(v, g, r, chosen[r]);
    if chosen[r] != d {
      RanksDiffer(v, chosen[r], d);
    }
    if r < i {
      GroupsApart(v, g, r, i, d, d);
    }
  }

  /** Grouped routing picks each group's first maximum, in group order, exactly
      when every group but the last reaches its maximum once. */
  lemma OnePerGroupExactly(v: seq<real>, k: nat, g: nat, chosen: seq<int>)
    requires Row(v, k, g) && |chosen| == k && InOrder(v, chosen)
    ensures OnePerGroup(v, g, chosen) <==> forall i :: 0 <= i < k - 1 ==> UniqueOne(v, g, i)
  {
    if OnePerGroup(v, g, chosen) {
      forall i, a, b | 0 <= i < k - 1 && One(v, g, i, a) && One(v, g, i, b) ensures a == b {
        OnePerGroupNeedsUnique(v, k, g, chosen, i, a, b);
      }
    } else if forall i :: 0 <= i < k - 1 ==> UniqueOne(v, g, i) {
      UniqueGivesOnePerGroup(v, k, g, chosen);
    }
  }

  // ---------- routing one row ----------

  /** Group i of the row has been normalised. */
  ghost predicate GroupPlaced(expOf: real -> real, input: seq<real>, soft: seq<real>, v: seq<real>, maxOut: real,
                              g: nat, i: nat) {
    var off := i * g;
    off + g <= |input| && off + g <= |soft| && off + g <= |v| &&
    Normalised(expOf, input[off..off + g], soft[off..off + g], maxOut, v[off..off + g])
  }

  /** Expert e has the largest logit of group i. */
  ghost predicate IsLargest(input: seq<real>, g: nat, i: int, e: int) {
    0 <= i * g && i * g + g <= |input| && InGroup(e, g, i) && input[e] == Max(input[i * g..i * g + g])
  }

  ghost predicate UniqueLargest(input: seq<real>, g: nat, i: int) {
    forall a, b :: IsLargest(input, g, i, a) && IsLargest(input, g, i, b) ==> a == b
  }

  /** chosen[i] has the largest logit of group i, for every round. */
  ghost predicate LargestPerGroup(input: seq<real>, g: nat, chosen: seq<int>) {
    forall i :: 0 <= i < |chosen| ==> IsLargest(input, g, i, chosen[i])
  }

  lemma PlacedOnes(expOf: real -> real, input: seq<real>, soft: seq<real>, v: seq<real>, maxOut: real, g: nat,
                   i: nat, e: int)
    requires g > 0 && Exponential(expOf) && GroupPlaced(expOf, input, soft, v, maxOut, g, i)
    ensures One(v, g, i, e) <==> IsLargest(input, g, i, e)
  {
    hide Normalised, Exponential;
    var off := i * g;
    if InGroup(e, g, i) {
      var group := v[off..off + g];
      assert |group| == g && group[e - off] == v[e] && input[off..off + g][e - off] == input[e];
      OnesAreLargest(expOf, input[off..off + g], soft[off..off + g], maxOut, group, e - off);
    }
  }

  /** The conditions on the normalised row are conditions on the logits. */
  lemma RowConditions(expOf: real -> real, input: seq<real>, soft: seq<real>, v: seq<real>, maxProb: seq<real>, k: nat,
                      g: nat, chosen: seq<int>)
    requires g > 0 && Exponential(expOf) && |maxProb| == |chosen| == k
    requires forall i :: 0 <= i < k ==> GroupPlaced(expOf, input, soft, v, maxProb[i], g, i)
    ensures OnePerGroup(v, g, chosen) <==> LargestPerGroup(input, g, chosen)
    ensures forall i :: 0 <= i < k ==> (UniqueOne(v, g, i) <==> UniqueLargest(input, g, i))
  {
    hide GroupPlaced, Exponential, One, IsLargest;
    forall i, e | 0 <= i < k ensures One(v, g, i, e) <==> IsLargest(input, g, i, e) {
      PlacedOnes(expOf, input, soft, v, maxProb[i], g, i, e);
    }
  }

  lemma GroupStaysPlaced(expOf: real -> real, input: seq<real>, soft: seq<real>, v: seq<real>, maxOut: real, g: nat,
                         i: nat, moreSoft: seq<real>, more: seq<real>)
    requires GroupPlaced(expOf, input, soft, v, maxOut, g, i)
    ensures GroupPlaced(expOf, input, soft + moreSoft, v + more, maxOut, g, i)
  {
    hide Normalised;
    var off := i * g;
    assert (soft + moreSoft)[off..off + g] == soft[off..off + g];
    assert (v + more)[off..off + g] == v[off..off + g];
  }

  lemma GroupIsPlaced(expOf: real -> real, input: seq<real>, soft: seq<real>, v: seq<real>, maxOut: real, g: nat,
                      i: nat, moreSoft: seq<real>, more: seq<real>)
    requires |soft| == |v| == i * g && i * g + g <= |input| && g == |more| == |moreSoft|
    requires Normalised(expOf, input[i * g..i * g + g], moreSoft, maxOut, more)
    ensures GroupPlaced(expOf, input, soft + moreSoft, v + more, maxOut, g, i)
  {
    hide Normalised;
    var off := i * g;
    assert (soft + moreSoft)[off..off + g] == moreSoft;
    assert (v + more)[off..off + g] == more;
  }

  /** The cells of a normalised group. */
  lemma CellsOf(expOf: real -> real, input: seq<real>, soft: seq<real>, maxOut: real, group: seq<real>)
    returns (top: nat)
    requires Normalised(expOf, input, soft, maxOut, group)
    ensures maxOut > 0.0 && |soft| == |group|
    ensures forall j :: 0 <= j < |group| ==> 0.0 < group[j] <= 1.0 && Times(group[j], Reciprocal(maxOut)) == soft[j]
    ensures top < |group| && group[top] == 1.0
  {
    hide Times, Reciprocal, IsSoftmax, Exps;
    forall j | 0 <= j < |group| ensures 0.0 < group[j] <= 1.0 && Times(group[j], Reciprocal(maxOut)) == soft[j] {
      MaximaAreOne(expOf, input, soft, maxOut, group, j);
    }
    top :| top < |soft| && soft[top] == Max(soft);
    MaximaAreOne(expOf, input, soft, maxOut, group, top);
  }

  /** What one placed group says about its cells of the row. */
  lemma PlacedCells(expOf: real -> real, input: seq<real>, soft: seq<real>, v: seq<real>, maxOut: real, g: nat, i: nat)
    requires g > 0 && GroupPlaced(expOf, input, soft, v, maxOut, g, i)
    ensures maxOut > 0.0
    ensures forall e :: InGroup(e, g, i) ==>
      e < |v| && e < |soft| && 0.0 < v[e] <= 1.0 && Times(v[e], Reciprocal(maxOut)) == soft[e]
    ensures HasOne(v, g, i)
  {
    hide Times, Reciprocal, Normalised;
    var off := i * g;
    var group, sg := v[off..off + g], soft[off..off + g];
    var top := CellsOf(expOf, input[off..off + g], sg, maxOut, group);
    forall e | InGroup(e, g, i)
      ensures e < |v| && e < |soft| && 0.0 < v[e] <= 1.0 && Times(v[e], Reciprocal(maxOut)) == soft[e]
    {
      assert group[e - off] == v[e] && sg[e - off] == soft[e];
    }
    assert group[top] == v[off + top];
    assert One(v, g, i, off + top);
  }

  lemma {:induction false} GroupOf(e: nat, k: nat, g: nat) returns (i: nat)
    requires e < k * g
    ensures i < k && InGroup(e, g, i)
  {
    RowInside(k - 1, k, g);
    if e >= (k - 1) * g {
      i := k - 1;
    } else {
      i := GroupOf(e, k - 1, g);
    }
  }

  lemma RowIsDone(expOf: real -> real, input: seq<real>, soft: seq<real>, v: seq<real>, maxProb: seq<real>, k: nat,
                  g: nat)
    requires |v| == k * g && g > 0 && |maxProb| == k
    requires forall i :: 0 <= i < k ==> GroupPlaced(expOf, input, soft, v, maxProb[i], g, i)
    ensures Row(v, k, g)
  {
    hide GroupPlaced, Times, Reciprocal;
    forall e | 0 <= e < |v| ensures 0.0 < v[e] <= 1.0 {
      var i := GroupOf(e, k, g);
      PlacedCells(expOf, input, soft, v, maxProb[i], g, i);
    }
    forall i | 0 <= i < k ensures HasOne(v, g, i) {
      PlacedCells(expOf, input, soft, v, maxProb[i], g, i);
    }
  }

  /** The loop over the groups of a row. */
  method NormaliseRow(expOf: real -> real, input: seq<real>, k: nat, g: nat)
    returns (v: seq<real>, maxProb: seq<real>, soft: seq<real>)
    requires |input| == k * g && g > 0 && Exponential(expOf)
    ensures Row(v, k, g) && |soft| == |v| && |maxProb| == k
    ensures forall i :: 0 <= i < k ==> GroupPlaced(expOf, input, soft, v, maxProb[i], g, i)
  {
    hide Normalised, Row, GroupPlaced;
    v, maxProb, soft := [], [], [];
    for i := 0 to k
      invariant |v| == |soft| == i * g && |maxProb| == i
      invariant forall j :: 0 <= j < i ==> GroupPlaced(expOf, input, soft, v, maxProb[j], g, j)
    {
      RowInside(i, k, g);
      assert (i + 1) * g == i * g + g;
      var out, maxOut, s := GroupSoftmax(expOf, input[i * g..i * g + g]);
      SameLengths(expOf, input[i * g..i * g + g], s, maxOut, out);
      forall j | 0 <= j < i ensures GroupPlaced(expOf, input, soft + s, v + out, maxProb[j], g, j) {
        GroupStaysPlaced(expOf, input, soft, v, maxProb[j], g, j, s, out);
      }
      GroupIsPlaced(expOf, input, soft, v, maxOut, g, i, s, out);
      v, maxProb, soft := v + out, maxProb + [maxOut], soft + s;
    }
    RowIsDone(expOf, input, soft, v, maxProb, k, g);
  }

  lemma SameLengths(expOf: real -> real, input: seq<real>, soft: seq<real>, maxOut: real, out: seq<real>)
    requires Normalised(expOf, input, soft, maxOut, out)
    ensures |input| == |soft| == |out|
  {}

  /** A row of k groups has room for k choices and clears the floor. */
  lemma RowClears(v: seq<real>, k: nat, g: nat)
    requires Row(v, k, g)
    ensures forall i :: 0 <= i < k ==> Clears(v, i)
  {
    MulLe(1, g, k);
    ProbabilitiesClear(v, k);
  }

  /** Grouped routing of one row: normalise its groups, run the k rounds, and divide the
      winner of round i by the factor stored for group i.  Round i takes the expert with
      the largest logit of group i, and gives it its own softmax probability, if and only
      if every group but the last has a single largest logit. */
  method RouteRow(expOf: real -> real, input: seq<real>, k: nat, g: nat, tpb: nat, tree: Tree)
    returns (indices: seq<int>, output: seq<real>, v: seq<real>, soft: seq<real>, maxProb: seq<real>)
    requires |input| == k * g && g > 0 && Exponential(expOf)
    requires tpb > 0 && Within(tree, tpb) && forall t :: 0 <= t < tpb ==> Reaches(tree, t)
    ensures Row(v, k, g) && |soft| == |v| && |indices| == |output| == |maxProb| == k && InOrder(v, indices)
    ensures forall i :: 0 <= i < k ==> GroupPlaced(expOf, input, soft, v, maxProb[i], g, i)
    ensures LargestPerGroup(input, g, indices) <==> forall i :: 0 <= i < k - 1 ==> UniqueLargest(input, g, i)
    ensures LargestPerGroup(input, g, indices) ==>
      forall i :: 0 <= i < k ==> 0 <= indices[i] < |soft| && output[i] == soft[indices[i]]
  {
    hide Row, InOrder, OnePerGroup, Times, Reciprocal, GroupPlaced, UniqueOne, Within, Reaches, Exponential;
    hide LargestPerGroup, UniqueLargest;
    v, maxProb, soft := NormaliseRow(expOf, input, k, g);
    var won;
    indices, won := SelectRow(v, k, tpb, tree);
    RowClears(v, k, g);
    OnePerGroupExactly(v, k, g, indices);
    RowConditions(expOf, input, soft, v, maxProb, k, g, indices);
    output := [];
    for i := 0 to k
      invariant |output| == i
      invariant OnePerGroup(v, g, indices) ==>
        forall j :: 0 <= j < i ==> 0 <= indices[j] < |soft| && output[j] == soft[indices[j]]
    {
      PlacedCells(expOf, input, soft, v, maxProb[i], g, i);
      if OnePerGroup(v, g, indices) {
        WinnerInGroup(v, k, g, indices, i);
      }
      output := output + [Times(won[i], Reciprocal(maxProb[i]))];
    }
  }

  /** Two groups of two equal logits each: both rounds go to the first group. */
  lemma TiedRowFails(expOf: real -> real, x: real, y: real, v: seq<real>, soft: seq<real>, maxProb: seq<real>,
                     chosen: seq<int>)
    requires Exponential(expOf) && Row(v, 2, 2) && |maxProb| == |chosen| == 2 && InOrder(v, chosen)
    requires forall i :: 0 <= i < 2 ==> GroupPlaced(expOf, [x, x, y, y], soft, v, maxProb[i], 2, i)
    ensures chosen == [0, 1] && !LargestPerGroup([x, x, y, y], 2, chosen)
  {
    hide Exponential, GroupPlaced;
    var input := [x, x, y, y];
    assert input[0..2] == [x, x] && input[2..4] == [y, y];
    forall e: nat | e < 4 ensures v[e] == 1.0 {
      var i := e / 2;
      PlacedOnes(expOf, input, soft, v, maxProb[i], 2, i, e);
    }
    forall e: nat | e < 2 ensures chosen[e] == e {
      RankOfOne(v, e);
      assert HasRank(v, chosen[e], e);
      if chosen[e] != e {
        RanksDiffer(v, chosen[e], e);
      }
    }
    assert !IsLargest(input, 2, 1, chosen[1]);
  }

  lemma WinnerInGroup(v: seq<real>, k: nat, g: nat, chosen: seq<int>, i: nat)
    requires Row(v, k, g) && OnePerGroup(v, g, chosen) && i < |chosen|
    ensures 0 <= chosen[i] < |v| && InGroup(chosen[i], g, i) && v[0] > 0.0
  {
    assert One(v, g, i, chosen[i]);
  }
}
