/** moe_top_k of fused_moe_op.h: k rounds of a block-wide argmax, each excluding
    the experts chosen before, against the order "value down, index up". */
module MoeTopK {
  import opened Arith
  import opened Ballots
  import opened Options

  /** cub::KeyValuePair<int, T>. */
  datatype Pair = Pair(key: int, value: real)

  predicate Better(a: Pair, b: Pair) {
    a.value > b.value || (a.value == b.value && a.key < b.key)
  }

  /** cub::ArgMax: the larger value, the smaller key among equals. */
  function ArgMax(a: Pair, b: Pair): (r: Pair)
    ensures (r == a || r == b) && !Better(a, r) && !Better(b, r)
  {
    if Better(b, a) then b else a
  }

  /** T(-1.f), what every thread starts a round with. */
  const FLOOR: Pair := Pair(0, -1.0)

  // ---------- the order of the experts ----------

  /** Expert a comes before expert b. */
  ghost predicate Beats(v: seq<real>, a: int, b: int)
    requires 0 <= a < |v| && 0 <= b < |v|
  {
    v[a] > v[b] || (v[a] == v[b] && a < b)
  }

  ghost function Beaters(v: seq<real>, e: int): (mask: seq<bool>)
    requires 0 <= e < |v|
    ensures |mask| == |v|
  {
    seq(|v|, f requires 0 <= f < |v| => Beats(v, f, e))
  }

  /** How many experts come before e: its place in the sorted list. */
  ghost function Rank(v: seq<real>, e: int): nat
    requires 0 <= e < |v|
  {
    Popc(Beaters(v, e), |v|)
  }

  ghost predicate HasRank(v: seq<real>, e: int, i: int) {
    0 <= e < |v| && Rank(v, e) == i
  }

  lemma BeatsRanks(v: seq<real>, a: int, b: int)
    requires 0 <= a < |v| && 0 <= b < |v| && Beats(v, a, b)
    ensures Rank(v, a) < Rank(v, b)
  {
    PopcImplies(Beaters(v, a), Beaters(v, b), |v|);
    assert Beaters(v, b)[a] && !Beaters(v, a)[a];
  }

  lemma RanksDiffer(v: seq<real>, a: int, b: int)
    requires 0 <= a < |v| && 0 <= b < |v| && a != b
    ensures Rank(v, a) != Rank(v, b)
    ensures Beats(v, a, b) <==> Rank(v, a) < Rank(v, b)
  {
    if Beats(v, a, b) {
      BeatsRanks(v, a, b);
    } else {
      BeatsRanks(v, b, a);
    }
  }

  // ---------- one round ----------

  /** BlockReduce may combine the threads along any tree. */
  datatype Tree = Leaf(thread: nat) | Node(left: Tree, right: Tree)

  predicate Reaches(tree: Tree, t: nat) {
    match tree
    case Leaf(u) => t == u
    case Node(l, r) => Reaches(l, t) || Reaches(r, t)
  }

  predicate Within(tree: Tree, n: nat) {
    match tree
    case Leaf(u) => u < n
    case Node(l, r) => Within(l, n) && Within(r, n)
  }

  function Reduce(tree: Tree, held: seq<Pair>): (r: Pair)
    requires Within(tree, |held|)
    ensures exists t :: 0 <= t < |held| && Reaches(tree, t) && held[t] == r
    ensures forall t :: 0 <= t < |held| && Reaches(tree, t) ==> !Better(held[t], r)
  {
    match tree
    case Leaf(u) => held[u]
    case Node(l, r) => ArgMax(Reduce(l, held), Reduce(r, held))
  }

  /** r is the floor or a remaining expert, and neither the floor nor any of the
      given remaining experts is better. */
  ghost predicate Winner(v: seq<real>, chosen: seq<int>, among: seq<bool>, r: Pair)
    requires |among| == |v|
  {
    (r == FLOOR || (0 <= r.key < |v| && r.key !in chosen && r.value == v[r.key])) && !Better(FLOOR, r) &&
    forall e :: 0 <= e < |v| && among[e] && e !in chosen ==> !Better(Pair(e, v[e]), r)
  }

  ghost function Everyone(n: nat): (mask: seq<bool>)
    ensures |mask| == n
  {
    seq(n, e => true)
  }

  /** The experts below bound that a thread looks at. */
  ghost function OfThread(tid: nat, tpb: nat, bound: nat, n: nat): (mask: seq<bool>)
    requires tpb > 0
    ensures |mask| == n
  {
    seq(n, e requires 0 <= e < n => e < bound && e % tpb == tid)
  }

  /** The loop of one thread over its experts; a prior winner offers what the
      thread already holds. */
  method ThreadRound(v: seq<real>, chosen: seq<int>, tid: nat, tpb: nat) returns (held: Pair)
    requires tid < tpb
    ensures Winner(v, chosen, OfThread(tid, tpb, |v|, |v|), held)
  {
    held := FLOOR;
    var expert := tid;
    ghost var n := 0;  // experts below n have been considered
    BeforeThread(tid, tpb);
    while expert < |v|
      invariant n <= expert && expert % tpb == tid
      invariant forall e :: n <= e < expert ==> e % tpb != tid
      invariant Winner(v, chosen, OfThread(tid, tpb, n, |v|), held)
    {
      var inp := Pair(expert, v[expert]);
      for priorK := 0 to |chosen|
        invariant inp == if expert in chosen[..priorK] then held else Pair(expert, v[expert])
      {
        if chosen[priorK] == expert {
          inp := held;
        }
      }
      assert chosen[..|chosen|] == chosen;
      held := ArgMax(inp, held);
      NextOfThread(expert, tpb);
      n := expert + 1;
      expert := expert + tpb;
    }
  }

  lemma BeforeThread(t: nat, tpb: nat)
    requires t < tpb
    ensures t % tpb == t && forall e :: 0 <= e < t ==> e % tpb != t
  {
    SmallMod(t, tpb);
    forall e | 0 <= e < t ensures e % tpb != t {
      SmallMod(e, tpb);
    }
  }

  lemma NextOfThread(i: nat, tpb: nat)
    requires tpb > 0
    ensures (i + tpb) % tpb == i % tpb
    ensures forall e :: i < e < i + tpb ==> e % tpb != i % tpb
  {
    ModPlus(i, tpb);
    forall e | i < e < i + tpb ensures e % tpb != i % tpb {
      ModWindow(i, e, tpb);
    }
  }

  /** Every thread's round, then the block-wide reduction. */
  method BlockRound(v: seq<real>, chosen: seq<int>, tpb: nat, tree: Tree) returns (r: Pair)
    requires tpb > 0 && Within(tree, tpb) && forall t :: 0 <= t < tpb ==> Reaches(tree, t)
    ensures Winner(v, chosen, Everyone(|v|), r)
  {
    var held := [];
    for tid := 0 to tpb
      invariant |held| == tid
      invariant forall t :: 0 <= t < tid ==> Winner(v, chosen, OfThread(t, tpb, |v|, |v|), held[t])
    {
      var h := ThreadRound(v, chosen, tid, tpb);
      held := held + [h];
    }
    r := Reduce(tree, held);
    forall e | 0 <= e < |v| && e !in chosen ensures !Better(Pair(e, v[e]), r) {
      var t := e % tpb;
      assert Winner(v, chosen, OfThread(t, tpb, |v|, |v|), held[t]);
      assert !Better(held[t], r);
    }
  }

  // ---------- k rounds ----------

  /** The expert in place i beats the floor, or is expert 0, which is what the
      floor itself names. */
  ghost predicate Clears(v: seq<real>, i: int) {
    exists e :: HasRank(v, e, i) && (v[e] > FLOOR.value || e == 0)
  }

  /** chosen lists the experts of rank 0, 1, 2, ... */
  ghost predicate InOrder(v: seq<real>, chosen: seq<int>) {
    forall i :: 0 <= i < |chosen| ==> HasRank(v, chosen[i], i)
  }

  /** When the earlier rounds were right, a round is right exactly if the expert
      it should find clears the floor. */
  lemma RoundIsRight(v: seq<real>, chosen: seq<int>, r: Pair)
    requires InOrder(v, chosen) && Winner(v, chosen, Everyone(|v|), r)
    ensures HasRank(v, r.key, |chosen|) <==> Clears(v, |chosen|)
  {
    if Clears(v, |chosen|) {
      var e :| HasRank(v, e, |chosen|) && (v[e] > FLOOR.value || e == 0);
      RemainingIsLater(v, chosen, e);
      assert !Better(Pair(e, v[e]), r);
      if r != FLOOR && r.key != e {
        RemainingIsLater(v, chosen, r.key);
        RanksDiffer(v, e, r.key);
        assert false;
      }
    }
  }

  /** An expert not among the first ones has a later place than all of them. */
  lemma RemainingIsLater(v: seq<real>, chosen: seq<int>, e: int)
    requires InOrder(v, chosen) && 0 <= e < |v|
    ensures e !in chosen <==> Rank(v, e) >= |chosen|
  {
    if e in chosen {
      var i :| 0 <= i < |chosen| && chosen[i] == e;
      assert HasRank(v, chosen[i], i);
    } else if Rank(v, e) < |chosen| {
      var i := Rank(v, e);
      assert HasRank(v, chosen[i], i);
      RanksDiffer(v, e, chosen[i]);
    }
  }

  /** The k rounds for one row.  The result is the first k experts of the sorted
      list exactly when each of these clears the floor of -1; the stride tpb and
      the reduction tree do not matter. */
  method SelectRow(v: seq<real>, k: nat, tpb: nat, tree: Tree) returns (indices: seq<int>, values: seq<real>)
    requires tpb > 0 && Within(tree, tpb) && forall t :: 0 <= t < tpb ==> Reaches(tree, t)
    ensures |indices| == |values| == k
    ensures |v| > 0 ==> forall i :: 0 <= i < k ==> 0 <= indices[i] < |v|
    ensures InOrder(v, indices) <==> forall i :: 0 <= i < k ==> Clears(v, i)
    ensures InOrder(v, indices) ==> forall i :: 0 <= i < k ==>
      values[i] == v[indices[i]] || (indices[i] == 0 && v[0] <= FLOOR.value)
  {
    hide Winner, HasRank, Clears;
    indices, values := [], [];
    for kIdx := 0 to k
      invariant |indices| == |values| == kIdx
      invariant |v| > 0 ==> forall i :: 0 <= i < kIdx ==> 0 <= indices[i] < |v|
      invariant InOrder(v, indices) <==> forall i :: 0 <= i < kIdx ==> Clears(v, i)
      invariant InOrder(v, indices) ==> forall i :: 0 <= i < kIdx ==>
        0 <= indices[i] < |v| && (values[i] == v[indices[i]] || (indices[i] == 0 && v[0] <= FLOOR.value))
    {
      var r := BlockRound(v, indices, tpb, tree);
      WinnerInRange(v, indices, r);
      if InOrder(v, indices) {
        RoundIsRight(v, indices, r);
        if Clears(v, kIdx) {
          WinnerValue(v, indices, r);
        }
      } else {
        var i :| 0 <= i < kIdx && !HasRank(v, indices[i], i);
        assert (indices + [r.key])[i] == indices[i];
      }
      if InOrder(v, indices + [r.key]) {
        PrefixInOrder(v, indices, r.key);
      }
      indices := indices + [r.key];
      values := values + [r.value];
    }
  }

  lemma WinnerInRange(v: seq<real>, chosen: seq<int>, r: Pair)
    requires Winner(v, chosen, Everyone(|v|), r)
    ensures |v| > 0 ==> 0 <= r.key < |v|
  {}

  /** What the rounds compare: the probabilities, with the correction bias if there is one. */
  function Compared(probs: seq<real>, bias: Option<seq<real>>): (v: seq<real>)
    requires bias.Some? ==> |bias.value| == |probs|
    ensures |v| == |probs|
  {
    if bias.None? then probs
    else seq(|probs|, e requires 0 <= e < |probs| => probs[e] + bias.value[e])
  }

  /** By score plus bias each chosen expert is at least as good as every expert not chosen up
      to then, and of a smaller index where it is just as good. */
  ghost predicate BestFirst(probs: seq<real>, bias: seq<real>, chosen: seq<int>) {
    |bias| == |probs| && (forall i :: 0 <= i < |chosen| ==> 0 <= chosen[i] < |probs|) &&
    forall e, i :: 0 <= e < |probs| && 0 <= i < |chosen| && e !in chosen[..i + 1] ==>
      var mine, other := probs[chosen[i]] + bias[chosen[i]], probs[e] + bias[e];
      mine >= other && (mine == other ==> chosen[i] < e)
  }

  lemma BestBySum(probs: seq<real>, bias: Option<seq<real>>, chosen: seq<int>)
    requires (bias.Some? ==> |bias.value| == |probs|) && InOrder(Compared(probs, bias), chosen)
    ensures BestFirst(probs, if bias.Some? then bias.value else seq(|probs|, _ => 0.0), chosen)
  {
    hide InOrder, Compared;
    var v, added := Compared(probs, bias), if bias.Some? then bias.value else seq(|probs|, _ => 0.0);
    ComparedAt(probs, bias, added);
    LaterIsBeaten(v, chosen);
    forall e, i | 0 <= e < |probs| && 0 <= i < |chosen| && e !in chosen[..i + 1]
      ensures var mine, other := probs[chosen[i]] + added[chosen[i]], probs[e] + added[e];
              mine >= other && (mine == other ==> chosen[i] < e)
    {
      assert Beats(v, chosen[i], e);
    }
  }

  lemma ComparedAt(probs: seq<real>, bias: Option<seq<real>>, added: seq<real>)
    requires |added| == |probs| && added == if bias.Some? then bias.value else seq(|probs|, _ => 0.0)
    ensures forall e :: 0 <= e < |probs| ==> Compared(probs, bias)[e] == probs[e] + added[e]
  {}

  /** moe_top_k for one row: the k rounds choose by the biased scores, but what is stored
      for a winner is its score without the bias. */
  method SelectExperts(probs: seq<real>, bias: Option<seq<real>>, k: nat, tpb: nat, tree: Tree)
    returns (indices: seq<int>, output: seq<real>)
    requires |probs| > 0 && (bias.Some? ==> |bias.value| == |probs|)
    requires tpb > 0 && Within(tree, tpb) && forall t :: 0 <= t < tpb ==> Reaches(tree, t)
    ensures |indices| == |output| == k && forall i :: 0 <= i < k ==> 0 <= indices[i] < |probs|
    ensures InOrder(Compared(probs, bias), indices) <==> forall i :: 0 <= i < k ==> Clears(Compared(probs, bias), i)
    ensures InOrder(Compared(probs, bias), indices) ==> forall i, j :: 0 <= i < j < k ==> indices[i] != indices[j]
    ensures InOrder(Compared(probs, bias), indices) ==> forall i :: 0 <= i < k ==>
      output[i] == probs[indices[i]] || (bias.None? && indices[i] == 0 && probs[0] <= FLOOR.value)
    ensures bias.Some? ==> forall i :: 0 <= i < k ==> output[i] == probs[indices[i]]
    ensures k <= |probs| && bias.Some? && (forall e :: 0 <= e < |probs| ==> probs[e] + bias.value[e] > -1.0) ==>
      BestFirst(probs, bias.value, indices)
    ensures k <= |probs| && bias.None? && (forall e :: 0 <= e < |probs| ==> probs[e] > -1.0) ==>
      BestFirst(probs, seq(|probs|, _ => 0.0), indices)
  {
    hide InOrder, Clears;
    var v := Compared(probs, bias);
    var values;
    indices, values := SelectRow(v, k, tpb, tree);
    if InOrder(v, indices) {
      InOrderDistinct(v, indices);
      LaterIsBeaten(v, indices);
    }
    if k <= |v| && forall e :: 0 <= e < |v| ==> v[e] > -1.0 {
      ProbabilitiesClear(v, k);
      BestBySum(probs, bias, indices);
    }
    output := [];
    for i := 0 to k
      invariant |output| == i
      invariant forall j :: 0 <= j < i ==> output[j] == if bias.Some? then probs[indices[j]] else values[j]
    {
      output := output + [if bias.Some? then probs[indices[i]] else values[i]];
    }
  }

  /** Each chosen expert comes before every expert not chosen up to then. */
  lemma LaterIsBeaten(v: seq<real>, chosen: seq<int>)
    requires InOrder(v, chosen)
    ensures forall i :: 0 <= i < |chosen| ==> 0 <= chosen[i] < |v|
    ensures forall e, i :: 0 <= e < |v| && 0 <= i < |chosen| && e !in chosen[..i + 1] ==> Beats(v, chosen[i], e)
  {
    forall i | 0 <= i < |chosen| ensures 0 <= chosen[i] < |v| {
      assert HasRank(v, chosen[i], i);
    }
    forall e, i | 0 <= e < |v| && 0 <= i < |chosen| && e !in chosen[..i + 1] ensures Beats(v, chosen[i], e) {
      RemainingIsLater(v, chosen[..i + 1], e);
      assert HasRank(v, chosen[i], i) && chosen[..i + 1][i] == chosen[i];
      RanksDiffer(v, chosen[i], e);
    }
  }

  /** Experts of different places are different. */
  lemma InOrderDistinct(v: seq<real>, chosen: seq<int>)
    requires InOrder(v, chosen)
    ensures forall i, j :: 0 <= i < j < |chosen| ==> chosen[i] != chosen[j]
  {
    forall i, j | 0 <= i < j < |chosen| ensures chosen[i] != chosen[j] {
      assert HasRank(v, chosen[i], i) && HasRank(v, chosen[j], j);
    }
  }

  lemma PrefixInOrder(v: seq<real>, chosen: seq<int>, e: int)
    ensures InOrder(v, chosen + [e]) <==> InOrder(v, chosen) && HasRank(v, e, |chosen|)
  {
    var s := chosen + [e];
    if InOrder(v, s) {
      forall i | 0 <= i < |chosen| ensures HasRank(v, chosen[i], i) {
        assert HasRank(v, s[i], i);
      }
      assert HasRank(v, s[|chosen|], |chosen|);
    }
  }

  lemma WinnerValue(v: seq<real>, chosen: seq<int>, r: Pair)
    requires Winner(v, chosen, Everyone(|v|), r) && HasRank(v, r.key, |chosen|) && InOrder(v, chosen)
    ensures 0 <= r.key < |v| && (r.value == v[r.key] || (r.key == 0 && v[0] <= FLOOR.value))
  {
    RemainingIsLater(v, chosen, r.key);
  }

  // ---------- the sorted list ----------

  /** Every place up to the number of experts is taken. */
  lemma {:induction false} EveryPlaceTaken(v: seq<real>, n: nat) returns (chosen: seq<int>)
    requires n <= |v|
    ensures |chosen| == n && InOrder(v, chosen)
  {
    if n == 0 {
      chosen := [];
    } else {
      chosen := EveryPlaceTaken(v, n - 1);
      var e := BestRemaining(v, chosen, |v|);
      PlaceOfBest(v, chosen, e);
      chosen := chosen + [e];
    }
  }

  /** The best of the first m experts that are not chosen; -1 if there is none. */
  lemma {:induction false} BestOf(v: seq<real>, chosen: seq<int>, m: nat) returns (e: int)
    requires m <= |v|
    ensures e == -1 ==> forall f :: 0 <= f < m ==> f in chosen
    ensures e != -1 ==>
      0 <= e < m && e !in chosen && forall f :: 0 <= f < m && f !in chosen && f != e ==> Beats(v, e, f)
  {
    if m == 0 {
      e := -1;
    } else {
      e := BestOf(v, chosen, m - 1);
      if m - 1 !in chosen && (e == -1 || v[m - 1] > v[e]) {
        e := m - 1;
      }
    }
  }

  lemma BestRemaining(v: seq<real>, chosen: seq<int>, m: nat) returns (e: int)
    requires InOrder(v, chosen) && |chosen| < |v| && m == |v|
    ensures 0 <= e < |v| && e !in chosen && forall f :: 0 <= f < |v| && f !in chosen && f != e ==> Beats(v, e, f)
  {
    e := BestOf(v, chosen, m);
    if e == -1 {
      var all := seq(|v|, f requires 0 <= f < |v| => f in chosen);
      DistinctCount(v, chosen, all);
      PopcAll(all, |v|);
      assert false;
    }
  }

  /** A mask of the chosen experts has as many flags as there are chosen. */
  lemma {:induction false} DistinctCount(v: seq<real>, chosen: seq<int>, mask: seq<bool>)
    requires InOrder(v, chosen) && |mask| == |v| && forall f :: 0 <= f < |v| ==> mask[f] == (f in chosen)
    ensures Popc(mask, |v|) == |chosen|
  {
    if chosen == [] {
      PopcAll(mask, |v|);
    } else {
      var n := |chosen| - 1;
      var fewer, last := chosen[..n], chosen[n];
      assert chosen == fewer + [last];
      PrefixInOrder(v, fewer, last);
      RemainingIsLater(v, fewer, last);
      var rest := seq(|v|, f requires 0 <= f < |v| => f in fewer);
      var one := seq(|v|, f requires 0 <= f < |v| => f == last);
      DistinctCount(v, fewer, rest);
      PopcSplit(rest, one, mask, |v|);
      PopcSingle(one, last, |v|);
    }
  }

  lemma PlaceOfBest(v: seq<real>, chosen: seq<int>, e: int)
    requires InOrder(v, chosen) && 0 <= e < |v| && e !in chosen
    requires forall f :: 0 <= f < |v| && f !in chosen && f != e ==> Beats(v, e, f)
    ensures InOrder(v, chosen + [e])
  {
    var mask := Beaters(v, e);
    RemainingIsLater(v, chosen, e);
    forall f | 0 <= f < |v| ensures mask[f] == (f in chosen) {
      RemainingIsLater(v, chosen, f);
      if f != e {
        RanksDiffer(v, f, e);
        RanksDiffer(v, e, f);
      }
    }
    DistinctCount(v, chosen, mask);
    PrefixInOrder(v, chosen, e);
  }

  /** The documented case: with scores above -1 and k at most the number of
      experts, every round clears the floor. */
  lemma ProbabilitiesClear(v: seq<real>, k: nat)
    requires k <= |v| && forall e :: 0 <= e < |v| ==> v[e] > -1.0
    ensures forall i :: 0 <= i < k ==> Clears(v, i)
  {
    var chosen := EveryPlaceTaken(v, k);
    forall i | 0 <= i < k ensures Clears(v, i) {
      assert HasRank(v, chosen[i], i);
    }
  }

  /** Below the floor the promise fails: expert 1 is the better one, but the first round
      answers expert 0. */
  lemma BelowFloorFails(r: Pair)
    requires Winner([-3.0, -2.0], [], Everyone(2), r)
    ensures var v := [-3.0, -2.0]; HasRank(v, 1, 0) && !HasRank(v, r.key, 0) && r.key == 0
  {
    var v := [-3.0, -2.0];
    RanksDiffer(v, 0, 1);
    RanksDiffer(v, 1, 0);
    assert Beats(v, 1, 0);
    PopcAll(Beaters(v, 1), 2);
    assert Rank(v, 1) == 0;
  }
}
