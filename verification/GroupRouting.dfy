/** group_idx_and_topk_idx_kernel and invokeNoAuxTc of noauxtc_kernel.h for one
    token: score the groups, then pick the best experts of the admitted ones. */
module GroupRouting {
  import opened Arith
  import opened BitonicNetwork
  import opened TopK
  import opened Ballots
  import opened GroupThreshold
  import opened RealSeqs
  import TopTwo
  import WarpSelect

  // ---------- the candidates of the admitted groups ----------

  /** The experts of one group as candidates. */
  ghost function Experts(swb: seq<real>, off: nat, n: nat): (s: seq<Cand>)
    requires off + n <= |swb|
    ensures |s| == n
  {
    seq(n, j requires 0 <= j < n => Cand(swb[off + j], off + j))
  }

  /** Everything offered by the first n groups. */
  ghost function Pool(swb: seq<real>, chosen: seq<bool>, per: nat, n: nat): seq<Cand>
    requires n <= |chosen| && |chosen| * per <= |swb|
  {
    if n == 0 then []
    else
      RowInside(n - 1, |chosen|, per);
      if chosen[n - 1] then Pool(swb, chosen, per, n - 1) + Experts(swb, (n - 1) * per, per)
      else Pool(swb, chosen, per, n - 1)
  }

  /** The candidate of an expert below bound whose group is chosen. */
  ghost predicate Offered(swb: seq<real>, chosen: seq<bool>, per: nat, bound: nat, c: Cand)
    requires per > 0
  {
    0 <= c.idx < bound && InChosen(chosen, per, c.idx, |swb|) && c.val == swb[c.idx]
  }

  /** The pool holds each expert of the chosen groups once, and nothing else. */
  lemma {:induction false} PoolContents(swb: seq<real>, chosen: seq<bool>, per: nat, n: nat, c: Cand)
    requires n <= |chosen| && |chosen| * per <= |swb| && per > 0
    ensures multiset(Pool(swb, chosen, per, n))[c] == if Offered(swb, chosen, per, n * per, c) then 1 else 0
  {
    if n > 0 {
      PoolContents(swb, chosen, per, n - 1, c);
      RowInside(n - 1, |chosen|, per);
      var off := (n - 1) * per;
      if chosen[n - 1] {
        ExpertsContents(swb, off, per, c);
      }
      OfferedNext(swb, chosen, per, n - 1, off, c);
    }
  }

  lemma OfferedNext(swb: seq<real>, chosen: seq<bool>, per: nat, g: nat, off: nat, c: Cand)
    requires g < |chosen| && per > 0 && off == g * per && off + per <= |swb|
    ensures (g + 1) * per == off + per
    ensures Offered(swb, chosen, per, off + per, c) ==
      (Offered(swb, chosen, per, off, c) || (chosen[g] && off <= c.idx < off + per && c.val == swb[c.idx]))
  {
    if off <= c.idx < off + per {
      DivModUnique(c.idx, g, c.idx - off, per);
    }
  }

  ghost predicate InChosen(chosen: seq<bool>, per: nat, e: nat, total: nat)
    requires per > 0
  {
    e < total && e / per < |chosen| && chosen[e / per]
  }

  lemma {:induction false} ExpertsContents(swb: seq<real>, off: nat, n: nat, c: Cand)
    requires off + n <= |swb|
    ensures multiset(Experts(swb, off, n))[c] == if off <= c.idx < off + n && c.val == swb[c.idx] then 1 else 0
  {
    if n > 0 {
      ExpertsContents(swb, off, n - 1, c);
      assert Experts(swb, off, n) == Experts(swb, off, n - 1) + [Cand(swb[off + n - 1], off + n - 1)];
    } else {
      assert Experts(swb, off, n) == [];
    }
  }

  lemma {:induction false} PoolSize(swb: seq<real>, chosen: seq<bool>, per: nat, n: nat)
    requires n <= |chosen| && |chosen| * per <= |swb|
    ensures |Pool(swb, chosen, per, n)| == Popc(chosen, n) * per
  {
    if n > 0 {
      PoolSize(swb, chosen, per, n - 1);
      RowInside(n - 1, |chosen|, per);
      assert (Popc(chosen, n - 1) + 1) * per == Popc(chosen, n - 1) * per + per;
    }
  }

  // ---------- offering the experts to the queue ----------

  /** Above dummy, the queue has seen what it had before and the candidates of s. */
  ghost predicate Extends(seen: multiset<Cand>, before: multiset<Cand>, s: seq<Cand>, dummy: real) {
    forall c: Cand :: c.val > dummy ==> seen[c] == before[c] + multiset(s)[c]
  }

  /** The inner loop: 32 experts of the group at a time, the last batch filled
      up with sentinels. */
  method OfferGroup(queue: WarpSelect.Queue, swb: seq<real>, off: nat, per: nat)
    requires queue.Valid() && off + per <= |swb|
    modifies queue, queue.vals, queue.idxs, queue.valSmem, queue.idxSmem
    ensures queue.Valid()
    ensures Extends(queue.seen, old(queue.seen), Experts(swb, off, per), queue.dummy)
  {
    hide WarpSelect.Queue.Valid, Extends, Experts;
    var i := 0;
    NothingOffered(queue.seen, swb, off, queue.dummy);
    while i < per
      invariant queue.Valid()
      invariant Extends(queue.seen, old(queue.seen), Experts(swb, off, if i < per then i else per), queue.dummy)
    {
      var cands := seq(WARP_SIZE, l requires 0 <= l < WARP_SIZE =>
        Cand(if i + l < per then swb[off + i + l] else queue.dummy, off + i + l));
      BatchCounts(queue.seen, old(queue.seen), swb, off, per, i, cands, queue.dummy);
      queue.Add(cands);
      i := i + WARP_SIZE;
    }
  }

  lemma NothingOffered(seen: multiset<Cand>, swb: seq<real>, off: nat, dummy: real)
    requires off <= |swb|
    ensures Extends(seen, seen, Experts(swb, off, 0), dummy)
  {
    assert Experts(swb, off, 0) == [];
  }

  lemma BatchCounts(seen: multiset<Cand>, before: multiset<Cand>, swb: seq<real>, off: nat, per: nat, i: nat,
                    cands: seq<Cand>, dummy: real)
    requires off + per <= |swb| && i < per && |cands| == WARP_SIZE
    requires forall l :: 0 <= l < WARP_SIZE ==>
      cands[l] == Cand(if i + l < per then swb[off + i + l] else dummy, off + i + l)
    requires Extends(seen, before, Experts(swb, off, i), dummy)
    ensures Extends(seen + multiset(cands), before,
                    Experts(swb, off, if i + WARP_SIZE < per then i + WARP_SIZE else per), dummy)
  {
    hide Extends;
    var n := if i + WARP_SIZE < per then WARP_SIZE else per - i;
    var scored, pads := cands[..n], cands[n..];
    assert Experts(swb, off, i + n) == Experts(swb, off, i) + scored;
    assert forall c :: c in pads ==> c.val <= dummy;
    BatchExtends(seen, before, Experts(swb, off, i), cands, scored, pads, dummy);
  }

  lemma BatchExtends(seen: multiset<Cand>, before: multiset<Cand>, had: seq<Cand>, cands: seq<Cand>,
                     scored: seq<Cand>, pads: seq<Cand>, dummy: real)
    requires Extends(seen, before, had, dummy) && cands == scored + pads
    requires forall c :: c in pads ==> c.val <= dummy
    ensures Extends(seen + multiset(cands), before, had + scored, dummy)
  {
    forall c: Cand | c.val > dummy ensures multiset(pads)[c] == 0 {
      assert c !in pads;
    }
  }

  /** One step of the pass over the groups. */
  method ConsiderGroup(queue: WarpSelect.Queue, scores: seq<real>, swb: seq<real>, per: nat, t: real, numEqual: nat,
                       g: nat, countEqual: nat) returns (next: nat)
    requires queue.Valid() && g < |scores| && |scores| * per <= |swb|
    requires countEqual == EqualsTaken(scores, t, numEqual, g)
    requires forall c: Cand :: c.val > queue.dummy ==>
      queue.seen[c] == multiset(Pool(swb, AdmittedMask(scores, t, numEqual), per, g))[c]
    modifies queue, queue.vals, queue.idxs, queue.valSmem, queue.idxSmem
    ensures queue.Valid() && next == EqualsTaken(scores, t, numEqual, g + 1)
    ensures forall c: Cand :: c.val > queue.dummy ==>
      queue.seen[c] == multiset(Pool(swb, AdmittedMask(scores, t, numEqual), per, g + 1))[c]
  {
    hide WarpSelect.Queue.Valid, Experts;
    ghost var chosen := AdmittedMask(scores, t, numEqual);
    RowInside(g, |scores|, per);
    next := countEqual;
    if scores[g] > t || (scores[g] == t && countEqual < numEqual) {
      assert chosen[g];
      OfferGroup(queue, swb, g * per, per);
      assert Extends(queue.seen, old(queue.seen), Experts(swb, g * per, per), queue.dummy);
      if scores[g] == t {
        next := countEqual + 1;
      }
    }
  }

  /** count_equalto_topkth_group after the first g groups. */
  ghost function EqualsTaken(scores: seq<real>, t: real, numEqual: nat, g: nat): nat
    requires g <= |scores|
  {
    var eq := Popc(TopTwo.Equals(scores, t), g);
    if eq < numEqual then eq else numEqual
  }

  /** The pass over the groups followed by done() and dumpIdx(). */
  method SelectExperts(scores: seq<real>, swb: seq<real>, per: nat, t: real, numEqual: nat, topk: nat, sentinel: real)
    returns (idx: seq<int>, ghost out: seq<Cand>)
    requires |scores| * per <= |swb| && 1 <= topk <= WARP_SIZE
    ensures |idx| == |out| == topk && forall i :: 0 <= i < topk ==> idx[i] == out[i].idx
    ensures IsTopK(out, multiset(Pool(swb, AdmittedMask(scores, t, numEqual), per, |scores|)), sentinel, topk)
  {
    hide WarpSelect.Queue.Valid, IsTopK;
    ghost var chosen := AdmittedMask(scores, t, numEqual);
    assert IsPow2(32) by { assert IsPow2(4); }
    var queue := new WarpSelect.Queue(WARP_SIZE, topk, sentinel);
    var countEqual := 0;
    for g := 0 to |scores|
      invariant queue.Valid() && queue.k == topk && queue.dummy == sentinel
      invariant fresh(queue) && fresh(queue.vals) && fresh(queue.idxs) && fresh(queue.valSmem) && fresh(queue.idxSmem)
      invariant countEqual == EqualsTaken(scores, t, numEqual, g)
      invariant forall c: Cand :: c.val > sentinel ==> queue.seen[c] == multiset(Pool(swb, chosen, per, g))[c]
    {
      countEqual := ConsiderGroup(queue, scores, swb, per, t, numEqual, g, countEqual);
    }
    queue.Done();
    idx := queue.DumpIdx();
    out := queue.Regs()[..topk];
    SameAboveDummy(out, queue.seen, multiset(Pool(swb, chosen, per, |scores|)), sentinel, topk);
  }

  lemma SameAboveDummy(out: seq<Cand>, a: multiset<Cand>, b: multiset<Cand>, dummy: real, k: nat)
    requires IsTopK(out, a, dummy, k) && forall c: Cand :: c.val > dummy ==> a[c] == b[c]
    ensures IsTopK(out, b, dummy, k)
  {}

  // ---------- exactness ----------

  /** idx are distinct experts of the chosen groups, best first, and no expert of
      a chosen group that was left out scores above one that was taken. */
  ghost predicate BestExperts(swb: seq<real>, chosen: seq<bool>, per: nat, idx: seq<int>)
    requires per > 0
  {
    (forall i :: 0 <= i < |idx| ==> 0 <= idx[i] < |swb| && InChosen(chosen, per, idx[i], |swb|)) &&
    (forall i, j :: 0 <= i < j < |idx| ==> idx[i] != idx[j] && swb[idx[i]] >= swb[idx[j]]) &&
    (forall e, i :: 0 <= e < |swb| && InChosen(chosen, per, e, |swb|) && e !in idx && 0 <= i < |idx| ==>
      swb[idx[i]] >= swb[e])
  }

  /** At least k candidates have a value above dummy. */
  ghost predicate Enough(pool: seq<Cand>, dummy: real, k: nat) {
    exists v :: v > dummy && CountFrom(pool, v) >= k
  }

  /** With enough candidates above dummy no entry of the answer is filler. */
  lemma NoFiller(out: seq<Cand>, pool: seq<Cand>, dummy: real, k: nat)
    requires IsTopK(out, multiset(pool), dummy, k) && Enough(pool, dummy, k)
    ensures forall i :: 0 <= i < k ==> out[i].val > dummy
  {
    forall i | 0 <= i < k ensures out[i].val > dummy {
      if out[i].val <= dummy {
        var v :| v > dummy && CountFrom(pool, v) >= k;
        forall c: Cand | c.val >= v ensures multiset(pool)[c] <= multiset(out)[c] {}
        CountMono(pool, out, v);
        SortedCount(out, i, v);
      }
    }
  }

  /** A pool that lies above dummy has enough candidates if it is large enough. */
  lemma AllAboveIsEnough(pool: seq<Cand>, dummy: real, k: nat)
    requires k <= |pool| && forall c :: c in pool ==> c.val > dummy
    ensures Enough(pool, dummy, k)
  {
    var v := Floor(pool, dummy);
    AllFrom(pool, v);
  }

  lemma Floor(pool: seq<Cand>, dummy: real) returns (v: real)
    requires forall c :: c in pool ==> c.val > dummy
    ensures v > dummy && forall c :: c in pool ==> c.val >= v
  {
    if pool == [] {
      v := dummy + 1.0;
    } else {
      v := Floor(pool[1..], dummy);
      assert pool[0] in pool;
      if pool[0].val < v {
        v := pool[0].val;
      }
    }
  }

  lemma {:induction false} AllFrom(s: seq<Cand>, v: real)
    requires forall c :: c in s ==> c.val >= v
    ensures CountFrom(s, v) == |s|
  {
    if s != [] {
      assert s[0] in s;
      AllFrom(s[1..], v);
    }
  }

  lemma DistinctEntries(out: seq<Cand>, i: nat, j: nat)
    requires i < j < |out| && multiset(out)[out[i]] <= 1
    ensures out[i] != out[j]
  {
    assert out == out[..i] + [out[i]] + out[i + 1..j] + [out[j]] + out[j + 1..];
  }

  /** Group-limited selection is exact, whenever the chosen groups have topk experts
      above the sentinel. */
  lemma SelectionIsExact(swb: seq<real>, chosen: seq<bool>, per: nat, topk: nat, sentinel: real, out: seq<Cand>,
                         idx: seq<int>)
    requires |chosen| * per == |swb| && per > 0 && Enough(Pool(swb, chosen, per, |chosen|), sentinel, topk)
    requires |idx| == |out| == topk && forall i :: 0 <= i < topk ==> idx[i] == out[i].idx
    requires IsTopK(out, multiset(Pool(swb, chosen, per, |chosen|)), sentinel, topk)
    ensures BestExperts(swb, chosen, per, idx)
  {
    hide IsTopK, Pool, InChosen, Enough;
    NoFiller(out, Pool(swb, chosen, per, |chosen|), sentinel, topk);
    forall i | 0 <= i < topk ensures Offered(swb, chosen, per, |swb|, out[i]) {
      TakenIsOffered(swb, chosen, per, sentinel, topk, out, i);
    }
    forall i, j | 0 <= i < j < topk ensures idx[i] != idx[j] && swb[idx[i]] >= swb[idx[j]] {
      TakenInOrder(swb, chosen, per, sentinel, topk, out, i, j);
    }
    forall e, i | 0 <= e < |swb| && InChosen(chosen, per, e, |swb|) && e !in idx && 0 <= i < topk
      ensures swb[idx[i]] >= swb[e]
    {
      if swb[e] > sentinel {
        LeftOutIsLower(swb, chosen, per, sentinel, topk, out, idx, e, i);
      }
    }
  }

  lemma TakenIsOffered(swb: seq<real>, chosen: seq<bool>, per: nat, sentinel: real, topk: nat, out: seq<Cand>, i: nat)
    requires |chosen| * per == |swb| && per > 0
    requires IsTopK(out, multiset(Pool(swb, chosen, per, |chosen|)), sentinel, topk)
    requires i < topk && out[i].val > sentinel
    ensures Offered(swb, chosen, per, |swb|, out[i]) && multiset(out)[out[i]] == 1
  {
    PoolContents(swb, chosen, per, |chosen|, out[i]);
    assert out[i] in multiset(out);
  }

  lemma TakenInOrder(swb: seq<real>, chosen: seq<bool>, per: nat, sentinel: real, topk: nat, out: seq<Cand>, i: nat,
                     j: nat)
    requires |chosen| * per == |swb| && per > 0
    requires IsTopK(out, multiset(Pool(swb, chosen, per, |chosen|)), sentinel, topk)
    requires i < j < topk && out[i].val > sentinel && out[j].val > sentinel
    ensures out[i].idx != out[j].idx && out[i].val >= out[j].val
  {
    TakenIsOffered(swb, chosen, per, sentinel, topk, out, i);
    TakenIsOffered(swb, chosen, per, sentinel, topk, out, j);
    DistinctEntries(out, i, j);
    assert Before(out[i], out[j], false);
  }

  lemma LeftOutIsLower(swb: seq<real>, chosen: seq<bool>, per: nat, sentinel: real, topk: nat, out: seq<Cand>,
                       idx: seq<int>, e: nat, i: nat)
    requires |chosen| * per == |swb| && per > 0
    requires IsTopK(out, multiset(Pool(swb, chosen, per, |chosen|)), sentinel, topk)
    requires |idx| == |out| == topk && forall l :: 0 <= l < topk ==> idx[l] == out[l].idx
    requires e < |swb| && InChosen(chosen, per, e, |swb|) && e !in idx && i < topk && swb[e] > sentinel
    ensures out[i].val >= swb[e]
  {
    var c := Cand(swb[e], e);
    PoolContents(swb, chosen, per, |chosen|, c);
    forall l | 0 <= l < |out| ensures out[l] != c {
      assert idx[l] in idx;
    }
  }

  // ---------- the scores of the groups ----------

  /** gs[g] is what topk_with_k2 yields for group g. */
  ghost predicate GroupScores(swb: seq<real>, per: nat, sentinel: real, gs: seq<real>) {
    forall g :: 0 <= g < |gs| ==> GroupScore(swb, per, sentinel, g, gs[g])
  }

  ghost predicate GroupScore(swb: seq<real>, per: nat, sentinel: real, g: nat, score: real) {
    g * per + per <= |swb| && TopTwo.KernelScore(swb[g * per..g * per + per], sentinel, score)
  }

  /** topk_with_k2_kernel over the groups of one token. */
  method ScoreGroups(swb: seq<real>, nGroup: nat, per: nat, sentinel: real) returns (gs: seq<real>)
    requires nGroup * per == |swb|
    ensures |gs| == nGroup && GroupScores(swb, per, sentinel, gs)
  {
    hide TopTwo.KernelScore;
    gs := [];
    for g := 0 to nGroup
      invariant |gs| == g && GroupScores(swb, per, sentinel, gs)
    {
      RowInside(g, nGroup, per);
      var off := g * per;
      var score := TopTwo.TopkWithK2(swb[off..off + per], sentinel);
      gs := gs + [score];
    }
  }

  /** score is the sum of the two largest members of the group. */
  ghost predicate TopSum(group: seq<real>, score: real) {
    exists i, j :: TopTwo.TopTwoAt(group, i, j) && score == group[i] + group[j]
  }

  /** Above a positive sentinel every group of two or more counts for the sum of its two
      largest members, which is above the sentinel too. */
  lemma ScoresAbove(swb: seq<real>, per: nat, sentinel: real, gs: seq<real>, g: nat)
    requires GroupScores(swb, per, sentinel, gs) && g < |gs| && per >= 2 && sentinel > 0.0
    requires forall e :: 0 <= e < |swb| ==> swb[e] > sentinel
    ensures g * per + per <= |swb| && TopSum(swb[g * per..g * per + per], gs[g]) && gs[g] > sentinel
  {
    hide TopTwo.KernelScore;
    var off := g * per;
    assert GroupScore(swb, per, sentinel, g, gs[g]);
    var group := swb[off..off + per];
    var i, j := TopTwo.TopTwoExists(group);
    assert group[i] == swb[off + i] && group[j] == swb[off + j];
    TopTwo.ScoreAbove(group, sentinel, gs[g], i, j);
  }

  lemma AboveEnds(gs: seq<real>, sentinel: real, topkGroup: nat)
    requires 0 < |gs| && topkGroup <= |gs| && forall g :: 0 <= g < |gs| ==> gs[g] > sentinel
    ensures Ends(gs, sentinel, topkGroup) && sentinel !in gs
  {
    PopcAll(AtLeast(gs, sentinel), |gs|);
  }

  /** Unless a group has exactly 32 experts, the loop over the group scores ends for any scores. */
  lemma OtherSizesEnd(swb: seq<real>, per: nat, sentinel: real, gs: seq<real>, topkGroup: nat)
    requires GroupScores(swb, per, sentinel, gs) && per != WARP_SIZE && sentinel > 0.0 && topkGroup <= |gs|
    ensures |gs| > 0 ==> Ends(gs, sentinel, topkGroup)
    ensures sentinel !in gs
  {
    hide TopTwo.KernelScore;
    forall g | 0 <= g < |gs| ensures gs[g] > sentinel {
      assert GroupScore(swb, per, sentinel, g, gs[g]);
      TopTwo.ScoreFloor(swb[g * per..g * per + per], sentinel, gs[g]);
    }
    if |gs| > 0 {
      AboveEnds(gs, sentinel, topkGroup);
    }
  }

  /** A token of three groups of 32: all experts of a group have the same score, and only
      those of the first group lie above the sentinel. */
  function HangingToken(sentinel: real): seq<real> {
    seq(3 * WARP_SIZE, e => if e < WARP_SIZE then (sentinel + 1.0) / 2.0 else (sentinel - 1.0) / 2.0)
  }

  /** With two groups to be admitted the kernel never gets past the loop for this token. */
  lemma GroupsOf32CanHang(sentinel: real, gs: seq<real>, n: nat)
    requires |gs| == 3 && GroupScores(HangingToken(sentinel), WARP_SIZE, sentinel, gs) && n >= 1
    ensures Count(gs, sentinel, n) < Target(gs, 2)
  {
    hide TopTwo.KernelScore;
    var swb := HangingToken(sentinel);
    forall g | 0 <= g < 3 ensures gs[g] == if g == 0 then sentinel + 1.0 else sentinel - 1.0 {
      assert GroupScore(swb, WARP_SIZE, sentinel, g, gs[g]);
      LevelGroup(swb[g * WARP_SIZE..g * WARP_SIZE + WARP_SIZE], sentinel, gs[g]);
    }
    NeverEndsExample(sentinel, n);
    assert gs == [sentinel + 1.0, sentinel - 1.0, sentinel - 1.0];
  }

  /** A group of 32 equal members scores twice their value. */
  lemma LevelGroup(group: seq<real>, sentinel: real, score: real)
    requires |group| == WARP_SIZE && TopTwo.KernelScore(group, sentinel, score)
    requires forall i :: 0 <= i < WARP_SIZE ==> group[i] == group[0]
    ensures score == group[0] + group[0]
  {
    assert TopTwo.TopTwoAt(group, 0, 1);
    assert TopTwo.IsTopTwo(group, group[0], group[1]);
  }

  // ---------- the weights ----------

  ghost function SumAt(scores: seq<real>, idx: seq<int>): (sum: real)
    requires InRange(idx, |scores|)
    ensures (forall e :: 0 <= e < |scores| ==> scores[e] >= 0.0) ==> sum >= 0.0
  {
    if idx == [] then 0.0 else SumAt(scores, idx[..|idx| - 1]) + scores[idx[|idx| - 1]]
  }

  ghost predicate InRange(idx: seq<int>, n: nat) {
    forall i :: 0 <= i < |idx| ==> 0 <= idx[i] < n
  }

  const EPSILON: real := 0.00000000000000000001  // 1e-20

  function Share(score: real, sum: real, factor: real): real
    requires sum != 0.0
  {
    score / sum * factor
  }

  /** Every score is now zero, except those at idx: each of these is its share of
      factor, and that is also its weight. */
  ghost predicate Reweighed(s0: seq<real>, s1: seq<real>, idx: seq<int>, weights: seq<real>, factor: real, sum: real) {
    |s0| == |s1| && |idx| == |weights| && sum != 0.0 && InRange(idx, |s0|) && sum == EPSILON + SumAt(s0, idx) &&
    (forall i :: 0 <= i < |idx| ==> weights[i] == Share(s0[idx[i]], sum, factor) && s1[idx[i]] == weights[i]) &&
    (forall e :: 0 <= e < |s1| && e !in idx ==> s1[e] == 0.0)
  }

  /** s_topk_value and topk_sum. */
  method Gather(scores: array<real>, idx: seq<int>) returns (values: seq<real>, topkSum: real)
    requires InRange(idx, scores.Length)
    ensures |values| == |idx| && forall i :: 0 <= i < |idx| ==> values[i] == scores[idx[i]]
    ensures topkSum == EPSILON + SumAt(scores[..], idx)
  {
    values := [];
    topkSum := EPSILON;
    for i := 0 to |idx|
      invariant |values| == i && topkSum == EPSILON + SumAt(scores[..], idx[..i])
      invariant forall l :: 0 <= l < i ==> values[l] == scores[idx[l]]
    {
      assert idx[..i + 1][..i] == idx[..i];
      values := values + [scores[idx[i]]];
      topkSum := topkSum + scores[idx[i]];
    }
    assert idx[..|idx|] == idx;
  }

  /** The last part of the kernel: clear all the scores, then store the weights. */
  method Reweigh(scores: array<real>, idx: seq<int>, factor: real) returns (weights: seq<real>, ghost sum: real)
    requires InRange(idx, scores.Length) && EPSILON + SumAt(scores[..], idx) != 0.0
    modifies scores
    ensures Reweighed(old(scores[..]), scores[..], idx, weights, factor, sum)
  {
    hide Share;
    ghost var s0 := scores[..];
    var values, topkSum := Gather(scores, idx);
    sum := topkSum;
    for e := 0 to scores.Length
      invariant forall d :: 0 <= d < e ==> scores[d] == 0.0
    {
      scores[e] := 0.0;
    }
    weights := [];
    for i := 0 to |idx|
      invariant |weights| == i
      invariant forall l :: 0 <= l < i ==> weights[l] == Share(s0[idx[l]], topkSum, factor)
      invariant forall l :: 0 <= l < i ==> scores[idx[l]] == Share(s0[idx[l]], topkSum, factor)
      invariant forall e :: 0 <= e < scores.Length && e !in idx ==> scores[e] == 0.0
    {
      weights := weights + [Share(values[i], topkSum, factor)];
      scores[idx[i]] := weights[i];
    }
  }

  /** The weights of the selected experts share out factor, up to the epsilon. */
  lemma {:induction false} WeightsShareFactor(scores: seq<real>, idx: seq<int>, factor: real, weights: seq<real>,
                                              sum: real)
    requires InRange(idx, |scores|) && |weights| == |idx| && sum != 0.0
    requires forall i :: 0 <= i < |idx| ==> weights[i] == Share(scores[idx[i]], sum, factor)
    ensures Sum(weights, |weights|) * sum == factor * SumAt(scores, idx)
  {
    hide Share;
    if idx != [] {
      var n := |idx| - 1;
      WeightsShareFactor(scores, idx[..n], factor, weights[..n], sum);
      SumOfPrefix(weights, n, n);
      ShareBack(Sum(weights, n), SumAt(scores, idx[..n]), scores[idx[n]], sum, factor);
    }
  }

  lemma ShareBack(w: real, s: real, score: real, sum: real, factor: real)
    requires sum != 0.0 && w * sum == factor * s
    ensures (w + Share(score, sum, factor)) * sum == factor * (s + score)
  {
    var q := score / sum;
    assert q * sum == score;
    assert (q * factor) * sum == factor * (q * sum);
  }

  /** What the epsilon takes: the selected scores divide the factor by their sum and 1e-20
      more, so of scores that sum to at least 1 it takes less than 1e-20 of the factor. */
  lemma EpsilonTakesLittle(s0: seq<real>, s1: seq<real>, idx: seq<int>, weights: seq<real>, factor: real, sum: real)
    requires Reweighed(s0, s1, idx, weights, factor, sum)
    ensures Sum(weights, |weights|) * (SumAt(s0, idx) + 0.00000000000000000001) == factor * SumAt(s0, idx)
    ensures SumAt(s0, idx) >= 1.0 && factor >= 0.0 ==>
      factor * (1.0 - 0.00000000000000000001) <= Sum(weights, |weights|) <= factor
  {
    hide Share, Sum, SumAt;
    var w, s := Sum(weights, |weights|), SumAt(s0, idx);
    WeightsShareFactor(s0, idx, factor, weights, sum);
    assert sum == s + 0.00000000000000000001;
    if s >= 1.0 && factor >= 0.0 {
      hide Reweighed;
      ShortBy(w, s, factor, 0.00000000000000000001);
    }
  }

  lemma ShortBy(w: real, s: real, factor: real, eps: real)
    requires w * (s + eps) == factor * s && s >= 1.0 && factor >= 0.0 && 0.0 < eps < 1.0
    ensures factor * (1.0 - eps) <= w <= factor
  {
    var total, taken := s + eps, factor * eps;
    assert (factor - w) * total == taken;
    NotNegative(factor - w, total);
    assert (taken - (factor - w)) * total == taken * (total - 1.0);
    NotNegative(taken - (factor - w), total);
  }

  lemma NotNegative(x: real, z: real)
    requires z > 0.0 && x * z >= 0.0
    ensures x >= 0.0
  {}

  // ---------- one token, from scores to weights ----------

  /** The loop over the group scores ends, and the groups it admits have topk experts above
      the sentinel. */
  ghost predicate GroupsServe(swb: seq<real>, gs: seq<real>, per: nat, topkGroup: nat, topk: nat, sentinel: real)
    requires 0 < |gs| <= WARP_SIZE && |gs| * per == |swb|
  {
    (topkGroup < |gs| ==> Ends(gs, sentinel, topkGroup)) &&
    forall chosen :: |chosen| == |gs| && AdmittedBy(gs, sentinel, topkGroup, chosen) ==>
      Enough(Pool(swb, chosen, per, |gs|), sentinel, topk)
  }

  /** What a token must be like. */
  ghost predicate Routable(swb: seq<real>, nGroup: nat, per: nat, topkGroup: nat, topk: nat, sentinel: real)
    requires nGroup * per == |swb| && 0 < nGroup <= WARP_SIZE
  {
    forall gs :: |gs| == nGroup && GroupScores(swb, per, sentinel, gs) ==>
      GroupsServe(swb, gs, per, topkGroup, topk, sentinel)
  }

  /** No choice of experts has scores that cancel the epsilon. */
  ghost predicate NeverCancels(scores: seq<real>, topk: nat) {
    forall idx :: |idx| == topk && InRange(idx, |scores|) ==> EPSILON + SumAt(scores, idx) != 0.0
  }

  /** The documented case: biased scores above the positive sentinel, scores that are not
      negative, and enough experts. */
  lemma PositiveIsRoutable(swb: seq<real>, scores: seq<real>, nGroup: nat, per: nat, topkGroup: nat, topk: nat,
                           sentinel: real)
    requires nGroup * per == |swb| && 0 < nGroup <= WARP_SIZE && per >= 2 && sentinel > 0.0
    requires 1 <= topkGroup <= nGroup && topk <= topkGroup * per && forall e :: 0 <= e < |swb| ==> swb[e] > sentinel
    requires forall e :: 0 <= e < |scores| ==> scores[e] >= 0.0
    ensures Routable(swb, nGroup, per, topkGroup, topk, sentinel) && NeverCancels(scores, topk)
  {
    hide GroupScores, Enough, Pool, TopSum, Ends, AdmittedBy, BestGroups;
    forall gs | |gs| == nGroup && GroupScores(swb, per, sentinel, gs)
      ensures GroupsServe(swb, gs, per, topkGroup, topk, sentinel)
    {
      forall g | 0 <= g < nGroup ensures gs[g] > sentinel {
        ScoresAbove(swb, per, sentinel, gs, g);
      }
      AboveEnds(gs, sentinel, topkGroup);
      forall chosen | |chosen| == |gs| && AdmittedBy(gs, sentinel, topkGroup, chosen)
        ensures Enough(Pool(swb, chosen, per, |gs|), sentinel, topk)
      {
        AboveAdmitsBest(gs, sentinel, topkGroup, chosen);
        PoolEnough(swb, gs, chosen, per, topkGroup, topk, sentinel);
      }
    }
  }

  /** Above the sentinel the groups admitted are the best ones. */
  lemma AboveAdmitsBest(gs: seq<real>, sentinel: real, topkGroup: nat, chosen: seq<bool>)
    requires 1 <= topkGroup <= |gs| <= WARP_SIZE && AdmittedBy(gs, sentinel, topkGroup, chosen)
    requires forall g :: 0 <= g < |gs| ==> gs[g] > sentinel
    ensures BestGroups(gs, chosen, topkGroup)
  {
    hide Found, AdmittedMask, BestGroups;
    AboveEnds(gs, sentinel, topkGroup);
    if topkGroup < |gs| {
      var t, numEqual, r :| Found(gs, sentinel, topkGroup, r, t, numEqual) && chosen == AdmittedMask(gs, t, numEqual);
      FoundIsRight(gs, sentinel, topkGroup, r, t, numEqual);
    } else {
      var numEqual: nat :| chosen == AdmittedMask(gs, sentinel, numEqual);
      AllAdmitted(gs, sentinel, numEqual);
    }
  }

  lemma PoolEnough(swb: seq<real>, gs: seq<real>, chosen: seq<bool>, per: nat, topkGroup: nat, topk: nat,
                   sentinel: real)
    requires |gs| * per == |swb| && per > 0 && topk <= topkGroup * per && BestGroups(gs, chosen, topkGroup)
    requires forall e :: 0 <= e < |swb| ==> swb[e] > sentinel
    ensures Enough(Pool(swb, chosen, per, |gs|), sentinel, topk)
  {
    hide Pool, Enough;
    PoolSize(swb, chosen, per, |gs|);
    forall c | c in Pool(swb, chosen, per, |gs|) ensures c.val > sentinel {
      PoolContents(swb, chosen, per, |gs|, c);
    }
    AllAboveIsEnough(Pool(swb, chosen, per, |gs|), sentinel, topk);
  }

  /** What the kernel answers for one token: the best experts of the admitted groups,
      with the shares of their scores as weights. */
  ghost predicate Routed(swb: seq<real>, per: nat, chosen: seq<bool>, s0: seq<real>, s1: seq<real>, idx: seq<int>,
                         weights: seq<real>, factor: real, sum: real) {
    per > 0 && BestExperts(swb, chosen, per, idx) && Reweighed(s0, s1, idx, weights, factor, sum)
  }

  lemma ExpertsInRange(swb: seq<real>, chosen: seq<bool>, per: nat, idx: seq<int>)
    requires per > 0 && BestExperts(swb, chosen, per, idx)
    ensures InRange(idx, |swb|)
  {}

  /** From the biased scores to the experts, and whether the kernel goes on to use them. */
  method ChooseExperts(swb: seq<real>, nGroup: nat, topkGroup: nat, topk: nat, per: nat, sentinel: real)
    returns (idx: seq<int>, t: real, ghost gs: seq<real>, ghost chosen: seq<bool>)
    requires nGroup * per == |swb| && per > 0
    requires 1 <= topkGroup <= nGroup <= WARP_SIZE && 1 <= topk <= WARP_SIZE
    requires Routable(swb, nGroup, per, topkGroup, topk, sentinel)
    ensures |idx| == topk && |gs| == nGroup && GroupScores(swb, per, sentinel, gs)
    ensures AdmittedBy(gs, sentinel, topkGroup, chosen) && BestExperts(swb, chosen, per, idx) && InRange(idx, |swb|)
    ensures topkGroup < nGroup ==> (BestGroups(gs, chosen, topkGroup) <==> Fits(gs, sentinel, topkGroup))
    ensures t == sentinel <==> topkGroup == nGroup || Max(gs) == sentinel
  {
    hide BestGroups, IsTopK, Pool, GroupScores, BestExperts, AdmittedMask, Enough, Ends, Fits, AdmittedBy;
    var groupScores := ScoreGroups(swb, nGroup, per, sentinel);
    gs := groupScores;
    assert GroupsServe(swb, gs, per, topkGroup, topk, sentinel);
    var numEqual;
    t, numEqual := Threshold(groupScores, sentinel, topkGroup);
    chosen := AdmittedMask(gs, t, numEqual);
    ghost var out;
    idx, out := SelectExperts(groupScores, swb, per, t, numEqual, topk, sentinel);
    SelectionIsExact(swb, chosen, per, topk, sentinel, out, idx);
    ExpertsInRange(swb, chosen, per, idx);
  }

  /** invokeNoAuxTc for one token.  With fewer groups admitted than there are, the
      indices are exactly the best experts of the admitted groups, and these are the best
      groups if and only if the group scores fit.  When every group is admitted, or the
      best group scores exactly the sentinel, the kernel falls back to the first topk
      indices with equal weights. */
  method RouteToken(swb: seq<real>, scores: array<real>, nGroup: nat, topkGroup: nat, topk: nat, per: nat,
                    factor: real, sentinel: real)
    returns (topkIndices: seq<int>, topkValues: seq<real>, ghost gs: seq<real>, ghost chosen: seq<bool>,
             ghost sum: real)
    requires nGroup * per == |swb| == scores.Length && per > 0
    requires 1 <= topkGroup <= nGroup <= WARP_SIZE && 1 <= topk <= WARP_SIZE
    requires Routable(swb, nGroup, per, topkGroup, topk, sentinel) && NeverCancels(scores[..], topk)
    modifies scores
    ensures |topkIndices| == |topkValues| == topk && |gs| == nGroup && GroupScores(swb, per, sentinel, gs)
    ensures AdmittedBy(gs, sentinel, topkGroup, chosen)
    ensures topkGroup < nGroup && Max(gs) != sentinel ==>
      Routed(swb, per, chosen, old(scores[..]), scores[..], topkIndices, topkValues, factor, sum)
    ensures topkGroup < nGroup ==> (BestGroups(gs, chosen, topkGroup) <==> Fits(gs, sentinel, topkGroup))
    ensures topkGroup == nGroup || Max(gs) == sentinel ==>
      forall i :: 0 <= i < topk ==> topkIndices[i] == i && topkValues[i] == 1.0 / (topk as real)
  {
    hide BestGroups, GroupScores, BestExperts, Routable, Reweighed, SumAt, Fits, AdmittedBy;
    var idx, t;
    idx, t, gs, chosen := ChooseExperts(swb, nGroup, topkGroup, topk, per, sentinel);
    var weights;
    weights, sum := Reweigh(scores, idx, factor);
    assert |weights| == |idx| by { WeightsFit(old(scores[..]), scores[..], idx, weights, factor, sum); }
    if t != sentinel {
      topkIndices, topkValues := idx, weights;
    } else {
      topkIndices := seq(topk, i => i);
      topkValues := seq(topk, i => 1.0 / (topk as real));
    }
  }

  lemma WeightsFit(s0: seq<real>, s1: seq<real>, idx: seq<int>, weights: seq<real>, factor: real, sum: real)
    requires Reweighed(s0, s1, idx, weights, factor, sum)
    ensures |weights| == |idx|
  {}
}
