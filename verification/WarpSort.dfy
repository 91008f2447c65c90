/** BitonicMerge and BitonicSort of noauxtc_kernel.h, in place on a warp's
    registers.  Register i of lane l is cell i*32 + l of two parallel arrays, one
    for values and one for indices, which are swapped by separate stores. */
module WarpSort {
  import opened Ballots
  import opened BitonicNetwork

  /** The n candidates starting at cell lo. */
  ghost function Cells(vals: array<real>, idxs: array<int>, lo: nat, n: nat): (s: seq<Cand>)
    requires lo + n <= vals.Length && lo + n <= idxs.Length
    reads vals, idxs
    ensures |s| == n
    ensures forall p :: 0 <= p < n ==> s[p] == Cand(vals[lo + p], idxs[lo + p])
  {
    seq(n, p requires 0 <= p < n reads vals, idxs => Cand(vals[lo + p], idxs[lo + p]))
  }

  /** Nothing outside cells [lo, lo + n) differs from the given contents. */
  ghost predicate OnlyCells(vals: array<real>, idxs: array<int>, v0: seq<real>, i0: seq<int>, lo: nat, n: nat)
    reads vals, idxs
  {
    |v0| == vals.Length && |i0| == idxs.Length &&
    forall p :: 0 <= p < vals.Length && p < idxs.Length && !(lo <= p < lo + n) ==> vals[p] == v0[p] && idxs[p] == i0[p]
  }

  /** One __shfl_xor_sync exchange inside a 32-lane merge: each lane reads its
      partner's value as it was before the step and decides on its own. */
  method MergeExchange(vals: array<real>, idxs: array<int>, lo: nat, stride: nat, ascending: bool)
    requires vals.Length == idxs.Length && lo + WARP_SIZE <= vals.Length
    requires IsPow2(stride) && 2 * stride <= WARP_SIZE
    modifies vals, idxs
    ensures LaneStep(old(Cells(vals, idxs, lo, WARP_SIZE)), Cells(vals, idxs, lo, WARP_SIZE), stride, ascending)
    ensures OnlyCells(vals, idxs, old(vals[..]), old(idxs[..]), lo, WARP_SIZE)
  {
    hide IsSecond, Partner;
    var v0, i0 := vals[..], idxs[..];
    ghost var s := Cells(vals, idxs, lo, WARP_SIZE);
    ghost var goal := seq(WARP_SIZE, p requires 0 <= p < WARP_SIZE => After(s, p, stride, ascending));
    for lane := 0 to WARP_SIZE
      invariant OnlyCells(vals, idxs, v0, i0, lo, lane)
      invariant forall a :: lo <= a < lo + lane ==> Cand(vals[a], idxs[a]) == goal[a - lo]
    {
      LanePartner(lane, stride);
      var isSecond := IsSecond(lane, stride);
      var other, otherIdx := v0[lo + Partner(lane, stride)], i0[lo + Partner(lane, stride)];
      var val := vals[lo + lane];
      if val != other && ((val > other) == (ascending != isSecond)) {
        vals[lo + lane] := other;
        idxs[lo + lane] := otherIdx;
      }
    }
    assert Cells(vals, idxs, lo, WARP_SIZE) == goal;
    forall p | 0 <= p < WARP_SIZE ensures LaneMove(s, goal, p, stride, ascending) {
      LanePartner(p, stride);
    }
  }

  /** The same exchange inside a sorting stage, where the direction of a lane
      comes from bit stage+1 of its number: (lane >> stage) & 2. */
  method StageExchange(vals: array<real>, idxs: array<int>, lo: nat, stride: nat, region: nat)
    requires vals.Length == idxs.Length && lo + WARP_SIZE <= vals.Length
    requires IsPow2(stride) && 2 * stride <= region <= WARP_SIZE
    modifies vals, idxs
    ensures StageStep(old(Cells(vals, idxs, lo, WARP_SIZE)), Cells(vals, idxs, lo, WARP_SIZE), stride, region)
    ensures OnlyCells(vals, idxs, old(vals[..]), old(idxs[..]), lo, WARP_SIZE)
  {
    hide IsSecond, Partner;
    var v0, i0 := vals[..], idxs[..];
    ghost var s := Cells(vals, idxs, lo, WARP_SIZE);
    ghost var goal := seq(WARP_SIZE, p requires 0 <= p < WARP_SIZE => After(s, p, stride, !IsSecond(p, region)));
    for lane := 0 to WARP_SIZE
      invariant OnlyCells(vals, idxs, v0, i0, lo, lane)
      invariant forall a :: lo <= a < lo + lane ==> Cand(vals[a], idxs[a]) == goal[a - lo]
    {
      LanePartner(lane, stride);
      var reverse := IsSecond(lane, region);
      var isSecond := IsSecond(lane, stride);
      var other, otherIdx := v0[lo + Partner(lane, stride)], i0[lo + Partner(lane, stride)];
      var val := vals[lo + lane];
      if val != other && (val > other) != (reverse != isSecond) {
        vals[lo + lane] := other;
        idxs[lo + lane] := otherIdx;
      }
    }
    assert Cells(vals, idxs, lo, WARP_SIZE) == goal;
    forall p | 0 <= p < WARP_SIZE ensures LaneMove(s, goal, p, stride, !IsSecond(p, region))
    {
      LanePartner(p, stride);
    }
  }

  lemma LanePartner(lane: nat, stride: nat)
    requires lane < WARP_SIZE && IsPow2(stride) && 2 * stride <= WARP_SIZE
    ensures 0 <= Partner(lane, stride) < WARP_SIZE
  {
    assert IsPow2(4) && IsPow2(32);
    PartnerFits(lane, WARP_SIZE, stride);
  }

  /** BitonicMerge<32>: strides 16, 8, 4, 2, 1 across the lanes. */
  method MergeWarp(vals: array<real>, idxs: array<int>, lo: nat, ascending: bool)
    requires vals.Length == idxs.Length && lo + WARP_SIZE <= vals.Length
    requires Bitonic(Cells(vals, idxs, lo, WARP_SIZE))
    modifies vals, idxs
    ensures Sorted(Cells(vals, idxs, lo, WARP_SIZE), ascending)
    ensures multiset(Cells(vals, idxs, lo, WARP_SIZE)) == old(multiset(Cells(vals, idxs, lo, WARP_SIZE)))
    ensures OnlyCells(vals, idxs, old(vals[..]), old(idxs[..]), lo, WARP_SIZE)
  {
    var stride := WARP_SIZE / 2;
    ghost var blk := WARP_SIZE;
    assert IsPow2(4) && IsPow2(16);
    while stride > 0
      invariant blk == if stride > 0 then 2 * stride else 1
      invariant stride > 0 ==> IsPow2(stride) && blk <= WARP_SIZE
      invariant Merging(Cells(vals, idxs, lo, WARP_SIZE), blk, ascending)
      invariant multiset(Cells(vals, idxs, lo, WARP_SIZE)) == old(multiset(Cells(vals, idxs, lo, WARP_SIZE)))
      invariant OnlyCells(vals, idxs, old(vals[..]), old(idxs[..]), lo, WARP_SIZE)
    {
      ghost var s := Cells(vals, idxs, lo, WARP_SIZE);
      MergeExchange(vals, idxs, lo, stride, ascending);
      MergingStep(s, Cells(vals, idxs, lo, WARP_SIZE), stride, ascending);
      blk := stride;
      stride := stride / 2;
    }
    MergedIsSorted(Cells(vals, idxs, lo, WARP_SIZE), ascending);
  }

  /** BitonicSort<32>: four stages that leave 16 up and 16 down, then a merge. */
  method SortWarp(vals: array<real>, idxs: array<int>, lo: nat, ascending: bool)
    requires vals.Length == idxs.Length && lo + WARP_SIZE <= vals.Length
    modifies vals, idxs
    ensures Sorted(Cells(vals, idxs, lo, WARP_SIZE), ascending)
    ensures multiset(Cells(vals, idxs, lo, WARP_SIZE)) == old(multiset(Cells(vals, idxs, lo, WARP_SIZE)))
    ensures OnlyCells(vals, idxs, old(vals[..]), old(idxs[..]), lo, WARP_SIZE)
  {
    RunsOfOne(Cells(vals, idxs, lo, WARP_SIZE), true);
    var half := 1;  // 1 << stage
    for stage := 0 to 4
      invariant half == if stage == 0 then 1 else if stage == 1 then 2 else if stage == 2 then 4
                        else if stage == 3 then 8 else 16
      invariant Runs(Cells(vals, idxs, lo, WARP_SIZE), half, true)
      invariant multiset(Cells(vals, idxs, lo, WARP_SIZE)) == old(multiset(Cells(vals, idxs, lo, WARP_SIZE)))
      invariant OnlyCells(vals, idxs, old(vals[..]), old(idxs[..]), lo, WARP_SIZE)
    {
      SortStage(vals, idxs, lo, half);
      half := 2 * half;
    }
    ghost var s := Cells(vals, idxs, lo, WARP_SIZE);
    UpDownBitonic(s[..16], s[16..], true);
    assert s == s[..16] + s[16..];
    MergeWarp(vals, idxs, lo, ascending);
  }

  /** One stage: runs of length half become runs of twice that length. */
  method SortStage(vals: array<real>, idxs: array<int>, lo: nat, half: nat)
    requires vals.Length == idxs.Length && lo + WARP_SIZE <= vals.Length
    requires IsPow2(half) && 4 * half <= WARP_SIZE
    requires Runs(Cells(vals, idxs, lo, WARP_SIZE), half, true)
    modifies vals, idxs
    ensures Runs(Cells(vals, idxs, lo, WARP_SIZE), 2 * half, true)
    ensures multiset(Cells(vals, idxs, lo, WARP_SIZE)) == old(multiset(Cells(vals, idxs, lo, WARP_SIZE)))
    ensures OnlyCells(vals, idxs, old(vals[..]), old(idxs[..]), lo, WARP_SIZE)
  {
    hide Runs, Stage, StageStep;
    StageStart(Cells(vals, idxs, lo, WARP_SIZE), half, true);
    var stride := half;
    ghost var blk := 2 * half;
    while stride > 0
      invariant blk == if stride > 0 then 2 * stride else 1
      invariant stride > 0 ==> IsPow2(stride) && blk <= 2 * half
      invariant Stage(Cells(vals, idxs, lo, WARP_SIZE), 2 * half, blk, true)
      invariant multiset(Cells(vals, idxs, lo, WARP_SIZE)) == old(multiset(Cells(vals, idxs, lo, WARP_SIZE)))
      invariant OnlyCells(vals, idxs, old(vals[..]), old(idxs[..]), lo, WARP_SIZE)
    {
      ghost var s := Cells(vals, idxs, lo, WARP_SIZE);
      StageExchange(vals, idxs, lo, stride, 2 * half);
      StageStepKeeps(s, Cells(vals, idxs, lo, WARP_SIZE), stride, 2 * half, true);
      blk := stride;
      stride := stride / 2;
    }
    StageEnd(Cells(vals, idxs, lo, WARP_SIZE), 2 * half, true);
  }

  lemma {:induction false} RunsOfOne(s: seq<Cand>, asc: bool)
    ensures Runs(s, 1, asc)
    decreases |s|
  {
    if |s| > 1 {
      RunsOfOne(s[..|s| / 2], true);
      RunsOfOne(s[|s| / 2..], false);
    }
  }

  /** One lane's compare-and-swap of two of its own registers. */
  method CompareSwap(vals: array<real>, idxs: array<int>, i: nat, otherI: nat, ascending: bool)
    requires vals.Length == idxs.Length && i < otherI < vals.Length
    modifies vals, idxs
    ensures var took := Takes(old(vals[i]), old(vals[otherI]), ascending, false);
      vals[i] == old(if took then vals[otherI] else vals[i]) &&
      idxs[i] == old(if took then idxs[otherI] else idxs[i]) &&
      vals[otherI] == old(if took then vals[i] else vals[otherI]) &&
      idxs[otherI] == old(if took then idxs[i] else idxs[otherI])
    ensures forall a :: 0 <= a < vals.Length && a != i && a != otherI ==>
      vals[a] == old(vals[a]) && idxs[a] == old(idxs[a])
  {
    if (vals[i] > vals[otherI] && ascending) || (vals[i] < vals[otherI] && !ascending) {
      var tmp := vals[i];
      vals[i] := vals[otherI];
      vals[otherI] := tmp;
      var tmp2 := idxs[i];
      idxs[i] := idxs[otherI];
      idxs[otherI] := tmp2;
    }
  }

  /** The first p pairs of the stretch hold the goal, the others still hold s. */
  ghost predicate PairsDone(vals: array<real>, idxs: array<int>, lo: nat, half: nat, p: nat, s: seq<Cand>,
                            goal: seq<Cand>)
    reads vals, idxs
  {
    vals.Length == idxs.Length && lo + 2 * half <= vals.Length && |s| == |goal| == 2 * half && p <= half &&
    (forall a :: lo <= a < lo + p ==> Cand(vals[a], idxs[a]) == goal[a - lo]) &&
    (forall a :: lo + half <= a < lo + half + p ==> Cand(vals[a], idxs[a]) == goal[a - lo]) &&
    (forall a :: lo + p <= a < lo + half ==> Cand(vals[a], idxs[a]) == s[a - lo]) &&
    (forall a :: lo + half + p <= a < lo + 2 * half ==> Cand(vals[a], idxs[a]) == s[a - lo])
  }

  method CleanPair(vals: array<real>, idxs: array<int>, lo: nat, half: nat, p: nat, ascending: bool,
                   ghost s: seq<Cand>, ghost goal: seq<Cand>)
    requires PairsDone(vals, idxs, lo, half, p, s, goal) && p < half && PairCleaned(s, goal, p, half, ascending)
    modifies vals, idxs
    ensures PairsDone(vals, idxs, lo, half, p + 1, s, goal)
    ensures OnlyCells(vals, idxs, old(vals[..]), old(idxs[..]), lo, 2 * half)
  {
    assert Cand(vals[lo + p], idxs[lo + p]) == s[p];
    assert Cand(vals[lo + p + half], idxs[lo + p + half]) == s[p + half];
    CompareSwap(vals, idxs, lo + p, lo + p + half, ascending);
    assert Cand(vals[lo + p], idxs[lo + p]) == goal[p];
    assert Cand(vals[lo + p + half], idxs[lo + p + half]) == goal[p + half];
  }

  /** The first loop of BitonicMerge<size> for size >= 64: register i against
      register i + stride of the same lane, which is cell p against p + size/2. */
  method HalfClean(vals: array<real>, idxs: array<int>, lo: nat, half: nat, ascending: bool)
    requires vals.Length == idxs.Length && lo + 2 * half <= vals.Length
    modifies vals, idxs
    ensures HalfCleaned(old(Cells(vals, idxs, lo, 2 * half)), Cells(vals, idxs, lo, 2 * half), half, ascending)
    ensures OnlyCells(vals, idxs, old(vals[..]), old(idxs[..]), lo, 2 * half)
  {
    ghost var s := Cells(vals, idxs, lo, 2 * half);
    ghost var goal := Cleaned(s, half, ascending);
    for p := 0 to half
      invariant OnlyCells(vals, idxs, old(vals[..]), old(idxs[..]), lo, 2 * half)
      invariant PairsDone(vals, idxs, lo, half, p, s, goal)
    {
      assert PairCleaned(s, goal, p, half, ascending);
      CleanPair(vals, idxs, lo, half, p, ascending, s, goal);
    }
    assert Cells(vals, idxs, lo, 2 * half) == goal;
  }

  ghost function Cleaned(s: seq<Cand>, h: nat, asc: bool): (t: seq<Cand>)
    requires |s| == 2 * h
    ensures HalfCleaned(s, t, h, asc)
  {
    var swaps := p requires 0 <= p < h => Takes(s[p].val, s[p + h].val, asc, false);
    var lower := seq(h, p requires 0 <= p < h => if swaps(p) then s[p + h] else s[p]);
    var upper := seq(h, p requires 0 <= p < h => if swaps(p) then s[p] else s[p + h]);
    lower + upper
  }

  /** The half-cleaner leaves two bitonic halves on the right sides of each other. */
  method SplitBitonic(vals: array<real>, idxs: array<int>, lo: nat, half: nat, ascending: bool)
    requires vals.Length == idxs.Length && lo + 2 * half <= vals.Length
    requires Bitonic(Cells(vals, idxs, lo, 2 * half))
    modifies vals, idxs
    ensures Bitonic(Cells(vals, idxs, lo, half)) && Bitonic(Cells(vals, idxs, lo + half, half))
    ensures Ordered(Cells(vals, idxs, lo, half), Cells(vals, idxs, lo + half, half), ascending)
    ensures multiset(Cells(vals, idxs, lo, 2 * half)) == old(multiset(Cells(vals, idxs, lo, 2 * half)))
    ensures OnlyCells(vals, idxs, old(vals[..]), old(idxs[..]), lo, 2 * half)
  {
    ghost var s := Cells(vals, idxs, lo, 2 * half);
    HalfClean(vals, idxs, lo, half, ascending);
    ghost var t := Cells(vals, idxs, lo, 2 * half);
    HalfCleanKeeps(s, t, half, ascending);
    HalfCleanPermutes(s, t, half, ascending);
    assert t[..half] == Cells(vals, idxs, lo, half);
    assert t[half..] == Cells(vals, idxs, lo + half, half);
  }

  lemma CellsHalves(vals: array<real>, idxs: array<int>, lo: nat, half: nat)
    requires vals.Length == idxs.Length && lo + 2 * half <= vals.Length
    ensures Cells(vals, idxs, lo, 2 * half) == Cells(vals, idxs, lo, half) + Cells(vals, idxs, lo + half, half)
  {}

  /** BitonicMerge<size>: a bitonic stretch becomes sorted, its pairs kept. */
  method Merge(vals: array<real>, idxs: array<int>, lo: nat, size: nat, ascending: bool)
    requires vals.Length == idxs.Length && lo + size <= vals.Length
    requires IsPow2(size) && size >= WARP_SIZE
    requires Bitonic(Cells(vals, idxs, lo, size))
    modifies vals, idxs
    ensures Sorted(Cells(vals, idxs, lo, size), ascending)
    ensures multiset(Cells(vals, idxs, lo, size)) == old(multiset(Cells(vals, idxs, lo, size)))
    ensures OnlyCells(vals, idxs, old(vals[..]), old(idxs[..]), lo, size)
    decreases size, 1
  {
    if size == WARP_SIZE {
      MergeWarp(vals, idxs, lo, ascending);
    } else {
      HalfSize(size);
      SplitBitonic(vals, idxs, lo, size / 2, ascending);
      MergeHalves(vals, idxs, lo, size / 2, ascending);
    }
  }

  /** The two recursive calls of BitonicMerge<size>, on disjoint registers. */
  method MergeHalves(vals: array<real>, idxs: array<int>, lo: nat, half: nat, ascending: bool)
    requires vals.Length == idxs.Length && lo + 2 * half <= vals.Length
    requires IsPow2(half) && half >= WARP_SIZE
    requires Bitonic(Cells(vals, idxs, lo, half)) && Bitonic(Cells(vals, idxs, lo + half, half))
    requires Ordered(Cells(vals, idxs, lo, half), Cells(vals, idxs, lo + half, half), ascending)
    modifies vals, idxs
    ensures Sorted(Cells(vals, idxs, lo, 2 * half), ascending)
    ensures multiset(Cells(vals, idxs, lo, 2 * half)) == old(multiset(Cells(vals, idxs, lo, 2 * half)))
    ensures OnlyCells(vals, idxs, old(vals[..]), old(idxs[..]), lo, 2 * half)
    decreases 2 * half, 0
  {
    ghost var c, d := Cells(vals, idxs, lo, half), Cells(vals, idxs, lo + half, half);
    CellsHalves(vals, idxs, lo, half);
    Merge(vals, idxs, lo, half, ascending);
    ghost var a := Cells(vals, idxs, lo, half);
    assert Cells(vals, idxs, lo + half, half) == d;
    Merge(vals, idxs, lo + half, half, ascending);
    ghost var b := Cells(vals, idxs, lo + half, half);
    assert Cells(vals, idxs, lo, half) == a;
    CellsHalves(vals, idxs, lo, half);
    JoinHalves(c, d, a, b, ascending);
  }

  lemma HalfSize(size: nat)
    requires IsPow2(size) && size > WARP_SIZE
    ensures IsPow2(size / 2) && size / 2 >= WARP_SIZE && size == 2 * (size / 2)
  {
    assert IsPow2(32) by { assert IsPow2(4); }
    Pow2Gap(WARP_SIZE, size);
  }

  /** BitonicSort<size>: any stretch whose length is a power of two from 32 up
      becomes sorted in the requested direction, its pairs kept. */
  method Sort(vals: array<real>, idxs: array<int>, lo: nat, size: nat, ascending: bool)
    requires vals.Length == idxs.Length && lo + size <= vals.Length
    requires IsPow2(size) && size >= WARP_SIZE
    modifies vals, idxs
    ensures Sorted(Cells(vals, idxs, lo, size), ascending)
    ensures multiset(Cells(vals, idxs, lo, size)) == old(multiset(Cells(vals, idxs, lo, size)))
    ensures OnlyCells(vals, idxs, old(vals[..]), old(idxs[..]), lo, size)
    decreases size
  {
    if size == WARP_SIZE {
      SortWarp(vals, idxs, lo, ascending);
    } else {
      HalfSize(size);
      var half := size / 2;
      ghost var c, d := Cells(vals, idxs, lo, half), Cells(vals, idxs, lo + half, half);
      CellsHalves(vals, idxs, lo, half);
      Sort(vals, idxs, lo, half, true);
      ghost var a := Cells(vals, idxs, lo, half);
      assert Cells(vals, idxs, lo + half, half) == d;
      Sort(vals, idxs, lo + half, half, false);
      ghost var b := Cells(vals, idxs, lo + half, half);
      assert Cells(vals, idxs, lo, half) == a;
      UpDownBitonic(a, b, true);
      CellsHalves(vals, idxs, lo, half);
      Merge(vals, idxs, lo, size, ascending);
    }
  }
}
