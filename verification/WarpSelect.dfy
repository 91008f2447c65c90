/** class WarpSelect of noauxtc_kernel.h (greater = true): a streaming top-k that
    filters candidates by the current k-th value, buffers the survivors by ballot
    and popcount, and merges a full buffer into the sorted registers. */
module WarpSelect {
  import opened BitonicNetwork
  import opened TopK
  import opened Ballots
  import WarpSort

  /** __ballot_sync(do_add): bit l tells whether lane l's candidate passes. */
  function Ballot(cands: seq<Cand>, kTh: real): (mask: seq<bool>)
    ensures |mask| == |cands|
  {
    seq(|cands|, l requires 0 <= l < |cands| => cands[l].val > kTh)
  }

  /** The passing candidates of the lowest n lanes, in lane order. */
  ghost function Accepted(cands: seq<Cand>, kTh: real, n: nat): seq<Cand>
    requires n <= |cands|
  {
    if n == 0 then []
    else if cands[n - 1].val > kTh then Accepted(cands, kTh, n - 1) + [cands[n - 1]]
    else Accepted(cands, kTh, n - 1)
  }

  ghost function Rejected(cands: seq<Cand>, kTh: real, n: nat): seq<Cand>
    requires n <= |cands|
  {
    if n == 0 then []
    else if cands[n - 1].val > kTh then Rejected(cands, kTh, n - 1)
    else Rejected(cands, kTh, n - 1) + [cands[n - 1]]
  }

  lemma CountAppended(s: seq<Cand>, last: Cand, c: Cand)
    ensures multiset(s + [last])[c] == multiset(s)[c] + if last == c then 1 else 0
  {}

  lemma {:induction false} FilterSplits(cands: seq<Cand>, kTh: real, n: nat, c: Cand)
    requires n <= |cands|
    ensures multiset(Accepted(cands, kTh, n))[c] + multiset(Rejected(cands, kTh, n))[c] == multiset(cands[..n])[c]
  {
    if n > 0 {
      FilterSplits(cands, kTh, n - 1, c);
      assert cands[..n] == cands[..n - 1] + [cands[n - 1]];
      CountAppended(cands[..n - 1], cands[n - 1], c);
      if cands[n - 1].val > kTh {
        CountAppended(Accepted(cands, kTh, n - 1), cands[n - 1], c);
      } else {
        CountAppended(Rejected(cands, kTh, n - 1), cands[n - 1], c);
      }
    }
  }

  lemma {:induction false} RejectedAreLow(cands: seq<Cand>, kTh: real, n: nat)
    requires n <= |cands|
    ensures forall c :: c in Rejected(cands, kTh, n) ==> c.val <= kTh
  {
    if n > 0 {
      RejectedAreLow(cands, kTh, n - 1);
    }
  }

  /** The popcount below a lane is how many candidates precede it. */
  lemma {:induction false} RankOfLane(cands: seq<Cand>, kTh: real, n: nat, m: nat)
    requires n <= m <= |cands|
    ensures Popc(Ballot(cands, kTh), n) == |Accepted(cands, kTh, n)| <= |Accepted(cands, kTh, m)| <= m
    ensures Accepted(cands, kTh, m)[..|Accepted(cands, kTh, n)|] == Accepted(cands, kTh, n)
    decreases m
  {
    if n < m {
      RankOfLane(cands, kTh, n, m - 1);
    } else if n > 0 {
      RankOfLane(cands, kTh, n - 1, n - 1);
    }
  }

  // ---------- where every candidate is ----------

  /** Each candidate above dummy that was seen is in the registers, waiting in
      the buffer, or dropped. */
  ghost predicate Accounts(seen: multiset<Cand>, regs: multiset<Cand>, buf: multiset<Cand>, lost: multiset<Cand>,
                           dummy: real) {
    forall c: Cand :: c.val > dummy ==> seen[c] == regs[c] + buf[c] + lost[c]
  }

  lemma AccountsAdd(seen: multiset<Cand>, regs: multiset<Cand>, buf: seq<Cand>, lost: multiset<Cand>, dummy: real,
                    cands: seq<Cand>, kTh: real)
    requires Accounts(seen, regs, multiset(buf), lost, dummy)
    ensures var acc, rej := Accepted(cands, kTh, |cands|), Rejected(cands, kTh, |cands|);
      Accounts(seen + multiset(cands), regs, multiset(buf + acc), lost + multiset(rej), dummy)
  {
    assert cands[..|cands|] == cands;
    var acc, rej := Accepted(cands, kTh, |cands|), Rejected(cands, kTh, |cands|);
    forall c: Cand | c.val > dummy
      ensures (seen + multiset(cands))[c] == regs[c] + multiset(buf + acc)[c] + (lost + multiset(rej))[c]
    {
      FilterSplits(cands, kTh, |cands|, c);
    }
  }

  /** Merging the candidates of full into the registers and dropping some; those
      of filler have no value above dummy. */
  lemma AccountsFlush(seen: multiset<Cand>, regs: multiset<Cand>, full: multiset<Cand>, rest: multiset<Cand>,
                      lost: multiset<Cand>, dummy: real, filler: multiset<Cand>, after: multiset<Cand>,
                      dropped: multiset<Cand>)
    requires Accounts(seen, regs, full + rest, lost, dummy)
    requires after + dropped == regs + (full + filler)
    requires forall c :: c in filler ==> c.val <= dummy
    ensures Accounts(seen, after, rest, lost + dropped, dummy)
  {
    forall c: Cand | c.val > dummy ensures seen[c] == after[c] + rest[c] + (lost + dropped)[c] {
      assert filler[c] == 0;
      assert (after + dropped)[c] == (regs + (full + filler))[c];
    }
  }

  /** The registers are sorted and hold no less than dummy; whatever was dropped
      is no better than the register that gives the filter its value. */
  ghost predicate Best(regs: seq<Cand>, lost: multiset<Cand>, dummy: real, kTh: real, cell: nat) {
    Sorted(regs, false) && (forall c :: c in regs ==> c.val >= dummy) &&
    cell < |regs| && kTh == regs[cell].val && (forall c :: c in lost ==> c.val <= kTh)
  }

  lemma BestIsMergeable(regs: seq<Cand>, b: seq<Cand>, lost: multiset<Cand>, dummy: real, kTh: real, cell: nat)
    requires Best(regs, lost, dummy, kTh, cell) && |b| <= |regs| && Sorted(b, true)
    ensures Bitonic(Improved(regs, b))
  {
    ImprovedIsBest(regs, b);
  }

  lemma BestAfterMerge(regs: seq<Cand>, b: seq<Cand>, after: seq<Cand>, lost: multiset<Cand>, dummy: real, kTh: real,
                       cell: nat)
    requires Best(regs, lost, dummy, kTh, cell)
    requires |b| <= |regs| && Sorted(b, true) && Sorted(after, false)
    requires multiset(after) == multiset(Improved(regs, b))
    ensures |after| == |regs|
    ensures Best(after, lost + multiset(Displaced(regs, b)), dummy, after[cell].val, cell)
    ensures multiset(after) + multiset(Displaced(regs, b)) == multiset(regs) + multiset(b)
  {
    ImprovedIsBest(regs, b);
    ImprovedKeepsAll(regs, b);
    PositionsRise(regs, b, after, cell);
    KeptAreHigh(regs, b, after, dummy);
    DroppedAreLow(regs, b, after, cell);
  }

  lemma KeptAreHigh(regs: seq<Cand>, b: seq<Cand>, after: seq<Cand>, dummy: real)
    requires |b| <= |regs| && multiset(after) == multiset(Improved(regs, b))
    requires forall c :: c in regs ==> c.val >= dummy
    ensures forall c :: c in after ==> c.val >= dummy
  {
    var mid := Improved(regs, b);
    forall c | c in after ensures c.val >= dummy {
      assert c in multiset(mid);
      var p :| 0 <= p < |mid| && mid[p] == c;
      assert regs[p] in regs;
    }
  }

  lemma DroppedAreLow(regs: seq<Cand>, b: seq<Cand>, after: seq<Cand>, cell: nat)
    requires |b| <= |regs| && cell < |after| && multiset(after) == multiset(Improved(regs, b))
    requires Ordered(Improved(regs, b), Displaced(regs, b), false)
    ensures forall c :: c in multiset(Displaced(regs, b)) ==> c.val <= after[cell].val
  {
    assert after[cell] in multiset(Improved(regs, b));
    forall c | c in multiset(Displaced(regs, b)) ensures c.val <= after[cell].val {
      assert Before(after[cell], c, false);
    }
  }

  class Queue {
    const capacity: nat
    const k: nat
    const dummy: real
    const kThCell: nat  // register max_arr_len_-1 of lane (k-1) % 32

    const vals: array<real>
    const idxs: array<int>
    const valSmem: array<real>
    const idxSmem: array<int>
    var smemBufLen: nat
    var kTh: real

    ghost var seen: multiset<Cand>  // every candidate added so far
    ghost var lost: multiset<Cand>  // those dropped, by the filter or by a merge

    ghost function Regs(): (s: seq<Cand>)
      requires vals.Length == idxs.Length
      reads vals, idxs
      ensures |s| == vals.Length
    {
      WarpSort.Cells(vals, idxs, 0, vals.Length)
    }

    ghost function Buffered(n: nat): (s: seq<Cand>)
      requires n <= valSmem.Length == idxSmem.Length
      reads valSmem, idxSmem
      ensures |s| == n
    {
      WarpSort.Cells(valSmem, idxSmem, 0, n)
    }

    ghost predicate Shape() {
      IsPow2(capacity) && WARP_SIZE <= capacity && 1 <= k <= capacity &&
      vals.Length == idxs.Length == capacity && valSmem.Length == idxSmem.Length == WARP_SIZE &&
      vals != valSmem && idxs != idxSmem &&
      kThCell == capacity - WARP_SIZE + (k - 1) % WARP_SIZE
    }

    ghost predicate Sound()
      reads this, vals, idxs
    {
      Shape() && Best(Regs(), lost, dummy, kTh, kThCell)
    }

    ghost predicate Accounted(buf: multiset<Cand>)
      requires Shape()
      reads this, vals, idxs
    {
      Accounts(seen, multiset(Regs()), buf, lost, dummy)
    }

    ghost predicate Valid()
      reads this, vals, idxs, valSmem, idxSmem
    {
      Sound() && smemBufLen < WARP_SIZE && Accounted(multiset(Buffered(smemBufLen)))
    }

    constructor (capacity: nat, k: nat, dummy: real)
      requires IsPow2(capacity) && WARP_SIZE <= capacity && 1 <= k <= capacity
      ensures Valid() && seen == multiset{} && this.k == k && this.dummy == dummy && this.capacity == capacity
      ensures fresh(vals) && fresh(idxs) && fresh(valSmem) && fresh(idxSmem)
    {
      this.capacity, this.k, this.dummy := capacity, k, dummy;
      kThCell := capacity - WARP_SIZE + (k - 1) % WARP_SIZE;
      vals := new real[capacity](_ => dummy);
      idxs := new int[capacity];
      valSmem := new real[WARP_SIZE];
      idxSmem := new int[WARP_SIZE];
      smemBufLen, kTh := 0, dummy;
      seen, lost := multiset{}, multiset{};
      new;
      forall c: Cand | c.val > dummy ensures multiset(Regs())[c] == 0 {
        assert c !in Regs();
      }
    }

    /** merge_buf_: sort the 32 offered candidates, let each replace its opposite
        in the last register row if better, and re-sort the registers. */
    method MergeBuf(bv: array<real>, bi: array<int>) returns (ghost dropped: multiset<Cand>)
      requires Sound() && bv.Length == bi.Length == WARP_SIZE
      requires bv != vals && bi != idxs
      modifies vals, idxs, bv, bi, `kTh
      ensures Shape() && Best(Regs(), lost + dropped, dummy, kTh, kThCell)
      ensures multiset(Regs()) + dropped == old(multiset(Regs())) + old(multiset(WarpSort.Cells(bv, bi, 0, WARP_SIZE)))
    {
      hide Bitonic, Sorted, Best;
      ghost var regs := Regs();
      assert IsPow2(32) by { assert IsPow2(4); }
      WarpSort.Sort(bv, bi, 0, WARP_SIZE, true);
      ghost var b := WarpSort.Cells(bv, bi, 0, WARP_SIZE);
      assert Regs() == regs;
      Replace(bv, bi);
      BestIsMergeable(regs, b, lost, dummy, kTh, kThCell);
      WarpSort.Merge(vals, idxs, 0, capacity, false);
      kTh := vals[kThCell];
      dropped := multiset(Displaced(regs, b));
      BestAfterMerge(regs, b, Regs(), lost, dummy, old(kTh), kThCell);
    }

    /** The elementwise replacement in the last register row. */
    method Replace(bv: array<real>, bi: array<int>)
      requires Shape() && bv.Length == bi.Length == WARP_SIZE && bv != vals && bi != idxs
      modifies vals, idxs
      ensures Regs() == Improved(old(Regs()), old(WarpSort.Cells(bv, bi, 0, WARP_SIZE)))
    {
      ghost var regs, b := Regs(), WarpSort.Cells(bv, bi, 0, WARP_SIZE);
      ghost var goal := Improved(regs, b);
      var off := capacity - WARP_SIZE;
      for lane := 0 to WARP_SIZE
        invariant forall a :: 0 <= a < off + lane ==> Cand(vals[a], idxs[a]) == goal[a]
        invariant forall a :: off + lane <= a < capacity ==> Cand(vals[a], idxs[a]) == regs[a]
        invariant forall a :: 0 <= a < WARP_SIZE ==> Cand(bv[a], bi[a]) == b[a]
      {
        if bv[lane] > vals[off + lane] {
          vals[off + lane] := bv[lane];
          idxs[off + lane] := bi[lane];
        }
      }
      assert Regs() == goal;
    }

    /** The stores before the merge: passing lanes whose slot is below 32. */
    method StoreFirst(cands: seq<Cand>, mask: seq<bool>)
      requires Shape() && |cands| == WARP_SIZE && mask == Ballot(cands, kTh) && smemBufLen < WARP_SIZE
      modifies valSmem, idxSmem
      ensures var whole := old(Buffered(smemBufLen)) + Accepted(cands, kTh, WARP_SIZE);
        if |whole| >= WARP_SIZE then Buffered(WARP_SIZE) == whole[..WARP_SIZE] else Buffered(|whole|) == whole
    {
      ghost var whole := Buffered(smemBufLen) + Accepted(cands, kTh, WARP_SIZE);
      for lane := 0 to WARP_SIZE
        invariant forall a :: 0 <= a < smemBufLen + |Accepted(cands, kTh, lane)| && a < WARP_SIZE && a < |whole| ==>
          Cand(valSmem[a], idxSmem[a]) == whole[a]
      {
        RankOfLane(cands, kTh, lane, WARP_SIZE);
        RankOfLane(cands, kTh, lane + 1, WARP_SIZE);
        var pos := smemBufLen + Popc(mask, lane);
        if mask[lane] && pos < WARP_SIZE {
          SlotOfLane(cands, kTh, lane);
          valSmem[pos] := cands[lane].val;
          idxSmem[pos] := cands[lane].idx;
        }
      }
    }

    /** The stores after the merge: the others, 32 slots lower. */
    method StoreRest(cands: seq<Cand>, mask: seq<bool>, ghost kThWas: real, buffered: nat, ghost buf: seq<Cand>)
      requires Shape() && |cands| == WARP_SIZE && mask == Ballot(cands, kThWas) && |buf| == buffered < WARP_SIZE
      modifies valSmem, idxSmem
      ensures var whole := buf + Accepted(cands, kThWas, WARP_SIZE);
        if |whole| >= WARP_SIZE then |whole| < 2 * WARP_SIZE && Buffered(|whole| - WARP_SIZE) == whole[WARP_SIZE..]
        else valSmem[..] == old(valSmem[..]) && idxSmem[..] == old(idxSmem[..])
    {
      ghost var whole := buf + Accepted(cands, kThWas, WARP_SIZE);
      RankOfLane(cands, kThWas, WARP_SIZE, WARP_SIZE);
      for lane := 0 to WARP_SIZE
        invariant forall a ::
          0 <= a < buffered + |Accepted(cands, kThWas, lane)| - WARP_SIZE && a < |whole| - WARP_SIZE ==>
          a < WARP_SIZE && Cand(valSmem[a], idxSmem[a]) == whole[a + WARP_SIZE]
        invariant |whole| < WARP_SIZE ==> valSmem[..] == old(valSmem[..]) && idxSmem[..] == old(idxSmem[..])
      {
        RankOfLane(cands, kThWas, lane, WARP_SIZE);
        RankOfLane(cands, kThWas, lane + 1, WARP_SIZE);
        var pos := buffered + Popc(mask, lane);
        if mask[lane] && pos >= WARP_SIZE {
          SlotOfLane(cands, kThWas, lane);
          pos := pos - WARP_SIZE;
          valSmem[pos] := cands[lane].val;
          idxSmem[pos] := cands[lane].idx;
        }
      }
    }

    /** add(val, idx) of the whole warp: lane l offers cands[l]. */
    method Add(cands: seq<Cand>)
      requires Valid() && |cands| == WARP_SIZE
      modifies this, vals, idxs, valSmem, idxSmem
      ensures Valid() && seen == old(seen) + multiset(cands)
    {
      var mask := Ballot(cands, kTh);
      Filter(cands);
      RankOfLane(cands, kTh, WARP_SIZE, WARP_SIZE);
      if Popc(mask, WARP_SIZE) == 0 {
        assert Buffered(smemBufLen) + Accepted(cands, kTh, WARP_SIZE) == Buffered(smemBufLen);
        return;
      }
      AddPassing(cands, mask);
    }

    /** Ghost bookkeeping of the ballot: the lanes that do not pass are dropped. */
    ghost method Filter(cands: seq<Cand>)
      requires Valid() && |cands| == WARP_SIZE
      modifies `seen, `lost
      ensures seen == old(seen) + multiset(cands)
      ensures Sound() && Accounted(multiset(Buffered(smemBufLen) + Accepted(cands, kTh, WARP_SIZE)))
    {
      hide Accounts;
      RejectedAreLow(cands, kTh, WARP_SIZE);
      AccountsAdd(seen, multiset(Regs()), Buffered(smemBufLen), lost, dummy, cands, kTh);
      seen := seen + multiset(cands);
      lost := lost + multiset(Rejected(cands, kTh, WARP_SIZE));
    }

    method AddPassing(cands: seq<Cand>, mask: seq<bool>)
      requires Sound() && smemBufLen < WARP_SIZE && |cands| == WARP_SIZE && mask == Ballot(cands, kTh)
      requires Accounted(multiset(Buffered(smemBufLen) + Accepted(cands, kTh, WARP_SIZE)))
      modifies vals, idxs, valSmem, idxSmem, `smemBufLen, `kTh, `lost
      ensures Valid()
    {
      hide Accounts, Best;
      ghost var kThWas := kTh;
      ghost var buf := Buffered(smemBufLen);
      ghost var whole := buf + Accepted(cands, kTh, WARP_SIZE);
      RankOfLane(cands, kTh, WARP_SIZE, WARP_SIZE);
      var buffered := smemBufLen;
      ghost var regs := Regs();
      StoreFirst(cands, mask);
      assert Regs() == regs;
      smemBufLen := smemBufLen + Popc(mask, WARP_SIZE);
      if smemBufLen >= WARP_SIZE {
        FlushFull(whole);
        smemBufLen := smemBufLen - WARP_SIZE;
      }
      regs := Regs();
      StoreRest(cands, mask, kThWas, buffered, buf);
      assert Regs() == regs;
      assert Buffered(smemBufLen) == if |whole| >= WARP_SIZE then whole[WARP_SIZE..] else whole;
    }

    /** A full buffer goes into the registers; what it holds is accounted there. */
    method FlushFull(ghost whole: seq<Cand>)
      requires Sound() && |whole| >= WARP_SIZE && Buffered(WARP_SIZE) == whole[..WARP_SIZE]
      requires Accounted(multiset(whole))
      modifies vals, idxs, `kTh, `lost
      ensures Sound() && Accounted(multiset(whole[WARP_SIZE..]))
    {
      hide Accounts, Best;
      var bv := new real[WARP_SIZE](l requires 0 <= l < WARP_SIZE reads valSmem => valSmem[l]);
      var bi := new int[WARP_SIZE](l requires 0 <= l < WARP_SIZE reads idxSmem => idxSmem[l]);
      assert WarpSort.Cells(bv, bi, 0, WARP_SIZE) == Buffered(WARP_SIZE);
      assert whole == whole[..WARP_SIZE] + whole[WARP_SIZE..];
      ghost var regs := multiset(Regs());
      ghost var dropped := MergeBuf(bv, bi);
      AccountsFlush(seen, regs, multiset(whole[..WARP_SIZE]), multiset(whole[WARP_SIZE..]), lost, dummy,
                    multiset{}, multiset(Regs()), dropped);
      lost := lost + dropped;
    }

    /** done(): merge what is still buffered, padded with dummies. */
    method Done()
      requires Valid()
      modifies this, vals, idxs
      ensures Shape() && seen == old(seen) && IsTopK(Regs()[..k], seen, dummy, k)
    {
      hide Accounts, Best;
      if smemBufLen != 0 {
        FlushPartial();
      } else {
        assert Buffered(0) == [];
      }
      CellBeyondK(capacity, k);
      ResultIsTopK(Regs(), lost, seen, dummy, k, kThCell, kTh);
    }

    method FlushPartial()
      requires Valid()
      modifies vals, idxs, `kTh, `lost
      ensures Sound() && Accounted(multiset{})
    {
      hide Accounts, Best;
      var bv := new real[WARP_SIZE](l requires 0 <= l < WARP_SIZE reads this, valSmem =>
        if l < smemBufLen then valSmem[l] else dummy);
      var bi := new int[WARP_SIZE](l requires 0 <= l < WARP_SIZE reads this, idxSmem =>
        if l < smemBufLen then idxSmem[l] else 0);
      ghost var buf, pad := Buffered(smemBufLen), seq(WARP_SIZE - smemBufLen, l => Cand(dummy, 0));
      assert WarpSort.Cells(bv, bi, 0, WARP_SIZE) == buf + pad;
      ghost var regs := multiset(Regs());
      ghost var dropped := MergeBuf(bv, bi);
      assert multiset(buf) + multiset{} == multiset(buf);
      AccountsFlush(seen, regs, multiset(buf), multiset{}, lost, dummy, multiset(pad), multiset(Regs()), dropped);
      lost := lost + dropped;
    }

    /** dumpIdx: the indices of the first k registers. */
    method DumpIdx() returns (out: seq<int>)
      requires Shape()
      ensures |out| == k && forall i :: 0 <= i < k ==> out[i] == Regs()[i].idx
    {
      out := [];
      for i := 0 to k
        invariant |out| == i && forall j :: 0 <= j < i ==> out[j] == idxs[j]
      {
        out := out + [idxs[i]];
      }
    }
  }

  /** The slot of a passing lane holds its candidate. */
  lemma SlotOfLane(cands: seq<Cand>, kTh: real, lane: nat)
    requires lane < |cands| && cands[lane].val > kTh
    ensures |Accepted(cands, kTh, lane)| < |Accepted(cands, kTh, |cands|)|
    ensures Accepted(cands, kTh, |cands|)[|Accepted(cands, kTh, lane)|] == cands[lane]
  {
    RankOfLane(cands, kTh, lane + 1, |cands|);
    var acc, upto := Accepted(cands, kTh, |cands|), Accepted(cands, kTh, lane + 1);
    assert upto[|Accepted(cands, kTh, lane)|] == cands[lane];
    assert acc[..|upto|] == upto;
  }

  /** The register the filter reads is never before the k-th: it is the k-th
      only when k lies in the last register row, and a later one otherwise. */
  lemma CellBeyondK(capacity: nat, k: nat)
    requires IsPow2(capacity) && WARP_SIZE <= capacity && 1 <= k <= capacity
    ensures k - 1 <= capacity - WARP_SIZE + (k - 1) % WARP_SIZE < capacity
    ensures k > capacity - WARP_SIZE ==> k - 1 == capacity - WARP_SIZE + (k - 1) % WARP_SIZE
  {
    WarpMultiple(capacity);
  }

  lemma WarpMultiple(capacity: nat)
    requires IsPow2(capacity) && WARP_SIZE <= capacity
    ensures capacity % WARP_SIZE == 0
    decreases capacity
  {
    if capacity > WARP_SIZE {
      assert IsPow2(32) by { assert IsPow2(4); }
      Pow2Gap(32, capacity);
      assert IsPow2(capacity / 2) && capacity == 2 * (capacity / 2);
      hide IsPow2;
      WarpMultiple(capacity / 2);
    }
  }

  /** Once nothing is buffered, the first k registers are the answer. */
  lemma ResultIsTopK(regs: seq<Cand>, lost: multiset<Cand>, seen: multiset<Cand>, dummy: real, k: nat, cell: nat,
                     kTh: real)
    requires 1 <= k <= cell + 1 && Best(regs, lost, dummy, kTh, cell)
    requires Accounts(seen, multiset(regs), multiset{}, lost, dummy)
    ensures IsTopK(regs[..k], seen, dummy, k)
  {
    var out, rest := regs[..k], regs[k..];
    assert regs == out + rest;
    forall c: Cand, i | c.val > dummy && multiset(out)[c] < seen[c] && 0 <= i < k ensures out[i].val >= c.val {
      assert Before(regs[i], regs[cell], false) || i == cell;
      if c in rest {
        var j :| 0 <= j < |rest| && rest[j] == c;
        assert Before(regs[i], regs[k + j], false);
      } else {
        assert c in lost;
      }
    }
  }
}
