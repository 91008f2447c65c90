/** What "the k best of everything offered" means, and that any sequence meeting
    it agrees, value by value, with sorting everything and taking the first k. */
module TopK {
  import opened BitonicNetwork

  /** How many candidates have a value of at least v. */
  ghost function CountFrom(s: seq<Cand>, v: real): nat {
    if s == [] then 0 else (if s[0].val >= v then 1 else 0) + CountFrom(s[1..], v)
  }

  lemma {:induction false} CountJoin(a: seq<Cand>, b: seq<Cand>, v: real)
    ensures CountFrom(a + b, v) == CountFrom(a, v) + CountFrom(b, v)
  {
    if a == [] {
      assert a + b == b;
    } else {
      CountJoin(a[1..], b, v);
      assert (a + b)[1..] == a[1..] + b;
    }
  }

  lemma CountWithout(t: seq<Cand>, j: nat, v: real)
    requires j < |t|
    ensures CountFrom(t, v) == CountFrom(t[..j] + t[j + 1..], v) + (if t[j].val >= v then 1 else 0)
  {
    var a, b := t[..j], t[j + 1..];
    assert t == a + ([t[j]] + b);
    CountJoin(a, [t[j]] + b, v);
    assert CountFrom([t[j]] + b, v) == (if t[j].val >= v then 1 else 0) + CountFrom(b, v) by {
      assert ([t[j]] + b)[1..] == b;
    }
    CountJoin(a, b, v);
  }

  lemma MultisetWithout(t: seq<Cand>, j: nat)
    requires j < |t|
    ensures multiset(t) == multiset(t[..j] + t[j + 1..]) + multiset{t[j]}
  {
    assert t == t[..j] + [t[j]] + t[j + 1..];
  }

  /** Counting from v looks only at the candidates from v up. */
  lemma {:induction false} CountMono(s: seq<Cand>, t: seq<Cand>, v: real)
    requires forall c: Cand :: c.val >= v ==> multiset(s)[c] <= multiset(t)[c]
    ensures CountFrom(s, v) <= CountFrom(t, v)
    decreases |s|
  {
    if s != [] {
      var c := s[0];
      assert s == [c] + s[1..];
      if c.val < v {
        CountMono(s[1..], t, v);
      } else {
        assert multiset(s)[c] > 0;
        assert c in multiset(t);
        var j :| 0 <= j < |t| && t[j] == c;
        CountWithout(t, j, v);
        MultisetWithout(t, j);
        CountMono(s[1..], t[..j] + t[j + 1..], v);
      }
    }
  }

  lemma {:induction false} CountPointwise(s: seq<Cand>, t: seq<Cand>, v: real)
    requires |s| == |t| && forall i :: 0 <= i < |s| ==> s[i].val <= t[i].val
    ensures CountFrom(s, v) <= CountFrom(t, v)
  {
    if s != [] {
      CountPointwise(s[1..], t[1..], v);
    }
  }

  /** In a descending sequence the count says which positions reach v. */
  lemma {:induction false} SortedCount(s: seq<Cand>, i: nat, v: real)
    requires Sorted(s, false)
    ensures CountFrom(s, v) > i <==> (i < |s| && s[i].val >= v)
  {
    if s != [] {
      assert forall j :: 1 <= j < |s| ==> Before(s[0], s[j], false);
      if i == 0 {
        if s[0].val < v {
          NoneFrom(s, v);
        }
      } else {
        SortedCount(s[1..], i - 1, v);
        if s[0].val < v {
          NoneFrom(s, v);
        }
      }
    }
  }

  lemma {:induction false} NoneFrom(s: seq<Cand>, v: real)
    requires forall j :: 0 <= j < |s| ==> s[j].val < v
    ensures CountFrom(s, v) == 0
  {
    if s != [] {
      NoneFrom(s[1..], v);
    }
  }

  /** out holds k best of the candidates seen above dummy, best first, each with
      its own index, and is filled up with entries of value dummy. */
  ghost predicate IsTopK(out: seq<Cand>, seen: multiset<Cand>, dummy: real, k: nat) {
    |out| == k && Sorted(out, false) &&
    (forall c :: c in out ==> c.val >= dummy) &&
    (forall c: Cand :: c.val > dummy ==> multiset(out)[c] <= seen[c]) &&
    (forall c: Cand, i :: c.val > dummy && multiset(out)[c] < seen[c] && 0 <= i < k ==> out[i].val >= c.val)
  }

  /** The refinement: whatever order the candidates came in and however ties were
      broken, the values are those of sorting all of them and taking k. */
  lemma TopKIsSortAndTake(out: seq<Cand>, all: seq<Cand>, dummy: real, k: nat)
    requires IsTopK(out, multiset(all), dummy, k) && Sorted(all, false)
    ensures forall i :: 0 <= i < k ==>
      out[i].val == if i < |all| && all[i].val > dummy then all[i].val else dummy
  {
    forall i | 0 <= i < k
      ensures out[i].val == if i < |all| && all[i].val > dummy then all[i].val else dummy
    {
      if i < |all| && all[i].val > dummy {
        KeepsUpWith(out, all, dummy, k, i);
      }
      assert out[i] in out;
      if out[i].val > dummy {
        NotAbove(out, all, dummy, k, i);
      }
    }
  }

  lemma KeepsUpWith(out: seq<Cand>, all: seq<Cand>, dummy: real, k: nat, i: nat)
    requires IsTopK(out, multiset(all), dummy, k) && Sorted(all, false)
    requires i < k && i < |all| && all[i].val > dummy
    ensures out[i].val >= all[i].val
  {
    var v := all[i].val;
    if out[i].val < v {
      assert forall c: Cand :: c.val >= v ==> multiset(all)[c] <= multiset(out)[c];
      CountMono(all, out, v);
      SortedCount(all, i, v);
      SortedCount(out, i, v);
    }
  }

  lemma NotAbove(out: seq<Cand>, all: seq<Cand>, dummy: real, k: nat, i: nat)
    requires IsTopK(out, multiset(all), dummy, k) && Sorted(all, false)
    requires i < k && out[i].val > dummy
    ensures i < |all| && all[i].val >= out[i].val
  {
    var v := out[i].val;
    CountMono(out, all, v);
    SortedCount(out, i, v);
    SortedCount(all, i, v);
  }

  // ---------- merging 32 more into a sorted register file ----------

  /** The last cells of old, each replaced by its opposite in b where b's is
      better; b is as long as a warp, old at least that long. */
  ghost function Improved(regs: seq<Cand>, b: seq<Cand>): (mid: seq<Cand>)
    requires |b| <= |regs|
    ensures |mid| == |regs|
  {
    var off := |regs| - |b|;
    seq(|regs|, p requires 0 <= p < |regs| =>
      if p >= off && b[p - off].val > regs[p].val then b[p - off] else regs[p])
  }

  /** What Improved leaves out. */
  ghost function Displaced(regs: seq<Cand>, b: seq<Cand>): (out: seq<Cand>)
    requires |b| <= |regs|
    ensures |out| == |b|
  {
    var off := |regs| - |b|;
    seq(|b|, q requires 0 <= q < |b| => if b[q].val > regs[q + off].val then regs[q + off] else b[q])
  }

  lemma ImprovedKeepsAll(regs: seq<Cand>, b: seq<Cand>)
    requires |b| <= |regs|
    ensures multiset(regs) + multiset(b) == multiset(Improved(regs, b)) + multiset(Displaced(regs, b))
  {
    var off := |regs| - |b|;
    var mid, out := Improved(regs, b), Displaced(regs, b);
    var was, tail := regs[off..], mid[off..];
    forall p | 0 <= p < |b| ensures (tail[p] == was[p] && out[p] == b[p]) || (tail[p] == b[p] && out[p] == was[p]) {
      assert tail[p] == mid[p + off] && was[p] == regs[p + off];
    }
    assert regs[..off] == mid[..off];
    hide Improved, Displaced;
    SamePairs(was, b, tail, out);
    SplitCounts(regs, mid, b, out, off);
  }

  lemma SplitCounts(a: seq<Cand>, c: seq<Cand>, b: seq<Cand>, d: seq<Cand>, off: nat)
    requires off <= |a| == |c| && a[..off] == c[..off] && multiset(a[off..] + b) == multiset(c[off..] + d)
    ensures multiset(a) + multiset(b) == multiset(c) + multiset(d)
  {
    assert a == a[..off] + a[off..] && c == c[..off] + c[off..];
    assert multiset(a) + multiset(b) == multiset(a[..off]) + multiset(a[off..] + b);
    assert multiset(c) + multiset(d) == multiset(c[..off]) + multiset(c[off..] + d);
  }

  /** Descending registers against an ascending buffer: the improved registers
      are bitonic and nothing displaced is better than anything kept. */
  lemma ImprovedIsBest(regs: seq<Cand>, b: seq<Cand>)
    requires |b| <= |regs| && Sorted(regs, false) && Sorted(b, true)
    ensures Bitonic(Improved(regs, b))
    ensures Ordered(Improved(regs, b), Displaced(regs, b), false)
  {
    var n, low := |regs|, Lowest(regs, b);
    var pad := seq(n - |b|, p requires 0 <= p < n - |b| => Cand(low, 0));
    var mid, out := Improved(regs, b), Displaced(regs, b);
    PadSorted(pad, b, low);
    UpDownBitonic(regs, pad + b, false);
    ImprovedIsCleaned(regs, b, pad, low);
    var t := mid + (pad + out);
    HalfCleanKeeps(regs + (pad + b), t, n, false);
    assert t[..n] == mid && t[n..] == pad + out;
    forall x, y | x in mid && y in out ensures Before(x, y, false) {
      assert y in pad + out;
    }
  }

  /** Padding the buffer in front turns the improvement into a half-cleaning step. */
  lemma ImprovedIsCleaned(regs: seq<Cand>, b: seq<Cand>, pad: seq<Cand>, low: real)
    requires |pad| + |b| == |regs|
    requires (forall c :: c in pad ==> c.val == low) && (forall c :: c in regs ==> low <= c.val)
    ensures HalfCleaned(regs + (pad + b), Improved(regs, b) + (pad + Displaced(regs, b)), |regs|, false)
  {
    var n := |regs|;
    var pb, po := pad + b, pad + Displaced(regs, b);
    var s, t := regs + pb, Improved(regs, b) + po;
    forall p | 0 <= p < n ensures PairCleaned(s, t, p, n, false) {
      assert s[p] == regs[p] && t[p] == Improved(regs, b)[p] && s[p + n] == pb[p] && t[p + n] == po[p];
      if p < |pad| {
        assert pad[p] in pad && regs[p] in regs;
      }
    }
  }

  lemma PadSorted(pad: seq<Cand>, b: seq<Cand>, low: real)
    requires Sorted(b, true)
    requires (forall c :: c in pad ==> c.val == low) && (forall c :: c in b ==> c.val >= low)
    ensures Sorted(pad + b, true)
  {
    forall i, j | 0 <= i < j < |pad + b| ensures Before((pad + b)[i], (pad + b)[j], true) {
      assert j < |pad| ==> pad[j] in pad;
      assert i < |pad| ==> pad[i] in pad;
      assert j >= |pad| ==> b[j - |pad|] in b;
    }
  }

  ghost function Lowest(a: seq<Cand>, b: seq<Cand>): (low: real)
    ensures forall c :: c in a || c in b ==> low <= c.val
  {
    LowestOf(a + b)
  }

  ghost function LowestOf(s: seq<Cand>): (low: real)
    ensures forall c :: c in s ==> low <= c.val
  {
    if s == [] then 0.0
    else
      var rest := LowestOf(s[1..]);
      if s[0].val <= rest then s[0].val else rest
  }

  /** Sorting the improved registers never lowers the value at a position. */
  lemma PositionsRise(regs: seq<Cand>, b: seq<Cand>, after: seq<Cand>, i: nat)
    requires |b| <= |regs| && Sorted(regs, false) && Sorted(after, false) && i < |regs|
    requires multiset(after) == multiset(Improved(regs, b))
    ensures |after| == |regs| && after[i].val >= regs[i].val
  {
    var mid, v := Improved(regs, b), regs[i].val;
    assert |multiset(after)| == |multiset(mid)|;
    SortedCount(regs, i, v);
    CountPointwise(regs, mid, v);
    CountMono(mid, after, v);
    SortedCount(after, i, v);
  }
}
