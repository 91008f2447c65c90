/** The sorting network of noauxtc_kernel.h, at the level of sequences.

    A warp-wide array is a sequence of candidates: position i*32 + lane is
    register i of that lane.  The file defines what "bitonic" means for values
    with ties, what one lane-exchange step does, and proves what one step keeps. */
module BitonicNetwork {
  import opened Arith

  datatype Cand = Cand(val: real, idx: int)

  // ---------- powers of two ----------

  predicate IsPow2(n: nat) {
    n == 1 || (n > 1 && n % 2 == 0 && IsPow2(n / 2))
  }

  /** m is a whole number of blocks of length d. */
  predicate Multiple(m: nat, d: nat)
    requires d > 0
    decreases m
  {
    m == 0 || (m >= d && Multiple(m - d, d))
  }

  lemma {:induction false} MultipleSum(x: nat, y: nat, d: nat)
    requires d > 0 && Multiple(x, d) && Multiple(y, d)
    ensures Multiple(x + y, d)
    decreases x
  {
    if x > 0 {
      MultipleSum(x - d, y, d);
    }
  }

  /** Of two powers of two, the larger is a multiple of the smaller, and at
      least twice as large when they differ. */
  lemma {:induction false} Pow2Multiple(a: nat, b: nat)
    requires IsPow2(a) && IsPow2(b) && a <= b
    ensures Multiple(b, a) && (a < b ==> 2 * a <= b)
    decreases b
  {
    if a < b {
      Pow2Gap(a, b);
      Pow2Multiple(a, b / 2);
      MultipleSum(b / 2, b / 2, a);
    }
  }

  lemma {:induction false} Pow2Gap(a: nat, b: nat)
    requires IsPow2(a) && IsPow2(b) && a < b
    ensures 2 * a <= b
  {
    if a > 1 {
      Pow2Gap(a / 2, b / 2);
    }
  }

  // ---------- order and bitonicity ----------

  ghost predicate Before(a: Cand, b: Cand, asc: bool) {
    if asc then a.val <= b.val else a.val >= b.val
  }

  ghost predicate Sorted(s: seq<Cand>, asc: bool) {
    forall i, j :: 0 <= i < j < |s| ==> Before(s[i], s[j], asc)
  }

  /** Everything in a comes before everything in b. */
  ghost predicate Ordered(a: seq<Cand>, b: seq<Cand>, asc: bool) {
    forall x, y :: x in a && y in b ==> Before(x, y, asc)
  }

  /** Which positions hold a value above the threshold. */
  ghost function Above(s: seq<Cand>, t: real): (b: seq<bool>)
    ensures |b| == |s|
  {
    seq(|s|, i requires 0 <= i < |s| => s[i].val > t)
  }

  /** The true positions of b are [lo, hi), or everything but [lo, hi). */
  ghost predicate Arc(b: seq<bool>, lo: nat, hi: nat, flip: bool) {
    lo <= hi <= |b| && forall i :: 0 <= i < |b| ==> b[i] == ((lo <= i < hi) != flip)
  }

  ghost predicate IsArc(b: seq<bool>) {
    exists lo: nat, hi: nat, flip: bool :: Arc(b, lo, hi, flip)
  }

  /** For every threshold the positions above it form one arc of the circle of
      positions.  Without ties this is "up then down, or a rotation of that";
      stated by thresholds it needs no care for equal values. */
  ghost predicate Bitonic(s: seq<Cand>) {
    forall t: real :: IsArc(Above(s, t))
  }

  /** An ascending run followed by a descending one is bitonic. */
  lemma UpDownBitonic(a: seq<Cand>, b: seq<Cand>, asc: bool)
    requires Sorted(a, asc) && Sorted(b, !asc)
    ensures Bitonic(a + b)
  {
    forall t: real ensures IsArc(Above(a + b, t)) {
      var i := Switch(a, t, asc);
      var j := Switch(b, t, !asc);
      assert Arc(Above(a + b, t), i, |a| + j, !asc);
    }
  }

  /** The position where a sorted run crosses the threshold. */
  lemma Switch(s: seq<Cand>, t: real, asc: bool) returns (k: nat)
    requires Sorted(s, asc)
    ensures k <= |s|
    ensures forall i :: 0 <= i < |s| ==> (s[i].val > t) == ((i >= k) == asc)
  {
    k := 0;
    while k < |s| && (s[k].val > t) != asc
      invariant k <= |s|
      invariant forall i :: 0 <= i < k ==> (s[i].val > t) != asc
    {
      k := k + 1;
    }
    if k < |s| {
      assert forall i :: k < i < |s| ==> Before(s[k], s[i], asc);
    }
  }

  // ---------- the half-cleaner ----------

  /** Position p has been compared with position p + h. */
  ghost predicate PairCleaned(s: seq<Cand>, t: seq<Cand>, p: nat, h: nat, asc: bool)
    requires p < h && |s| == |t| == 2 * h
  {
    if Takes(s[p].val, s[p + h].val, asc, false)
    then t[p] == s[p + h] && t[p + h] == s[p]
    else t[p] == s[p] && t[p + h] == s[p + h]
  }

  /** t is s after comparing position p with p + h for every p in the first half. */
  ghost predicate HalfCleaned(s: seq<Cand>, t: seq<Cand>, h: nat, asc: bool) {
    |s| == |t| == 2 * h && forall p :: 0 <= p < h ==> PairCleaned(s, t, p, h, asc)
  }

  /** What one lane decides from its own value and its partner's; the two sides
      run this same test, the second with isSecond set. */
  predicate Takes(mine: real, other: real, asc: bool, isSecond: bool) {
    mine != other && ((mine > other) == (asc != isSecond))
  }

  /** The two lanes of a pair always agree on whether to swap, ties included. */
  lemma PartnersAgree(a: real, b: real, asc: bool)
    ensures Takes(a, b, asc, false) == Takes(b, a, asc, true)
  {}

  lemma HalfCleanBool(b: seq<bool>, u: seq<bool>, v: seq<bool>, h: nat)
    requires |b| == 2 * h && |u| == |v| == h && IsArc(b)
    requires forall i :: 0 <= i < h ==> u[i] == (b[i] && b[i + h]) && v[i] == (b[i] || b[i + h])
    ensures IsArc(u) && IsArc(v)
    ensures (forall i :: 0 <= i < h ==> !u[i]) || (forall i :: 0 <= i < h ==> v[i])
  {
    var lo: nat, hi: nat, flip: bool :| Arc(b, lo, hi, flip);
    // x: the "and" side of the unflipped arc, y: its "or" side
    var x, y := if flip then v else u, if flip then u else v;
    forall i | 0 <= i < h
      ensures x[i] == ((lo <= i < hi && lo <= i + h < hi) != flip)
      ensures y[i] == ((lo <= i < hi || lo <= i + h < hi) != flip)
    {
      assert b[i] == ((lo <= i < hi) != flip);
      assert b[i + h] == ((lo <= i + h < hi) != flip);
      assert u[i] == (b[i] && b[i + h]) && v[i] == (b[i] || b[i + h]);
    }
    if hi <= h {
      assert Arc(x, 0, 0, flip);
      assert Arc(y, lo, hi, flip);
    } else if lo >= h {
      assert Arc(x, 0, 0, flip);
      assert Arc(y, lo - h, hi - h, flip);
    } else if lo < hi - h {
      assert Arc(x, lo, hi - h, flip);
      assert Arc(y, 0, h, flip);
    } else {
      assert Arc(x, 0, 0, flip);
      assert Arc(y, hi - h, lo, !flip);
    }
  }

  /** Half-cleaning a bitonic sequence gives two bitonic halves, every element
      of one on the right side of every element of the other, and loses nothing. */
  lemma HalfCleanKeeps(s: seq<Cand>, t: seq<Cand>, h: nat, asc: bool)
    requires HalfCleaned(s, t, h, asc) && Bitonic(s)
    ensures Bitonic(t[..h]) && Bitonic(t[h..])
    ensures Ordered(t[..h], t[h..], asc)
  {
    var lo, hi := if asc then t[..h] else t[h..], if asc then t[h..] else t[..h];
    forall x: real
      ensures IsArc(Above(lo, x)) && IsArc(Above(hi, x))
      ensures (forall i :: 0 <= i < h ==> !Above(lo, x)[i]) || (forall i :: 0 <= i < h ==> Above(hi, x)[i])
    {
      var b, u, v := Above(s, x), Above(lo, x), Above(hi, x);
      forall i | 0 <= i < h ensures u[i] == (b[i] && b[i + h]) && v[i] == (b[i] || b[i + h]) {
        assert PairCleaned(s, t, i, h, asc);
      }
      HalfCleanBool(b, u, v, h);
    }
    forall i, j | 0 <= i < h && 0 <= j < h ensures lo[i].val <= hi[j].val {
      var x := hi[j].val;
      assert !Above(hi, x)[j];
      assert !Above(lo, x)[i];
    }
  }

  lemma {:induction false} HalfCleanPermutes(s: seq<Cand>, t: seq<Cand>, h: nat, asc: bool)
    requires HalfCleaned(s, t, h, asc)
    ensures multiset(s) == multiset(t)
  {
    forall p | 0 <= p < h
      ensures (t[..h][p] == s[..h][p] && t[h..][p] == s[h..][p]) || (t[..h][p] == s[h..][p] && t[h..][p] == s[..h][p])
    {
      assert PairCleaned(s, t, p, h, asc);
    }
    SamePairs(s[..h], s[h..], t[..h], t[h..]);
    assert s == s[..h] + s[h..] && t == t[..h] + t[h..];
  }

  /** Two rows whose columns hold the same pairs, in either order. */
  lemma {:induction false} SamePairs(a: seq<Cand>, b: seq<Cand>, c: seq<Cand>, d: seq<Cand>)
    requires |a| == |b| == |c| == |d|
    requires forall p :: 0 <= p < |a| ==> (c[p] == a[p] && d[p] == b[p]) || (c[p] == b[p] && d[p] == a[p])
    ensures multiset(a + b) == multiset(c + d)
  {
    if |a| > 0 {
      var a', b', c', d' := a[1..], b[1..], c[1..], d[1..];
      SamePairs(a', b', c', d');
      HeadsOut(a, b);
      HeadsOut(c, d);
    }
  }

  lemma HeadsOut(a: seq<Cand>, b: seq<Cand>)
    requires |a| == |b| > 0
    ensures multiset(a + b) == multiset{a[0], b[0]} + multiset(a[1..] + b[1..])
  {
    assert a + b == [a[0]] + a[1..] + [b[0]] + b[1..];
  }

  // ---------- one exchange step of the whole warp ----------

  /** lane & stride, for a stride that is a power of two. */
  predicate IsSecond(p: nat, stride: nat)
    requires stride > 0
  {
    (p / stride) % 2 == 1
  }

  /** lane ^ stride, for a stride that is a power of two. */
  function Partner(p: nat, stride: nat): (q: int)
    requires stride > 0
  {
    if IsSecond(p, stride) then p - stride else p + stride
  }

  /** Moving by whole exchange blocks does not change a lane's role, and no
      lane's partner lies outside a run of whole blocks. */
  lemma {:induction false} PartnerShift(p: nat, m: nat, h: nat)
    requires h > 0 && Multiple(m, 2 * h)
    ensures IsSecond(p + m, h) == IsSecond(p, h)
    ensures p < m ==> 0 <= Partner(p, h) < m
    decreases m
  {
    if m > 0 {
      var m' := m - 2 * h;
      PartnerShift(p, m', h);
      SecondFlips(p + m', h);
      SecondFlips(p + m' + h, h);
      if m' <= p < m {
        PartnerInBlock(p - m', h);
        PartnerShift(p - m', m', h);
      }
    }
  }

  lemma SecondFlips(p: nat, h: nat)
    requires h > 0
    ensures IsSecond(p + h, h) == !IsSecond(p, h)
  {
    ModPlus(p, h);
  }

  lemma PartnerInBlock(r: nat, h: nat)
    requires h > 0 && r < 2 * h
    ensures IsSecond(r, h) == (r >= h)
  {
    if r < h {
      DivModUnique(r, 0, r, h);
    } else {
      DivModUnique(r, 1, r - h, h);
    }
  }

  lemma PartnerFits(p: nat, n: nat, h: nat)
    requires IsPow2(h) && IsPow2(n) && 2 * h <= n && p < n
    ensures 0 <= Partner(p, h) < n
  {
    Pow2Multiple(2 * h, n);
    PartnerShift(p, n, h);
  }

  /** What the exchange leaves at one lane: its own candidate or its partner's. */
  ghost function After(s: seq<Cand>, p: nat, h: nat, asc: bool): Cand
    requires h > 0 && p < |s|
  {
    var q := Partner(p, h);
    if 0 <= q < |s| && Takes(s[p].val, s[q].val, asc, IsSecond(p, h)) then s[q] else s[p]
  }

  ghost predicate LaneMove(s: seq<Cand>, t: seq<Cand>, p: nat, h: nat, asc: bool)
    requires h > 0 && p < |s| == |t|
  {
    0 <= Partner(p, h) < |s| && t[p] == After(s, p, h, asc)
  }

  /** One exchange at the given stride, every lane going the same way. */
  ghost predicate LaneStep(s: seq<Cand>, t: seq<Cand>, h: nat, asc: bool) {
    h > 0 && |s| == |t| && forall p :: 0 <= p < |s| ==> LaneMove(s, t, p, h, asc)
  }

  /** One exchange of a sorting stage: odd regions go the other way. */
  ghost predicate StageStep(s: seq<Cand>, t: seq<Cand>, h: nat, region: nat) {
    h > 0 && region > 0 && |s| == |t| &&
    forall p :: 0 <= p < |s| ==> LaneMove(s, t, p, h, !IsSecond(p, region))
  }

  lemma LaneStepHalves(s: seq<Cand>, t: seq<Cand>, h: nat, asc: bool, m: nat)
    requires LaneStep(s, t, h, asc) && |s| == 2 * m && Multiple(m, 2 * h)
    ensures LaneStep(s[..m], t[..m], h, asc) && LaneStep(s[m..], t[m..], h, asc)
  {
    forall p | 0 <= p < m ensures LaneMove(s[..m], t[..m], p, h, asc) && LaneMove(s[m..], t[m..], p, h, asc) {
      PartnerShift(p, m, h);
      assert LaneMove(s, t, p, h, asc) && LaneMove(s, t, p + m, h, asc);
    }
  }

  lemma LaneStepIsHalfClean(s: seq<Cand>, t: seq<Cand>, h: nat, asc: bool)
    requires LaneStep(s, t, h, asc) && |s| == 2 * h
    ensures HalfCleaned(s, t, h, asc)
  {
    forall p | 0 <= p < h ensures PairCleaned(s, t, p, h, asc) {
      PartnerInBlock(p, h);
      PartnerInBlock(p + h, h);
      assert LaneMove(s, t, p, h, asc) && LaneMove(s, t, p + h, h, asc);
      PartnersAgree(s[p].val, s[p + h].val, asc);
    }
  }

  // ---------- merging ----------

  /** Aligned blocks of the given size are bitonic, and ordered between them. */
  ghost predicate Merging(s: seq<Cand>, blk: nat, asc: bool)
    requires blk >= 1
    decreases |s|
  {
    if |s| <= blk then Bitonic(s)
    else
      var m := |s| / 2;
      Merging(s[..m], blk, asc) && Merging(s[m..], blk, asc) && Ordered(s[..m], s[m..], asc)
  }

  lemma OrderedPermuted(a: seq<Cand>, b: seq<Cand>, c: seq<Cand>, d: seq<Cand>, asc: bool)
    requires Ordered(a, b, asc) && multiset(a) == multiset(c) && multiset(b) == multiset(d)
    ensures Ordered(c, d, asc)
  {
    forall x, y | x in c && y in d ensures Before(x, y, asc) {
      assert x in multiset(a) && y in multiset(b);
    }
  }

  lemma MergingStepBase(s: seq<Cand>, t: seq<Cand>, h: nat, asc: bool)
    requires |s| == 2 * h && Bitonic(s) && LaneStep(s, t, h, asc)
    ensures Merging(t[..h], h, asc) && Merging(t[h..], h, asc) && Ordered(t[..h], t[h..], asc)
    ensures multiset(t) == multiset(s)
  {
    LaneStepIsHalfClean(s, t, h, asc);
    HalfCleanKeeps(s, t, h, asc);
    HalfCleanPermutes(s, t, h, asc);
  }

  lemma BlocksFit(n: nat, h: nat)
    requires IsPow2(n) && IsPow2(h) && 2 * h < n
    ensures IsPow2(n / 2) && 2 * h <= n / 2 && n == 2 * (n / 2) && Multiple(n / 2, 2 * h)
  {
    Pow2Gap(2 * h, n);
    Pow2Multiple(2 * h, n / 2);
  }

  lemma StepOnHalves(s: seq<Cand>, t: seq<Cand>, h: nat, asc: bool, m: nat)
    requires IsPow2(|s|) && IsPow2(h) && 2 * h < |s| == 2 * m && LaneStep(s, t, h, asc)
    ensures IsPow2(m) && 2 * h <= m
    ensures LaneStep(s[..m], t[..m], h, asc) && LaneStep(s[m..], t[m..], h, asc)
  {
    BlocksFit(|s|, h);
    LaneStepHalves(s, t, h, asc, m);
  }

  /** One exchange halves the blocks. */
  lemma {:induction false} MergingStep(s: seq<Cand>, t: seq<Cand>, h: nat, asc: bool)
    requires IsPow2(|s|) && IsPow2(h) && 2 * h <= |s|
    requires Merging(s, 2 * h, asc) && LaneStep(s, t, h, asc)
    ensures Merging(t, h, asc) && multiset(t) == multiset(s)
    decreases |s|
  {
    var m := |s| / 2;
    if |s| == 2 * h {
      MergingStepBase(s, t, h, asc);
    } else {
      StepOnHalves(s, t, h, asc, m);
      MergingStep(s[..m], t[..m], h, asc);
      MergingStep(s[m..], t[m..], h, asc);
      OrderedPermuted(s[..m], s[m..], t[..m], t[m..], asc);
      HalvesPermuted(s, t, m);
    }
  }

  lemma HalvesPermuted(s: seq<Cand>, t: seq<Cand>, m: nat)
    requires m <= |s| == |t|
    requires multiset(s[..m]) == multiset(t[..m]) && multiset(s[m..]) == multiset(t[m..])
    ensures multiset(s) == multiset(t)
  {
    assert s == s[..m] + s[m..] && t == t[..m] + t[m..];
  }

  /** Sorting both sides of an ordered split sorts the whole. */
  lemma JoinHalves(c: seq<Cand>, d: seq<Cand>, a: seq<Cand>, b: seq<Cand>, asc: bool)
    requires Ordered(c, d, asc) && multiset(a) == multiset(c) && multiset(b) == multiset(d)
    requires Sorted(a, asc) && Sorted(b, asc)
    ensures Sorted(a + b, asc) && multiset(a + b) == multiset(c + d)
  {
    OrderedPermuted(c, d, a, b, asc);
    SortedJoin(a, b, asc);
  }

  lemma SortedJoin(a: seq<Cand>, b: seq<Cand>, asc: bool)
    requires Sorted(a, asc) && Sorted(b, asc) && Ordered(a, b, asc)
    ensures Sorted(a + b, asc)
  {
    forall i, j | 0 <= i < j < |a + b| ensures Before((a + b)[i], (a + b)[j], asc) {
      if i < |a| <= j {
        assert a[i] in a && b[j - |a|] in b;
      }
    }
  }

  lemma {:induction false} MergedIsSorted(s: seq<Cand>, asc: bool)
    requires Merging(s, 1, asc)
    ensures Sorted(s, asc)
    decreases |s|
  {
    if |s| > 1 {
      var m := |s| / 2;
      MergedIsSorted(s[..m], asc);
      MergedIsSorted(s[m..], asc);
      SortedJoin(s[..m], s[m..], asc);
      assert s == s[..m] + s[m..];
    }
  }

  // ---------- sorting stages ----------

  /** Aligned blocks of the given size are sorted, up and down in turn. */
  ghost predicate Runs(s: seq<Cand>, blk: nat, asc: bool)
    requires blk >= 1
    decreases |s|
  {
    if |s| <= blk then Sorted(s, asc)
    else var m := |s| / 2; Runs(s[..m], blk, true) && Runs(s[m..], blk, false)
  }

  /** Aligned regions are being merged, up and down in turn. */
  ghost predicate Stage(s: seq<Cand>, region: nat, blk: nat, asc: bool)
    requires region >= 1 && blk >= 1
    decreases |s|
  {
    if |s| <= region then Merging(s, blk, asc)
    else var m := |s| / 2; Stage(s[..m], region, blk, true) && Stage(s[m..], region, blk, false)
  }

  lemma {:induction false} StageStart(s: seq<Cand>, r: nat, asc: bool)
    requires IsPow2(|s|) && IsPow2(r) && 2 * r <= |s| && Runs(s, r, asc)
    ensures Stage(s, 2 * r, 2 * r, asc)
    decreases |s|
  {
    var m := |s| / 2;
    if m == r {
      UpDownBitonic(s[..m], s[m..], true);
      assert s == s[..m] + s[m..];
    } else {
      BlocksFit(|s|, r);
      StageStart(s[..m], r, true);
      StageStart(s[m..], r, false);
    }
  }

  lemma {:induction false} StageEnd(s: seq<Cand>, r: nat, asc: bool)
    requires r >= 1 && Stage(s, r, 1, asc)
    ensures Runs(s, r, asc)
    decreases |s|
  {
    if |s| <= r {
      MergedIsSorted(s, asc);
    } else {
      var m := |s| / 2;
      StageEnd(s[..m], r, true);
      StageEnd(s[m..], r, false);
    }
  }

  lemma StageStepHalves(s: seq<Cand>, t: seq<Cand>, h: nat, r: nat, m: nat)
    requires StageStep(s, t, h, r) && |s| == 2 * m && Multiple(m, 2 * h) && Multiple(m, 2 * r)
    ensures StageStep(s[..m], t[..m], h, r) && StageStep(s[m..], t[m..], h, r)
  {
    forall p | 0 <= p < m
      ensures LaneMove(s[..m], t[..m], p, h, !IsSecond(p, r)) && LaneMove(s[m..], t[m..], p, h, !IsSecond(p, r))
    {
      PartnerShift(p, m, h);
      PartnerShift(p, m, r);
      assert LaneMove(s, t, p, h, !IsSecond(p, r)) && LaneMove(s, t, p + m, h, !IsSecond(p + m, r));
    }
  }

  lemma StageStepSplits(s: seq<Cand>, t: seq<Cand>, h: nat, r: nat)
    requires StageStep(s, t, h, r) && |s| == 2 * r && Multiple(r, 2 * h)
    ensures LaneStep(s[..r], t[..r], h, true) && LaneStep(s[r..], t[r..], h, false)
  {
    forall p | 0 <= p < r
      ensures LaneMove(s[..r], t[..r], p, h, true) && LaneMove(s[r..], t[r..], p, h, false)
    {
      PartnerShift(p, r, h);
      PartnerInBlock(p, r);
      PartnerInBlock(p + r, r);
      assert LaneMove(s, t, p, h, !IsSecond(p, r)) && LaneMove(s, t, p + r, h, !IsSecond(p + r, r));
    }
  }

  lemma StageOnHalves(s: seq<Cand>, t: seq<Cand>, h: nat, r: nat, m: nat)
    requires IsPow2(|s|) && IsPow2(h) && IsPow2(r) && 2 * h <= r && 2 * r < |s| == 2 * m && StageStep(s, t, h, r)
    ensures IsPow2(m) && 2 * r <= m
    ensures StageStep(s[..m], t[..m], h, r) && StageStep(s[m..], t[m..], h, r)
  {
    BlocksFit(|s|, r);
    BlocksFit(|s|, h);
    StageStepHalves(s, t, h, r, m);
  }

  lemma {:induction false} StageStepKeeps(s: seq<Cand>, t: seq<Cand>, h: nat, r: nat, asc: bool)
    requires IsPow2(|s|) && IsPow2(h) && IsPow2(r) && 2 * h <= r && 2 * r <= |s|
    requires Stage(s, r, 2 * h, asc) && StageStep(s, t, h, r)
    ensures Stage(t, r, h, asc) && multiset(t) == multiset(s)
    decreases |s|
  {
    assert |t| == |s|;
    hide StageStep, LaneStep;
    var m := |s| / 2;
    if |s| == 2 * r {
      StageStepLast(s, t, h, r);
    } else {
      StageOnHalves(s, t, h, r, m);
      StageStepKeeps(s[..m], t[..m], h, r, true);
      StageStepKeeps(s[m..], t[m..], h, r, false);
    }
    HalvesPermuted(s, t, m);
  }

  /** Two regions, the first ascending and the second descending. */
  lemma StageStepLast(s: seq<Cand>, t: seq<Cand>, h: nat, r: nat)
    requires IsPow2(h) && IsPow2(r) && 2 * h <= r && |s| == |t| == 2 * r && StageStep(s, t, h, r)
    requires Merging(s[..r], 2 * h, true) && Merging(s[r..], 2 * h, false)
    ensures Merging(t[..r], h, true) && multiset(t[..r]) == multiset(s[..r])
    ensures Merging(t[r..], h, false) && multiset(t[r..]) == multiset(s[r..])
  {
    hide StageStep, LaneStep;
    StageStepBase(s, t, h, r);
    MergingStep(s[..r], t[..r], h, true);
    MergingStep(s[r..], t[r..], h, false);
  }

  lemma BlocksDivide(h: nat, r: nat)
    requires IsPow2(h) && IsPow2(r) && 2 * h <= r
    ensures Multiple(r, 2 * h)
  {
    assert IsPow2(2 * h);
    Pow2Multiple(2 * h, r);
  }

  lemma StageStepBase(s: seq<Cand>, t: seq<Cand>, h: nat, r: nat)
    requires IsPow2(h) && IsPow2(r) && 2 * h <= r && |s| == 2 * r && StageStep(s, t, h, r)
    ensures LaneStep(s[..r], t[..r], h, true) && LaneStep(s[r..], t[r..], h, false)
  {
    BlocksDivide(h, r);
    StageStepSplits(s, t, h, r);
  }
}
