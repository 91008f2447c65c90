/** topk_with_k2 of noauxtc_kernel.h: the score of an expert group is the sum of
    its two largest members, computed by one warp from strided per-lane pairs. */
module TopTwo {
  import opened Ballots
  import opened RealSeqs

  /** a and b are the two largest members of s, duplicates counted. */
  ghost predicate IsTopTwo(s: seq<real>, a: real, b: real) {
    exists i, j :: TopTwoAt(s, i, j) && a == s[i] && b == s[j]
  }

  ghost predicate TopTwoAt(s: seq<real>, i: int, j: int) {
    0 <= i < |s| && 0 <= j < |s| && i != j && s[j] <= s[i] && forall k :: 0 <= k < |s| && k != i ==> s[k] <= s[j]
  }

  /** __ballot_sync(value == m). */
  function Equals(xs: seq<real>, m: real): (mask: seq<bool>)
    ensures |mask| == |xs|
  {
    seq(|xs|, l requires 0 <= l < |xs| => xs[l] == m)
  }

  function CountEqual(xs: seq<real>, m: real): nat {
    Popc(Equals(xs, m), |xs|)
  }

  lemma CountIsOne(xs: seq<real>, m: real, l: nat)
    requires l < |xs| && xs[l] == m
    ensures CountEqual(xs, m) >= 1
    ensures CountEqual(xs, m) == 1 <==> forall o :: 0 <= o < |xs| && o != l ==> xs[o] != m
  {
    var mask := Equals(xs, m);
    PopcOne(mask, l);
    assert forall o :: 0 <= o < |xs| ==> mask[o] == (xs[o] == m);
  }

  lemma TopTwoExists(s: seq<real>) returns (i: nat, j: nat)
    requires |s| >= 2
    ensures TopTwoAt(s, i, j)
  {
    if |s| == 2 {
      i, j := if s[0] >= s[1] then 0 else 1, if s[0] >= s[1] then 1 else 0;
    } else {
      var n := |s| - 1;
      var i', j' := TopTwoExists(s[..n]);
      i := if s[n] > s[i'] then n else i';
      j := if s[n] > s[i'] then i' else if s[n] > s[j'] then n else j';
      assert forall k :: 0 <= k < n ==> s[k] == s[..n][k];
    }
  }

  lemma TopTwoUnique(s: seq<real>, i: int, j: int, i': int, j': int)
    requires TopTwoAt(s, i, j) && TopTwoAt(s, i', j')
    ensures s[i] == s[i'] && s[j] == s[j']
  {}

  // ---------- what a lane holds ----------

  /** Where a held value comes from: position p of the input, or the sentinel. */
  ghost predicate From(input: seq<real>, sentinel: real, v: real, p: int, lane: nat) {
    if p < 0 then v == sentinel else p < |input| && p % WARP_SIZE == lane && v == input[p]
  }

  /** A lane has seen its positions below n and holds x and y; all of them but
      the one x came from are at most y. */
  ghost predicate LaneHolds(input: seq<real>, sentinel: real, lane: nat, n: nat, x: real, y: real, px: int, py: int)
    requires n <= |input|
  {
    From(input, sentinel, x, px, lane) && From(input, sentinel, y, py, lane) && px < n && py < n &&
    (px >= 0 ==> px != py) &&
    (forall i :: 0 <= i < n && i % WARP_SIZE == lane ==> input[i] <= x) &&
    (forall i :: 0 <= i < n && i % WARP_SIZE == lane && i != px ==> input[i] <= y)
  }

  /** What the lane loop does with one more value. */
  lemma LaneAdvances(input: seq<real>, sentinel: real, lane: nat, n: nat, i: nat, x: real, y: real, px: int, py: int)
    requires n <= i < |input| && i % WARP_SIZE == lane && sentinel <= y <= x
    requires forall j :: n <= j < i ==> j % WARP_SIZE != lane
    requires LaneHolds(input, sentinel, lane, n, x, y, px, py)
    ensures input[i] > x ==> LaneHolds(input, sentinel, lane, i + 1, input[i], x, i, px)
    ensures x >= input[i] > y ==> LaneHolds(input, sentinel, lane, i + 1, x, input[i], px, i)
    ensures input[i] <= y ==> LaneHolds(input, sentinel, lane, i + 1, x, y, px, py)
  {}

  /** The loop of one lane over a group of more than 32 experts. */
  method LaneTopTwo(input: seq<real>, sentinel: real, lane: nat)
    returns (x: real, y: real, ghost px: int, ghost py: int)
    requires lane < WARP_SIZE
    ensures LaneHolds(input, sentinel, lane, |input|, x, y, px, py) && sentinel <= y <= x
  {
    hide LaneHolds;
    x, y, px, py := sentinel, sentinel, -1, -1;
    var i := lane;
    ghost var n := 0;  // positions below n have been considered
    NothingSeen(input, sentinel, lane);
    while i < |input|
      invariant i % WARP_SIZE == lane && 0 <= n <= |input| && n <= i
      invariant forall j :: n <= j < i ==> j % WARP_SIZE != lane
      invariant LaneHolds(input, sentinel, lane, n, x, y, px, py) && sentinel <= y <= x
    {
      LaneAdvances(input, sentinel, lane, n, i, x, y, px, py);
      var value := input[i];
      if value > x {
        y, py := x, px;
        x, px := value, i;
      } else if value > y {
        y, py := value, i;
      }
      NextOfLane(i);
      n := i + 1;
      i := i + WARP_SIZE;
    }
    NothingLeft(input, sentinel, lane, n, x, y, px, py);
  }

  lemma NextOfLane(i: nat)
    ensures (i + WARP_SIZE) % WARP_SIZE == i % WARP_SIZE
    ensures forall j :: i < j < i + WARP_SIZE ==> j % WARP_SIZE != i % WARP_SIZE
  {}

  lemma NothingSeen(input: seq<real>, sentinel: real, lane: nat)
    ensures LaneHolds(input, sentinel, lane, 0, sentinel, sentinel, -1, -1)
  {}

  lemma NothingLeft(input: seq<real>, sentinel: real, lane: nat, n: nat, x: real, y: real, px: int, py: int)
    requires n <= |input| && forall j :: n <= j < |input| ==> j % WARP_SIZE != lane
    requires LaneHolds(input, sentinel, lane, n, x, y, px, py)
    ensures LaneHolds(input, sentinel, lane, |input|, x, y, px, py)
  {}

  /** All lanes together: what the reductions start from. */
  ghost predicate WarpHolds(input: seq<real>, sentinel: real, xs: seq<real>, ys: seq<real>, px: seq<int>,
                            py: seq<int>) {
    |xs| == |ys| == |px| == |py| == WARP_SIZE &&
    (forall l :: 0 <= l < WARP_SIZE ==> LaneHolds(input, sentinel, l, |input|, xs[l], ys[l], px[l], py[l])) &&
    (forall l :: 0 <= l < WARP_SIZE ==> ys[l] >= sentinel) &&
    (|input| == WARP_SIZE ==> forall l :: 0 <= l < WARP_SIZE ==> px[l] == l) &&
    (|input| != WARP_SIZE ==> exists l :: 0 <= l < WARP_SIZE && xs[l] >= sentinel)
  }

  // ---------- what the kernel computes ----------

  /** output is what topk_with_k2 yields for the group: the sum of the two largest of
      its members and two sentinels, which idle lanes and second places hold.  In a
      group of exactly 32 no first place holds a sentinel; only a single largest
      member lets one in beside it. */
  ghost predicate KernelScore(input: seq<real>, sentinel: real, output: real) {
    if |input| != WARP_SIZE then
      forall a, b :: IsTopTwo(input + [sentinel, sentinel], a, b) ==> output == a + b
    else
      forall a, b :: IsTopTwo(input, a, b) ==> output == a + if a == b || b >= sentinel then b else sentinel
  }

  /** topk_with_k2, for any group and any scores. */
  method TopkWithK2(input: seq<real>, sentinel: real) returns (output: real)
    ensures KernelScore(input, sentinel, output)
    ensures |input| >= 2 ==> forall a, b :: IsTopTwo(input, a, b) ==>
      (output == a + b <==> (b >= sentinel || (|input| == WARP_SIZE && a == b)))
  {
    hide WarpHolds, CountEqual, KernelScore;
    var xs: seq<real>, ys: seq<real>;
    ghost var px: seq<int>, py: seq<int>;
    if |input| > WARP_SIZE {
      xs, ys, px, py := WideGroup(input, sentinel);
    } else {
      xs, ys, px, py := NarrowGroup(input, sentinel);
    }
    var max1 := Max(xs);
    var max2 := max1;
    var zs := xs;
    if CountEqual(xs, max1) == 1 {
      zs := seq(WARP_SIZE, l requires 0 <= l < WARP_SIZE => if xs[l] == max1 then ys[l] else xs[l]);
      max2 := Max(zs);
    }
    output := max1 + max2;
    ReductionIsExact(input, sentinel, xs, ys, px, py, zs, max1, max2);
    if |input| >= 2 {
      ScoreIsTopTwo(input, sentinel, output);
    }
  }

  /** The kernel's result is the sum of the two largest members exactly when the
      second of them is at least the sentinel, or the group has exactly 32 members
      and a tie for the maximum. */
  lemma ScoreIsTopTwo(input: seq<real>, sentinel: real, output: real)
    requires |input| >= 2 && KernelScore(input, sentinel, output)
    ensures forall a, b :: IsTopTwo(input, a, b) ==>
      (output == a + b <==> (b >= sentinel || (|input| == WARP_SIZE && a == b)))
  {
    forall a, b | IsTopTwo(input, a, b)
      ensures output == a + b <==> (b >= sentinel || (|input| == WARP_SIZE && a == b))
    {
      var i, j :| TopTwoAt(input, i, j) && a == input[i] && b == input[j];
      if |input| != WARP_SIZE {
        var c, d := PaddedTopTwo(input, sentinel, i, j);
        assert output == c + d;
      }
    }
  }

  /** Two sentinels more replace what lies below them. */
  lemma PaddedTopTwo(input: seq<real>, sentinel: real, i: nat, j: nat) returns (c: real, d: real)
    requires TopTwoAt(input, i, j)
    ensures IsTopTwo(input + [sentinel, sentinel], c, d)
    ensures c == (if input[i] >= sentinel then input[i] else sentinel)
    ensures d == (if input[j] >= sentinel then input[j] else sentinel)
  {
    var padded, n := input + [sentinel, sentinel], |input|;
    var p := if input[i] >= sentinel then i else n;
    var q := if input[j] >= sentinel then j else if input[i] >= sentinel then n else n + 1;
    assert TopTwoAt(padded, p, q);
    c, d := padded[p], padded[q];
  }

  /** Unless the group has exactly 32 members its score is at least two sentinels. */
  lemma ScoreFloor(input: seq<real>, sentinel: real, output: real)
    requires KernelScore(input, sentinel, output) && |input| != WARP_SIZE
    ensures output >= sentinel + sentinel
  {
    var padded, n := input + [sentinel, sentinel], |input|;
    var i, j := TopTwoExists(padded);
    assert IsTopTwo(padded, padded[i], padded[j]);
    assert padded[n] == padded[n + 1] == sentinel;
  }

  /** Above the sentinel every group of two or more has the score that is meant. */
  lemma ScoreAbove(input: seq<real>, sentinel: real, output: real, i: nat, j: nat)
    requires KernelScore(input, sentinel, output) && TopTwoAt(input, i, j) && input[j] >= sentinel
    ensures output == input[i] + input[j]
  {
    ScoreIsTopTwo(input, sentinel, output);
    assert IsTopTwo(input, input[i], input[j]);
  }

  /** A group whose second member lies below the sentinel: the sentinel is added in its place. */
  lemma BelowSentinelFails(sentinel: real, output: real)
    requires sentinel > 0.0 && KernelScore([sentinel + 1.0, 0.0], sentinel, output)
    ensures IsTopTwo([sentinel + 1.0, 0.0], sentinel + 1.0, 0.0) && output != (sentinel + 1.0) + 0.0
  {
    var input := [sentinel + 1.0, 0.0];
    assert TopTwoAt(input, 0, 1) && input[0] == sentinel + 1.0 && input[1] == 0.0;
    ScoreIsTopTwo(input, sentinel, output);
  }

  method WideGroup(input: seq<real>, sentinel: real)
    returns (xs: seq<real>, ys: seq<real>, ghost px: seq<int>, ghost py: seq<int>)
    requires |input| > WARP_SIZE
    ensures |xs| == |ys| == WARP_SIZE && WarpHolds(input, sentinel, xs, ys, px, py)
  {
    xs, ys, px, py := [], [], [], [];
    for lane := 0 to WARP_SIZE
      invariant |xs| == |ys| == |px| == |py| == lane
      invariant forall l :: 0 <= l < lane ==> LaneHolds(input, sentinel, l, |input|, xs[l], ys[l], px[l], py[l])
      invariant forall l :: 0 <= l < lane ==> sentinel <= ys[l] <= xs[l]
    {
      var x, y, p, q := LaneTopTwo(input, sentinel, lane);
      xs, ys, px, py := xs + [x], ys + [y], px + [p], py + [q];
    }
    assert xs[0] >= sentinel;
  }

  /** At most one expert a lane: the others keep the sentinel. */
  method NarrowGroup(input: seq<real>, sentinel: real)
    returns (xs: seq<real>, ys: seq<real>, ghost px: seq<int>, ghost py: seq<int>)
    requires |input| <= WARP_SIZE
    ensures |xs| == |ys| == WARP_SIZE && WarpHolds(input, sentinel, xs, ys, px, py)
  {
    xs := seq(WARP_SIZE, l requires 0 <= l < WARP_SIZE => if l < |input| then input[l] else sentinel);
    ys := seq(WARP_SIZE, l requires 0 <= l < WARP_SIZE => sentinel);
    px := seq(WARP_SIZE, l requires 0 <= l < WARP_SIZE => if l < |input| then l else -1);
    py := seq(WARP_SIZE, l requires 0 <= l < WARP_SIZE => -1);
    assert |input| < WARP_SIZE ==> xs[WARP_SIZE - 1] >= sentinel;
  }

  /** The values of the second reduction: the holder of the maximum offers its
      second value, the others what they offered before. */
  ghost predicate SecondRound(xs: seq<real>, ys: seq<real>, zs: seq<real>, max1: real, max2: real) {
    |xs| == |ys| == |zs| == WARP_SIZE && max2 == Max(zs) &&
    forall l :: 0 <= l < WARP_SIZE ==> zs[l] == if xs[l] == max1 then ys[l] else xs[l]
  }

  /** Where the two reduced values come from, and that nothing else exceeds the second. */
  ghost predicate Reduced(input: seq<real>, sentinel: real, max1: real, max2: real, p1: int, p2: int) {
    (if p1 < 0 then max1 == sentinel else p1 < |input| && max1 == input[p1]) &&
    (if p2 < 0 then max2 == sentinel else p2 < |input| && max2 == input[p2]) &&
    (p1 >= 0 ==> p1 != p2) && (forall k :: 0 <= k < |input| ==> input[k] <= max1) &&
    (forall k :: 0 <= k < |input| && k != p1 ==> input[k] <= max2)
  }

  lemma ReductionIsExact(input: seq<real>, sentinel: real, xs: seq<real>, ys: seq<real>, px: seq<int>, py: seq<int>,
                         zs: seq<real>, max1: real, max2: real)
    requires WarpHolds(input, sentinel, xs, ys, px, py)
    requires |xs| == WARP_SIZE && max1 == Max(xs)
    requires CountEqual(xs, max1) != 1 ==> max2 == max1
    requires CountEqual(xs, max1) == 1 ==> SecondRound(xs, ys, zs, max1, max2)
    ensures KernelScore(input, sentinel, max1 + max2)
  {
    hide CountEqual, SecondRound, WarpHolds, KernelScore;
    var top: nat :| top < WARP_SIZE && xs[top] == max1;
    CountIsOne(xs, max1, top);
    if CountEqual(xs, max1) == 1 {
      OneHolder(input, sentinel, xs, ys, px, py, zs, max1, max2, top);
    } else {
      var other: nat :| other < WARP_SIZE && other != top && xs[other] == max1;
      TwoHolders(input, sentinel, xs, ys, px, py, max1, top, other);
    }
  }

  lemma LanesBelow(input: seq<real>, sentinel: real, xs: seq<real>, ys: seq<real>, px: seq<int>, py: seq<int>,
                   max1: real)
    requires WarpHolds(input, sentinel, xs, ys, px, py) && forall l :: 0 <= l < WARP_SIZE ==> xs[l] <= max1
    ensures forall k :: 0 <= k < |input| ==> input[k] <= max1
  {
    forall k | 0 <= k < |input| ensures input[k] <= max1 {
      var l := k % WARP_SIZE;
      assert LaneHolds(input, sentinel, l, |input|, xs[l], ys[l], px[l], py[l]);
    }
  }

  /** Two lanes hold the maximum: it counts twice. */
  lemma TwoHolders(input: seq<real>, sentinel: real, xs: seq<real>, ys: seq<real>, px: seq<int>, py: seq<int>,
                   max1: real, top: nat, other: nat)
    requires WarpHolds(input, sentinel, xs, ys, px, py) && |xs| == WARP_SIZE && max1 == Max(xs)
    requires top < WARP_SIZE && other < WARP_SIZE && other != top && xs[top] == xs[other] == max1
    ensures KernelScore(input, sentinel, max1 + max1)
  {
    LanesBelow(input, sentinel, xs, ys, px, py, max1);
    assert LaneHolds(input, sentinel, top, |input|, xs[top], ys[top], px[top], py[top]);
    assert LaneHolds(input, sentinel, other, |input|, xs[other], ys[other], px[other], py[other]);
    assert Reduced(input, sentinel, max1, max1, px[top], px[other]);
    hide LaneHolds, KernelScore;
    if |input| == WARP_SIZE {
      ReducedTie(input, sentinel, max1, px[top], px[other]);
    } else {
      ReducedPadded(input, sentinel, max1, max1, px[top], px[other]);
    }
  }

  /** One lane holds the maximum: its second value joins the second reduction. */
  lemma OneHolder(input: seq<real>, sentinel: real, xs: seq<real>, ys: seq<real>, px: seq<int>, py: seq<int>,
                  zs: seq<real>, max1: real, max2: real, top: nat)
    requires WarpHolds(input, sentinel, xs, ys, px, py)
    requires top < WARP_SIZE && |xs| == WARP_SIZE && max1 == Max(xs) == xs[top]
    requires forall o :: 0 <= o < WARP_SIZE && o != top ==> xs[o] != max1
    requires SecondRound(xs, ys, zs, max1, max2)
    ensures KernelScore(input, sentinel, max1 + max2)
  {
    hide LaneHolds, KernelScore;
    assert zs[top] == ys[top] && zs[top] <= max2;
    LanesBelow(input, sentinel, xs, ys, px, py, max1);
    OthersBelow(input, sentinel, xs, ys, px, py, zs, top, max2);
    var p2 := SecondSource(input, sentinel, xs, ys, px, py, zs, top, max2);
    TopSource(input, sentinel, xs, ys, px, py, top);
    assert Reduced(input, sentinel, max1, max2, px[top], p2);
    if |input| == WARP_SIZE {
      SingleTop(input, sentinel, xs, ys, px, py, max1, top);
      ReducedSingle(input, sentinel, max1, max2, px[top], p2);
    } else {
      ReducedPadded(input, sentinel, max1, max2, px[top], p2);
    }
  }

  lemma TopSource(input: seq<real>, sentinel: real, xs: seq<real>, ys: seq<real>, px: seq<int>, py: seq<int>, top: nat)
    requires WarpHolds(input, sentinel, xs, ys, px, py) && top < WARP_SIZE
    ensures if px[top] < 0 then xs[top] == sentinel else px[top] < |input| && xs[top] == input[px[top]]
  {
    assert LaneHolds(input, sentinel, top, |input|, xs[top], ys[top], px[top], py[top]);
  }

  /** In a group of 32, a maximum held by one lane is one member. */
  lemma SingleTop(input: seq<real>, sentinel: real, xs: seq<real>, ys: seq<real>, px: seq<int>, py: seq<int>,
                  max1: real, top: nat)
    requires WarpHolds(input, sentinel, xs, ys, px, py) && |input| == WARP_SIZE && top < WARP_SIZE
    requires forall o :: 0 <= o < WARP_SIZE && o != top ==> xs[o] != max1
    ensures px[top] == top && forall k :: 0 <= k < |input| && k != top ==> input[k] != max1
  {
    forall k | 0 <= k < |input| && k != top ensures input[k] != max1 {
      assert LaneHolds(input, sentinel, k, |input|, xs[k], ys[k], px[k], py[k]);
    }
  }

  /** With sentinels among the first places, the two values are the two largest of
      the members and two sentinels. */
  lemma ReducedPadded(input: seq<real>, sentinel: real, max1: real, max2: real, p1: int, p2: int)
    requires Reduced(input, sentinel, max1, max2, p1, p2) && sentinel <= max2 <= max1 && |input| != WARP_SIZE
    ensures KernelScore(input, sentinel, max1 + max2)
  {
    var padded, n := input + [sentinel, sentinel], |input|;
    var q1, q2 := if p1 < 0 then n else p1, if p2 < 0 then n + 1 else p2;
    assert TopTwoAt(padded, q1, q2) && padded[q1] == max1 && padded[q2] == max2;
    forall a, b | IsTopTwo(padded, a, b) ensures max1 + max2 == a + b {
      var i, j :| TopTwoAt(padded, i, j) && a == padded[i] && b == padded[j];
      TopTwoUnique(padded, i, j, q1, q2);
    }
  }

  /** Without: a tie for the maximum is a tie of two members. */
  lemma ReducedTie(input: seq<real>, sentinel: real, max1: real, p1: int, p2: int)
    requires Reduced(input, sentinel, max1, max1, p1, p2) && p1 >= 0 && p2 >= 0 && |input| == WARP_SIZE
    ensures KernelScore(input, sentinel, max1 + max1)
  {
    forall a, b | IsTopTwo(input, a, b) ensures a == b == max1 {
      var i, j :| TopTwoAt(input, i, j) && a == input[i] && b == input[j];
      TopTwoUnique(input, i, j, p1, p2);
    }
  }

  /** And beside a single largest member the second value is a member or the sentinel. */
  lemma ReducedSingle(input: seq<real>, sentinel: real, max1: real, max2: real, p1: int, p2: int)
    requires Reduced(input, sentinel, max1, max2, p1, p2) && p1 >= 0 && |input| == WARP_SIZE && sentinel <= max2
    requires forall k :: 0 <= k < |input| && k != p1 ==> input[k] != max1
    ensures KernelScore(input, sentinel, max1 + max2)
  {
    forall a, b | IsTopTwo(input, a, b)
      ensures max1 + max2 == a + if a == b || b >= sentinel then b else sentinel
    {
      var i, j :| TopTwoAt(input, i, j) && a == input[i] && b == input[j];
      assert i == p1 && b <= max2 && a != b;
    }
  }

  lemma SecondSource(input: seq<real>, sentinel: real, xs: seq<real>, ys: seq<real>, px: seq<int>, py: seq<int>,
                     zs: seq<real>, top: nat, max2: real) returns (p2: int)
    requires WarpHolds(input, sentinel, xs, ys, px, py) && top < WARP_SIZE && |zs| == WARP_SIZE
    requires forall l :: 0 <= l < WARP_SIZE ==> zs[l] == (if l == top then ys[l] else xs[l])
    requires max2 in zs
    ensures if p2 < 0 then max2 == sentinel else p2 < |input| && max2 == input[p2]
    ensures px[top] >= 0 ==> px[top] != p2
  {
    var next: nat :| next < WARP_SIZE && zs[next] == max2;
    assert LaneHolds(input, sentinel, next, |input|, xs[next], ys[next], px[next], py[next]);
    assert LaneHolds(input, sentinel, top, |input|, xs[top], ys[top], px[top], py[top]);
    p2 := if next == top then py[next] else px[next];
  }

  lemma OthersBelow(input: seq<real>, sentinel: real, xs: seq<real>, ys: seq<real>, px: seq<int>, py: seq<int>,
                    zs: seq<real>, top: nat, max2: real)
    requires WarpHolds(input, sentinel, xs, ys, px, py) && top < WARP_SIZE && |zs| == WARP_SIZE
    requires forall l :: 0 <= l < WARP_SIZE ==> zs[l] == (if l == top then ys[l] else xs[l]) && zs[l] <= max2
    ensures forall k :: 0 <= k < |input| && k != px[top] ==> input[k] <= max2
  {
    forall k | 0 <= k < |input| && k != px[top] ensures input[k] <= max2 {
      var l := k % WARP_SIZE;
      assert LaneHolds(input, sentinel, l, |input|, xs[l], ys[l], px[l], py[l]);
      assert zs[l] <= max2;
    }
  }
}
