/** The first part of group_idx_and_topk_idx_kernel in noauxtc_kernel.h: the
    max-and-ballot loop over the group scores, and the groups that its result admits. */
module GroupThreshold {
  import opened Ballots
  import opened RealSeqs
  import opened TopTwo

  // ---------- counting scores ----------

  function AtLeast(s: seq<real>, t: real): (mask: seq<bool>)
    ensures |mask| == |s|
  {
    seq(|s|, g requires 0 <= g < |s| => s[g] >= t)
  }

  function MoreThan(s: seq<real>, t: real): (mask: seq<bool>)
    ensures |mask| == |s|
  {
    seq(|s|, g requires 0 <= g < |s| => s[g] > t)
  }

  function CountAtLeast(s: seq<real>, t: real): nat { Popc(AtLeast(s, t), |s|) }

  function CountMore(s: seq<real>, t: real): nat { Popc(MoreThan(s, t), |s|) }

  lemma AtLeastSplits(s: seq<real>, t: real)
    ensures CountAtLeast(s, t) == CountMore(s, t) + CountEqual(s, t)
  {
    PopcSplit(MoreThan(s, t), Equals(s, t), AtLeast(s, t), |s|);
  }

  lemma NoneAtLeast(s: seq<real>, t: real)
    ensures CountAtLeast(s, t) == 0 <==> forall g :: 0 <= g < |s| ==> s[g] < t
    ensures CountMore(s, t) == 0 <==> forall g :: 0 <= g < |s| ==> s[g] <= t
    ensures CountEqual(s, t) == 0 <==> forall g :: 0 <= g < |s| ==> s[g] != t
  {
    PopcNone(AtLeast(s, t));
    PopcNone(MoreThan(s, t));
    PopcNone(Equals(s, t));
    assert forall g :: 0 <= g < |s| ==> AtLeast(s, t)[g] == (s[g] >= t);
    assert forall g :: 0 <= g < |s| ==> MoreThan(s, t)[g] == (s[g] > t);
    assert forall g :: 0 <= g < |s| ==> Equals(s, t)[g] == (s[g] == t);
  }

  lemma PopcNone(mask: seq<bool>)
    ensures Popc(mask, |mask|) == 0 <==> forall g :: 0 <= g < |mask| ==> !mask[g]
  {
    PopcAll(mask, |mask|);
    if Popc(mask, |mask|) == 0 {
      forall g | 0 <= g < |mask| ensures !mask[g] {
        if mask[g] {
          PopcOne(mask, g);
        }
      }
    }
  }

  // ---------- the lanes ----------

  /** The values of the lanes before the loop. */
  function Lanes(scores: seq<real>, sentinel: real): (value: seq<real>)
    requires |scores| <= WARP_SIZE
    ensures |value| == WARP_SIZE
  {
    seq(WARP_SIZE, l requires 0 <= l < WARP_SIZE => if l < |scores| then scores[l] else sentinel)
  }

  /** One round: the largest value of any lane becomes the sentinel. */
  function Strip(value: seq<real>, sentinel: real): (v: seq<real>)
    requires |value| == WARP_SIZE
    ensures |v| == WARP_SIZE
  {
    var t := Max(value);
    seq(WARP_SIZE, l requires 0 <= l < WARP_SIZE => if value[l] == t then sentinel else value[l])
  }

  ghost function Rounds(scores: seq<real>, sentinel: real, n: nat): (v: seq<real>)
    requires |scores| <= WARP_SIZE
    ensures |v| == WARP_SIZE
  {
    if n == 0 then Lanes(scores, sentinel) else Strip(Rounds(scores, sentinel, n - 1), sentinel)
  }

  /** count_equal_to_top_value after n rounds. */
  ghost function Count(scores: seq<real>, sentinel: real, n: nat): nat
    requires |scores| <= WARP_SIZE
  {
    if n == 0 then WARP_SIZE - |scores| else CountEqual(Rounds(scores, sentinel, n), sentinel)
  }

  function Target(scores: seq<real>, topkGroup: nat): nat
    requires |scores| <= WARP_SIZE
  {
    WARP_SIZE - |scores| + topkGroup
  }

  /** Every score from level up has been removed. */
  ghost predicate Removed(scores: seq<real>, sentinel: real, value: seq<real>, level: real) {
    |scores| <= |value| == WARP_SIZE && level >= sentinel &&
    forall l :: 0 <= l < WARP_SIZE ==>
      value[l] == if l < |scores| && scores[l] < level then scores[l] else sentinel
  }

  /** Some lane holds at least the sentinel: an idle one, or one whose score does. */
  ghost predicate Anchored(scores: seq<real>, sentinel: real) {
    |scores| < WARP_SIZE || exists g :: 0 <= g < |scores| && scores[g] >= sentinel
  }

  /** One round removes the largest of the remaining scores above the sentinel; when
      none is left it changes nothing. */
  lemma NextLevel(scores: seq<real>, sentinel: real, value: seq<real>, level: real)
    requires Removed(scores, sentinel, value, level) && Anchored(scores, sentinel)
    ensures sentinel <= Max(value) <= level && (level > sentinel ==> Max(value) < level)
    ensures Removed(scores, sentinel, Strip(value, sentinel), Max(value))
    ensures Max(value) > sentinel ==> Max(value) in scores
    ensures forall g :: 0 <= g < |scores| && level > sentinel ==> (scores[g] > Max(value) <==> scores[g] >= level)
  {
    var t := Max(value);
    if |scores| < WARP_SIZE {
      assert value[WARP_SIZE - 1] == sentinel;
    } else {
      var g :| 0 <= g < |scores| && scores[g] >= sentinel;
      assert value[g] >= sentinel;
    }
    var l :| 0 <= l < WARP_SIZE && value[l] == t;
    forall m | 0 <= m < WARP_SIZE
      ensures Strip(value, sentinel)[m] == if m < |scores| && scores[m] < t then scores[m] else sentinel
    {
      assert value[m] <= t;
    }
    forall g | 0 <= g < |scores| && level > sentinel ensures scores[g] > t <==> scores[g] >= level {
      assert value[g] <= t;
    }
  }

  /** Counting the lanes that hold the sentinel counts the removed groups, and those
      that held it from the start. */
  lemma RemovedCount(scores: seq<real>, sentinel: real, value: seq<real>, level: real)
    requires Removed(scores, sentinel, value, level)
    ensures CountEqual(value, sentinel) ==
            WARP_SIZE - |scores| + CountAtLeast(scores, level) +
            if level > sentinel then CountEqual(scores, sentinel) else 0
  {
    var mask, n := Equals(value, sentinel), WARP_SIZE - |scores|;
    var pads := seq(n, l => true);
    var gone := seq(|scores|, g requires 0 <= g < |scores| => scores[g] >= level || scores[g] == sentinel);
    forall l | 0 <= l < WARP_SIZE ensures mask[l] == (gone + pads)[l] {}
    PopcSame(mask, gone + pads, WARP_SIZE);
    PopcJoin(gone, pads, n);
    PopcAll(pads, n);
    if level > sentinel {
      PopcSplit(AtLeast(scores, level), Equals(scores, sentinel), gone, |scores|);
    } else {
      PopcSame(AtLeast(scores, level), gone, |scores|);
    }
  }

  ghost function Ceiling(s: seq<real>, floor: real): (c: real)
    ensures c > floor && forall g :: 0 <= g < |s| ==> s[g] < c
  {
    if s == [] then floor + 1.0
    else
      var c := Ceiling(s[1..], floor);
      assert forall g :: 1 <= g < |s| ==> s[g] == s[1..][g - 1];
      if s[0] < c then c else s[0] + 1.0
  }

  lemma CountBelow(scores: seq<real>, t: real, level: real)
    requires forall g :: 0 <= g < |scores| ==> (scores[g] > t <==> scores[g] >= level)
    ensures CountMore(scores, t) == CountAtLeast(scores, level)
  {
    PopcSame(MoreThan(scores, t), AtLeast(scores, level), |scores|);
  }

  lemma Attained(scores: seq<real>, t: real)
    requires t in scores
    ensures CountEqual(scores, t) >= 1
  {
    var g :| 0 <= g < |scores| && scores[g] == t;
    CountIsOne(scores, t, g);
  }

  /** After n rounds every score from some level up is gone: the sentinel is that level,
      or n rounds have removed at least n groups. */
  lemma {:induction false} AfterRounds(scores: seq<real>, sentinel: real, n: nat) returns (level: real)
    requires |scores| <= WARP_SIZE && Anchored(scores, sentinel)
    ensures Removed(scores, sentinel, Rounds(scores, sentinel, n), level)
    ensures level == sentinel || CountAtLeast(scores, level) >= n
    ensures n == 0 ==> level > sentinel && CountAtLeast(scores, level) == 0
  {
    if n == 0 {
      level := Ceiling(scores, sentinel);
      NoneAtLeast(scores, level);
    } else {
      var before := AfterRounds(scores, sentinel, n - 1);
      var value := Rounds(scores, sentinel, n - 1);
      NextLevel(scores, sentinel, value, before);
      level := Max(value);
      if level > sentinel {
        CountBelow(scores, level, before);
        AtLeastSplits(scores, level);
        Attained(scores, level);
      }
    }
  }

  // ---------- when the loop ends ----------

  /** What the caller can check: enough scores reach the sentinel; or 32 groups all lie
      below it and enough of them share the largest score. */
  ghost predicate Ends(scores: seq<real>, sentinel: real, topkGroup: nat)
    requires |scores| > 0
  {
    CountAtLeast(scores, sentinel) >= topkGroup ||
    (|scores| == WARP_SIZE && CountAtLeast(scores, sentinel) == 0 && CountEqual(scores, Max(scores)) >= topkGroup)
  }

  /** 32 groups, all below the sentinel: the first round removes the largest, the others nothing. */
  lemma {:induction false} LowRounds(scores: seq<real>, sentinel: real, n: nat)
    requires |scores| == WARP_SIZE && CountAtLeast(scores, sentinel) == 0 && n >= 1
    ensures forall l :: 0 <= l < WARP_SIZE ==>
      Rounds(scores, sentinel, n)[l] == if scores[l] == Max(scores) then sentinel else scores[l]
    ensures Count(scores, sentinel, n) == CountEqual(scores, Max(scores))
  {
    NoneAtLeast(scores, sentinel);
    if n == 1 {
      assert Lanes(scores, sentinel) == scores;
    } else {
      LowRounds(scores, sentinel, n - 1);
      var before := Rounds(scores, sentinel, n - 1);
      var top :| 0 <= top < WARP_SIZE && scores[top] == Max(scores);
      assert before[top] == sentinel;
    }
    var v := Rounds(scores, sentinel, n);
    forall l | 0 <= l < WARP_SIZE ensures Equals(v, sentinel)[l] == Equals(scores, Max(scores))[l] {}
    PopcSame(Equals(v, sentinel), Equals(scores, Max(scores)), WARP_SIZE);
  }

  lemma AnchoredOrLow(scores: seq<real>, sentinel: real)
    requires 0 < |scores| <= WARP_SIZE
    ensures Anchored(scores, sentinel) <==> !(|scores| == WARP_SIZE && CountAtLeast(scores, sentinel) == 0)
  {
    NoneAtLeast(scores, sentinel);
  }

  lemma LevelCount(scores: seq<real>, sentinel: real, level: real)
    requires level >= sentinel
    ensures CountAtLeast(scores, level) + (if level > sentinel then CountEqual(scores, sentinel) else 0) <=
            CountAtLeast(scores, sentinel)
  {
    if level > sentinel {
      PopcImplies(AtLeast(scores, level), MoreThan(scores, sentinel), |scores|);
      AtLeastSplits(scores, sentinel);
    }
  }

  /** No round brings the count to the target unless Ends holds. */
  lemma NeverEnough(scores: seq<real>, sentinel: real, topkGroup: nat, n: nat)
    requires 0 < |scores| <= WARP_SIZE && n >= 1 && !Ends(scores, sentinel, topkGroup)
    ensures Count(scores, sentinel, n) < Target(scores, topkGroup)
  {
    AnchoredOrLow(scores, sentinel);
    if Anchored(scores, sentinel) {
      var level := AfterRounds(scores, sentinel, n);
      RemovedCount(scores, sentinel, Rounds(scores, sentinel, n), level);
      LevelCount(scores, sentinel, level);
    } else {
      LowRounds(scores, sentinel, n);
    }
  }

  /** If it holds, one round more than there are groups is enough. */
  lemma EnoughRounds(scores: seq<real>, sentinel: real, topkGroup: nat)
    requires 0 < |scores| <= WARP_SIZE && Ends(scores, sentinel, topkGroup) && topkGroup >= 1
    ensures Count(scores, sentinel, |scores| + 1) >= Target(scores, topkGroup)
  {
    AnchoredOrLow(scores, sentinel);
    var n := |scores| + 1;
    if Anchored(scores, sentinel) {
      var level := AfterRounds(scores, sentinel, n);
      PopcImplies(AtLeast(scores, level), AtLeast(scores, level), |scores|);
      RemovedCount(scores, sentinel, Rounds(scores, sentinel, n), level);
    } else {
      LowRounds(scores, sentinel, n);
    }
  }

  /** The max-and-ballot loop ends if and only if Ends holds. */
  lemma LoopEndsExactly(scores: seq<real>, sentinel: real, topkGroup: nat)
    requires 1 <= topkGroup < |scores| <= WARP_SIZE
    ensures (exists n :: n >= 1 && Count(scores, sentinel, n) >= Target(scores, topkGroup)) <==>
            Ends(scores, sentinel, topkGroup)
  {
    if Ends(scores, sentinel, topkGroup) {
      EnoughRounds(scores, sentinel, topkGroup);
    } else {
      forall n: nat | n >= 1 ensures Count(scores, sentinel, n) < Target(scores, topkGroup) {
        NeverEnough(scores, sentinel, topkGroup, n);
      }
    }
  }

  /** One group above the sentinel, two below it, and two to be admitted: the loop runs for ever. */
  lemma NeverEndsExample(sentinel: real, n: nat)
    requires n >= 1
    ensures var scores := [sentinel + 1.0, sentinel - 1.0, sentinel - 1.0];
      Count(scores, sentinel, n) < Target(scores, 2)
  {
    var scores := [sentinel + 1.0, sentinel - 1.0, sentinel - 1.0];
    var mask := AtLeast(scores, sentinel);
    assert mask[0] && !mask[1] && !mask[2];
    PopcOne(mask, 0);
    NeverEnough(scores, sentinel, 2, n);
  }

  // ---------- the admitted groups ----------

  /** The test of the pass over the groups: above the threshold, or equal to it
      while fewer than numEqual equal ones came before. */
  predicate Admitted(scores: seq<real>, t: real, numEqual: nat, g: nat)
    requires g < |scores|
  {
    scores[g] > t || (scores[g] == t && Popc(Equals(scores, t), g) < numEqual)
  }

  function AdmittedMask(scores: seq<real>, t: real, numEqual: nat): (mask: seq<bool>)
    ensures |mask| == |scores|
  {
    seq(|scores|, g requires 0 <= g < |scores| => Admitted(scores, t, numEqual, g))
  }

  /** chosen marks k groups, and each of them precedes every other group in the
      order by score, earlier group first among equals. */
  ghost predicate BestGroups(scores: seq<real>, chosen: seq<bool>, k: nat) {
    |chosen| == |scores| && Popc(chosen, |scores|) == k &&
    forall g, h :: 0 <= g < |scores| && 0 <= h < |scores| && chosen[g] && !chosen[h] ==>
      scores[g] > scores[h] || (scores[g] == scores[h] && g < h)
  }

  lemma {:induction false} AdmittedCount(scores: seq<real>, t: real, numEqual: nat, n: nat)
    requires n <= |scores|
    ensures var eq := Popc(Equals(scores, t), n);
      Popc(AdmittedMask(scores, t, numEqual), n) ==
      Popc(MoreThan(scores, t), n) + if eq < numEqual then eq else numEqual
  {
    if n > 0 {
      AdmittedCount(scores, t, numEqual, n - 1);
    }
  }

  lemma {:induction false} EarlierEquals(scores: seq<real>, t: real, g: nat, h: nat)
    requires g <= h <= |scores|
    ensures Popc(Equals(scores, t), g) <= Popc(Equals(scores, t), h)
  {
    if g < h {
      EarlierEquals(scores, t, g, h - 1);
    }
  }

  /** How many groups the threshold and the tie count admit. */
  function AdmittedOf(scores: seq<real>, t: real, numEqual: nat): nat {
    CountMore(scores, t) + if CountEqual(scores, t) < numEqual then CountEqual(scores, t) else numEqual
  }

  /** Whatever the threshold, an admitted group precedes every other one; so the
      groups are the best ones exactly if there are as many as wanted. */
  lemma BestIfEnough(scores: seq<real>, t: real, numEqual: nat, k: nat)
    ensures BestGroups(scores, AdmittedMask(scores, t, numEqual), k) <==> AdmittedOf(scores, t, numEqual) == k
  {
    AdmittedCount(scores, t, numEqual, |scores|);
    var mask := AdmittedMask(scores, t, numEqual);
    forall g, h | 0 <= g < |scores| && 0 <= h < |scores| && mask[g] && !mask[h]
      ensures scores[g] > scores[h] || (scores[g] == scores[h] && g < h)
    {
      if scores[g] == scores[h] == t && h <= g {
        EarlierEquals(scores, t, h, g);
      }
    }
  }

  // ---------- the loop ----------

  /** No group scores exactly the sentinel, or enough groups share the largest score. */
  ghost predicate Fits(scores: seq<real>, sentinel: real, topkGroup: nat)
    requires |scores| > 0
  {
    sentinel !in scores || CountEqual(scores, Max(scores)) >= topkGroup
  }

  /** r is the first round that reaches the target, t the value it removed, and
      numEqual what was missing before it. */
  ghost predicate Found(scores: seq<real>, sentinel: real, topkGroup: nat, r: nat, t: real, numEqual: nat)
    requires |scores| <= WARP_SIZE
  {
    r >= 1 && Count(scores, sentinel, r) >= Target(scores, topkGroup) &&
    (forall q :: 1 <= q < r ==> Count(scores, sentinel, q) < Target(scores, topkGroup)) &&
    t == Max(Rounds(scores, sentinel, r - 1)) &&
    Count(scores, sentinel, r - 1) + numEqual == Target(scores, topkGroup)
  }

  /** The max-and-ballot loop.  Given that it ends, it admits exactly the topk_group best
      groups if and only if no group scores exactly the sentinel, or enough groups share
      the largest score. */
  method FindThreshold(scores: seq<real>, sentinel: real, topkGroup: nat) returns (t: real, numEqual: nat)
    requires 1 <= topkGroup < |scores| <= WARP_SIZE && Ends(scores, sentinel, topkGroup)
    ensures BestGroups(scores, AdmittedMask(scores, t, numEqual), topkGroup) <==>
            Fits(scores, sentinel, topkGroup)
    ensures t == sentinel <==> Max(scores) == sentinel
    ensures exists r :: Found(scores, sentinel, topkGroup, r, t, numEqual)
  {
    hide CountEqual, Rounds;
    var targetNumMin := WARP_SIZE - |scores| + topkGroup;
    var value := Lanes(scores, sentinel);
    t := sentinel;
    var count := WARP_SIZE - |scores|;
    var preCount := 0;
    ghost var r := 0;
    RoundsStep(scores, sentinel, 0);
    EnoughRounds(scores, sentinel, topkGroup);
    while count < targetNumMin
      invariant value == Rounds(scores, sentinel, r) && count == Count(scores, sentinel, r) && r <= |scores| + 1
      invariant forall q :: 1 <= q < r ==> Count(scores, sentinel, q) < targetNumMin
      invariant r > 0 ==> t == Max(Rounds(scores, sentinel, r - 1))
      invariant r > 0 ==> preCount == Count(scores, sentinel, r - 1) < targetNumMin
      decreases |scores| + 1 - r
    {
      RoundsStep(scores, sentinel, r);
      t := Max(value);
      value := Strip(value, sentinel);
      preCount := count;
      count := CountEqual(value, sentinel);
      r := r + 1;
    }
    numEqual := targetNumMin - preCount;
    FoundIsRight(scores, sentinel, topkGroup, r, t, numEqual);
  }

  /** chosen marks the groups that the first part can admit.  When all groups are wanted
      the loop is skipped, and the tie count may hold anything. */
  ghost predicate AdmittedBy(gs: seq<real>, sentinel: real, topkGroup: nat, chosen: seq<bool>)
    requires |gs| <= WARP_SIZE
  {
    if topkGroup < |gs| then
      exists t, numEqual, r :: Found(gs, sentinel, topkGroup, r, t, numEqual) && chosen == AdmittedMask(gs, t, numEqual)
    else
      exists numEqual: nat :: chosen == AdmittedMask(gs, sentinel, numEqual)
  }

  /** The first part of the kernel. */
  method Threshold(gs: seq<real>, sentinel: real, topkGroup: nat) returns (t: real, numEqual: nat)
    requires 1 <= topkGroup <= |gs| <= WARP_SIZE && (topkGroup < |gs| ==> Ends(gs, sentinel, topkGroup))
    ensures AdmittedBy(gs, sentinel, topkGroup, AdmittedMask(gs, t, numEqual))
    ensures topkGroup < |gs| ==>
      (BestGroups(gs, AdmittedMask(gs, t, numEqual), topkGroup) <==> Fits(gs, sentinel, topkGroup))
    ensures t == sentinel <==> topkGroup == |gs| || Max(gs) == sentinel
  {
    hide BestGroups, AdmittedMask, CountEqual, CountMore, Ends, Fits, Found;
    t, numEqual := sentinel, *;
    if |gs| > topkGroup {
      t, numEqual := FindThreshold(gs, sentinel, topkGroup);
    }
  }

  /** When all groups are wanted and lie above the sentinel, all are admitted. */
  lemma AllAdmitted(gs: seq<real>, sentinel: real, numEqual: nat)
    requires forall g :: 0 <= g < |gs| ==> gs[g] > sentinel
    ensures BestGroups(gs, AdmittedMask(gs, sentinel, numEqual), |gs|)
  {
    BestIfEnough(gs, sentinel, numEqual, |gs|);
    NoneAtLeast(gs, sentinel);
    PopcAll(MoreThan(gs, sentinel), |gs|);
  }

  lemma RoundsStep(scores: seq<real>, sentinel: real, r: nat)
    requires |scores| <= WARP_SIZE
    ensures Rounds(scores, sentinel, 0) == Lanes(scores, sentinel)
    ensures Rounds(scores, sentinel, r + 1) == Strip(Rounds(scores, sentinel, r), sentinel)
    ensures Count(scores, sentinel, r + 1) == CountEqual(Rounds(scores, sentinel, r + 1), sentinel)
  {}

  lemma FoundIsRight(scores: seq<real>, sentinel: real, topkGroup: nat, r: nat, t: real, numEqual: nat)
    requires 1 <= topkGroup < |scores| <= WARP_SIZE && Found(scores, sentinel, topkGroup, r, t, numEqual)
    ensures BestGroups(scores, AdmittedMask(scores, t, numEqual), topkGroup) <==>
            Fits(scores, sentinel, topkGroup)
    ensures t == sentinel <==> Max(scores) == sentinel
  {
    hide BestGroups, AdmittedMask, CountAtLeast, CountMore, CountEqual, Rounds, Count, Anchored;
    if !Ends(scores, sentinel, topkGroup) {
      NeverEnough(scores, sentinel, topkGroup, r);
    }
    BestIfEnough(scores, t, numEqual, topkGroup);
    AnchoredOrLow(scores, sentinel);
    if !Anchored(scores, sentinel) {
      LowFound(scores, sentinel, topkGroup, r, t, numEqual);
    } else if r == 1 {
      FirstFound(scores, sentinel, topkGroup, t, numEqual);
    } else {
      LaterFound(scores, sentinel, topkGroup, r, t, numEqual);
    }
  }

  lemma NothingAboveMax(scores: seq<real>)
    requires |scores| > 0
    ensures CountMore(scores, Max(scores)) == 0
  {
    NoneAtLeast(scores, Max(scores));
  }

  lemma LowFound(scores: seq<real>, sentinel: real, topkGroup: nat, r: nat, t: real, numEqual: nat)
    requires 1 <= topkGroup < |scores| == WARP_SIZE && Found(scores, sentinel, topkGroup, r, t, numEqual)
    requires CountAtLeast(scores, sentinel) == 0
    ensures AdmittedOf(scores, t, numEqual) == topkGroup <= CountEqual(scores, Max(scores))
    ensures t == Max(scores) < sentinel
  {
    hide CountAtLeast, CountMore, CountEqual;
    NoneAtLeast(scores, sentinel);
    LowRounds(scores, sentinel, r);
    LowRounds(scores, sentinel, 1);
    assert Lanes(scores, sentinel) == scores;
    NothingAboveMax(scores);
  }

  /** The value of the first round is the largest score. */
  lemma FirstValue(scores: seq<real>, sentinel: real)
    requires 0 < |scores| <= WARP_SIZE && CountAtLeast(scores, sentinel) > 0
    ensures Max(Rounds(scores, sentinel, 0)) == Max(scores) >= sentinel
  {
    NoneAtLeast(scores, sentinel);
    var g :| 0 <= g < |scores| && scores[g] >= sentinel;
    var value := Lanes(scores, sentinel);
    var top :| 0 <= top < |scores| && scores[top] == Max(scores);
    assert value[top] == Max(scores);
    var l :| 0 <= l < WARP_SIZE && value[l] == Max(value);
  }

  /** The count after the first round. */
  lemma FirstCount(scores: seq<real>, sentinel: real)
    requires 0 < |scores| <= WARP_SIZE && CountAtLeast(scores, sentinel) > 0
    ensures Count(scores, sentinel, 1) == WARP_SIZE - |scores| + CountEqual(scores, Max(scores)) +
                                          if Max(scores) > sentinel then CountEqual(scores, sentinel) else 0
  {
    hide CountMore, CountEqual, Lanes;
    FirstValue(scores, sentinel);
    NoneAtLeast(scores, sentinel);
    assert Anchored(scores, sentinel);
    var level := AfterRounds(scores, sentinel, 0);
    NextLevel(scores, sentinel, Rounds(scores, sentinel, 0), level);
    RoundsStep(scores, sentinel, 0);
    RemovedCount(scores, sentinel, Rounds(scores, sentinel, 1), Max(scores));
    AtLeastSplits(scores, Max(scores));
    NothingAboveMax(scores);
  }

  /** The loop ends after one round: enough groups share the largest score, unless a
      sentinel among the scores was counted with them. */
  lemma FirstFound(scores: seq<real>, sentinel: real, topkGroup: nat, t: real, numEqual: nat)
    requires 1 <= topkGroup < |scores| <= WARP_SIZE && Found(scores, sentinel, topkGroup, 1, t, numEqual)
    requires CountAtLeast(scores, sentinel) > 0
    ensures AdmittedOf(scores, t, numEqual) == topkGroup <==>
            Fits(scores, sentinel, topkGroup)
    ensures t == sentinel <==> Max(scores) == sentinel
  {
    hide CountMore, CountEqual, CountAtLeast, Rounds;
    FirstValue(scores, sentinel);
    FirstCount(scores, sentinel);
    NothingAboveMax(scores);
    NoneAtLeast(scores, sentinel);
    RoundsStep(scores, sentinel, 0);
  }

  /** It ends later: every sentinel among the scores takes the place of a group. */
  lemma LaterFound(scores: seq<real>, sentinel: real, topkGroup: nat, r: nat, t: real, numEqual: nat)
    requires 1 <= topkGroup < |scores| <= WARP_SIZE && Found(scores, sentinel, topkGroup, r, t, numEqual) && r >= 2
    requires Anchored(scores, sentinel) && CountAtLeast(scores, sentinel) > 0
    ensures AdmittedOf(scores, t, numEqual) == topkGroup <==>
            Fits(scores, sentinel, topkGroup)
    ensures t == sentinel <==> Max(scores) == sentinel
  {
    hide CountMore, CountEqual, CountAtLeast, Anchored;
    FirstCount(scores, sentinel);
    NoneAtLeast(scores, sentinel);
    var before := AfterRounds(scores, sentinel, r - 1);
    var value := Rounds(scores, sentinel, r - 1);
    RemovedCount(scores, sentinel, value, before);
    NextLevel(scores, sentinel, value, before);
    RemovedCount(scores, sentinel, Rounds(scores, sentinel, r), t);
    assert before > sentinel;
    CountBelow(scores, t, before);
    AtLeastSplits(scores, t);
  }

  /** Three groups above the sentinel and one that scores exactly the sentinel, two to be
      admitted: the sentinel is taken for a removed group, and only one is admitted. */
  lemma SentinelScoreFails(sentinel: real, t: real, numEqual: nat, r: nat)
    requires Found([sentinel + 3.0, sentinel + 2.0, sentinel + 1.0, sentinel], sentinel, 2, r, t, numEqual)
    ensures var scores := [sentinel + 3.0, sentinel + 2.0, sentinel + 1.0, sentinel];
      !BestGroups(scores, AdmittedMask(scores, t, numEqual), 2)
  {
    var scores := [sentinel + 3.0, sentinel + 2.0, sentinel + 1.0, sentinel];
    FoundIsRight(scores, sentinel, 2, r, t, numEqual);
    assert scores[3] == sentinel;
    CountIsOne(scores, Max(scores), 0);
  }
}
