/** GraphOptimizationConfig of fastdeploy/config.py: the batch sizes for which CUDA
    graphs are captured, and the table from a batch size to the captured size. */
module CaptureTable {
  import opened Arith

  // ---------- list operations ----------

  function AtMost(sizes: seq<int>, bound: int): (kept: seq<int>)
    ensures forall s :: s in kept <==> s in sizes && s <= bound
  {
    if sizes == [] then []
    else (if sizes[0] <= bound then [sizes[0]] else []) + AtMost(sizes[1..], bound)
  }

  ghost predicate Descends(d: seq<int>) {
    forall i, j :: 0 <= i < j < |d| ==> d[i] > d[j]
  }

  function InsertDown(d: seq<int>, x: int): (e: seq<int>)
    requires Descends(d)
    ensures Descends(e) && forall s :: s in e <==> s in d || s == x
  {
    if d == [] || x > d[0] then [x] + d
    else if x == d[0] then d
    else
      var e := InsertDown(d[1..], x);
      assert forall s :: s in e ==> s < d[0];
      assert forall i :: 0 <= i < |e| ==> e[i] in e;
      [d[0]] + e
  }

  /** list(set(sizes)) sorted in descending order. */
  function Descending(sizes: seq<int>): (d: seq<int>)
    ensures Descends(d) && forall s :: s in d <==> s in sizes
  {
    if sizes == [] then [] else InsertDown(Descending(sizes[1..]), sizes[0])
  }

  ghost predicate Ascends(d: seq<int>) {
    forall i, j :: 0 <= i < j < |d| ==> d[i] <= d[j]
  }

  function InsertUp(d: seq<int>, x: int): (e: seq<int>)
    requires Ascends(d)
    ensures Ascends(e) && |e| == |d| + 1 && forall s :: s in e <==> s in d || s == x
  {
    if d == [] || x <= d[0] then [x] + d
    else
      var e := InsertUp(d[1..], x);
      assert forall s :: s in e ==> d[0] <= s by {
        assert forall s :: s in d[1..] ==> s in d && d[0] <= s;
      }
      assert forall i :: 0 <= i < |e| ==> e[i] in e;
      [d[0]] + e
  }

  /** sorted(sizes). */
  function Sorted(sizes: seq<int>): (d: seq<int>)
    ensures Ascends(d) && |d| == |sizes| && forall s :: s in d <==> s in sizes
  {
    if sizes == [] then [] else InsertUp(Sorted(sizes[1..]), sizes[0])
  }

  // ---------- what the table holds ----------

  /** v is the least size that is not below b. */
  ghost predicate IsCeiling(sizes: seq<int>, b: int, v: int) {
    v in sizes && v >= b && forall w :: w in sizes && w >= b ==> v <= w
  }

  /** The greatest size, 0 if there is none. */
  function Top(d: seq<int>): int {
    if d == [] then 0 else d[0]
  }

  /** Where the table starts: at 0, or at a size below that. */
  function Bottom(d: seq<int>): int {
    if d == [] || d[|d| - 1] > 0 then 0 else d[|d| - 1]
  }

  /** The table covers everything from the bottom to the top, and maps each batch
      size but the bottom to the least captured size that is not below it. */
  ghost predicate Table(t: map<int, int>, d: seq<int>) {
    (forall b :: b in t <==> Bottom(d) <= b <= Top(d)) &&
    (forall b :: Bottom(d) < b <= Top(d) ==> IsCeiling(d, b, t[b])) &&
    (Bottom(d) in t ==> t[Bottom(d)] == Bottom(d))
  }

  /** The part of the table from low up to the top, the top excluded. */
  ghost predicate Upper(t: map<int, int>, d: seq<int>, low: int) {
    (forall b :: b in t <==> low <= b < Top(d)) &&
    (forall b :: b in t ==> if b == low then t[b] == low else IsCeiling(d, b, t[b]))
  }

  /** after is before with the batch sizes from start up to upTo, all but the first mapped to end. */
  ghost predicate Filled(after: map<int, int>, before: map<int, int>, start: int, upTo: int, end: int) {
    (forall b :: b in after <==> b in before || start <= b < upTo) &&
    (forall b :: b in after ==>
      after[b] == if start <= b < upTo then (if b == start then start else end) else before[b])
  }

  function Low(d: seq<int>, k: nat): int
    requires k <= |d|
  {
    if k == 0 then Top(d) else if k < |d| then d[k] else Bottom(d)
  }

  /** Between two neighbouring sizes the ceiling is the greater one. */
  lemma NextSize(d: seq<int>, k: nat, b: int)
    requires Descends(d) && k < |d| && (if k + 1 < |d| then d[k + 1] else Bottom(d)) < b <= d[k]
    ensures IsCeiling(d, b, d[k])
  {
    forall i | k < i < |d| ensures d[i] < b {
      assert d[i] <= d[k + 1];
    }
    forall w | w in d && w >= b ensures d[k] <= w {
      var i :| 0 <= i < |d| && d[i] == w;
    }
  }

  lemma UpperGrows(before: map<int, int>, after: map<int, int>, d: seq<int>, k: nat, start: int)
    requires Descends(d) && k < |d| && Upper(before, d, Low(d, k)) && start == (if k + 1 < |d| then d[k + 1] else 0)
    requires Filled(after, before, start, d[k], d[k])
    ensures Upper(after, d, Low(d, k + 1))
  {
    hide IsCeiling;
    forall b | b in after ensures if b == Low(d, k + 1) then after[b] == b else IsCeiling(d, b, after[b]) {
      if start < b <= d[k] {
        NextSize(d, k, b);
      }
    }
  }

  lemma TableDone(t: map<int, int>, d: seq<int>)
    requires Descends(d) && Upper(t, d, Low(d, |d|))
    ensures Table(t[Top(d) := Top(d)], d)
  {
    if d != [] {
      assert forall i :: 0 <= i < |d| ==> d[i] <= d[0];
      assert IsCeiling(d, d[0], d[0]);
    }
  }

  class GraphOptimizationConfig {
    var cudagraphCaptureSizes: seq<int>
    var maxCaptureSize: int
    var realShapeToCapturedSize: map<int, int>

    constructor (sizes: seq<int>)
      ensures cudagraphCaptureSizes == sizes
    {
      cudagraphCaptureSizes, maxCaptureSize, realShapeToCapturedSize := sizes, 0, map[];
    }

    method SetCudagraphSizes(maxNumSeqs: int)
      modifies `cudagraphCaptureSizes
      ensures cudagraphCaptureSizes == Sorted(DraftSizes(maxNumSeqs)) && Ascends(cudagraphCaptureSizes)
      ensures forall s :: s in cudagraphCaptureSizes <==> IsDefault(s, maxNumSeqs)
    {
      var draftCaptureSizes := [1, 2, 4] + Multiples(8, 1, 17);
      draftCaptureSizes := draftCaptureSizes + Multiples(16, 9, 17);
      draftCaptureSizes := draftCaptureSizes + Multiples(32, 17, 33);
      draftCaptureSizes := draftCaptureSizes + [maxNumSeqs];
      cudagraphCaptureSizes := Sorted(draftCaptureSizes);
      forall s ensures s in cudagraphCaptureSizes <==> IsDefault(s, maxNumSeqs) {
        DraftIsDefault(maxNumSeqs, s);
      }
    }

    /** The inner loop. */
    method FillRange(start: int, end: int)
      modifies `realShapeToCapturedSize
      ensures Filled(realShapeToCapturedSize, old(realShapeToCapturedSize), start, end, end)
    {
      var bs := start;
      while bs < end
        invariant bs == start || start <= bs <= end
        invariant Filled(realShapeToCapturedSize, old(realShapeToCapturedSize), start, bs, end)
      {
        if bs == start {
          realShapeToCapturedSize := realShapeToCapturedSize[bs := start];
        } else {
          realShapeToCapturedSize := realShapeToCapturedSize[bs := end];
        }
        bs := bs + 1;
      }
    }

    method InitWithCudagraphSize(maxNumSeqs: int)
      modifies this
      ensures cudagraphCaptureSizes == Descending(AtMost(old(cudagraphCaptureSizes), maxNumSeqs))
      ensures maxCaptureSize == Top(cudagraphCaptureSizes)
      ensures Table(realShapeToCapturedSize, cudagraphCaptureSizes)
    {
      hide Filled, Table, Upper, Descends;
      cudagraphCaptureSizes := Descending(AtMost(cudagraphCaptureSizes, maxNumSeqs));
      var d := cudagraphCaptureSizes;
      maxCaptureSize := if d != [] then d[0] else 0;
      realShapeToCapturedSize := map[];
      var starts := if d == [] then [0] else d[1..] + [0];
      UpperStarts(d);
      for k := 0 to |d|
        invariant Upper(realShapeToCapturedSize, d, Low(d, k))
        invariant cudagraphCaptureSizes == d && maxCaptureSize == Top(d)
      {
        var end, start := d[k], starts[k];
        ghost var before := realShapeToCapturedSize;
        FillRange(start, end);
        UpperGrows(before, realShapeToCapturedSize, d, k, start);
      }
      TableDone(realShapeToCapturedSize, d);
      realShapeToCapturedSize := realShapeToCapturedSize[maxCaptureSize := maxCaptureSize];
    }
  }

  lemma UpperStarts(d: seq<int>)
    ensures Upper(map[], d, Low(d, 0))
  {}

  // ---------- what the table is for ----------

  ghost predicate NonNegative(sizes: seq<int>) {
    forall s :: s in sizes ==> s >= 0
  }

  /** The table covers exactly 0 to the greatest size if and only if no size is negative. */
  lemma CoversFromZero(t: map<int, int>, d: seq<int>)
    requires Descends(d) && Table(t, d)
    ensures (forall b :: b in t <==> 0 <= b <= Top(d)) <==> NonNegative(d)
  {
    if NonNegative(d) {
      if d != [] {
        assert d[0] in d && d[|d| - 1] in d;
      }
    } else {
      var s :| s in d && s < 0;
      var i :| 0 <= i < |d| && d[i] == s;
      assert d[|d| - 1] <= d[i] < 0 && d[|d| - 1] <= d[0];
      assert Bottom(d) in t;
    }
  }

  /** On sizes that are not negative, the table is the least upper bound: 0 stays 0,
      and every other batch size gets the least captured size that can hold it. */
  lemma LeastUpperBound(t: map<int, int>, d: seq<int>, b: int)
    requires Descends(d) && Table(t, d) && NonNegative(d) && 0 <= b <= Top(d)
    ensures b in t && if b == 0 then t[b] == 0 else IsCeiling(d, b, t[b])
  {
    CoversFromZero(t, d);
    if d != [] {
      assert d[|d| - 1] in d;
    }
  }

  lemma IsMonotone(t: map<int, int>, d: seq<int>, a: int, b: int)
    requires Descends(d) && Table(t, d) && NonNegative(d) && 0 <= a <= b <= Top(d)
    ensures a in t && b in t && t[a] <= t[b]
  {
    LeastUpperBound(t, d, a);
    LeastUpperBound(t, d, b);
  }

  lemma IsIdempotent(t: map<int, int>, d: seq<int>, b: int)
    requires Descends(d) && Table(t, d) && NonNegative(d) && 0 <= b <= Top(d)
    ensures b in t && b <= t[b] <= Top(d) && t[b] in t && t[t[b]] == t[b]
  {
    LeastUpperBound(t, d, b);
    if b > 0 {
      assert forall i :: 0 <= i < |d| ==> d[i] <= d[0];
      LeastUpperBound(t, d, t[b]);
    }
  }

  // ---------- the default sizes ----------

  /** [step * i for i in range(first, end)] */
  function Multiples(step: int, first: int, end: int): (m: seq<int>)
    requires first <= end
    ensures |m| == end - first && forall k :: 0 <= k < |m| ==> m[k] == step * (first + k)
  {
    seq(end - first, k => step * (first + k))
  }

  lemma MultipleIn(step: int, first: int, end: int, i: int)
    requires first <= i < end
    ensures step * i in Multiples(step, first, end)
  {
    assert Multiples(step, first, end)[i - first] == step * i;
  }

  function DraftSizes(maxNumSeqs: int): seq<int> {
    [1, 2, 4] + Multiples(8, 1, 17) + Multiples(16, 9, 17) + Multiples(32, 17, 33) + [maxNumSeqs]
  }

  /** The default sizes: 1, 2 and 4, the multiples of 8 up to 128, of 16 up to 256 and of
      32 from 544 to 1024, and the number of sequences. */
  predicate IsDefault(s: int, maxNumSeqs: int) {
    s in {1, 2, 4, maxNumSeqs} || (8 <= s <= 128 && s % 8 == 0) || (144 <= s <= 256 && s % 16 == 0) ||
    (544 <= s <= 1024 && s % 32 == 0)
  }

  lemma OfMultiples(step: int, first: int, end: int, s: int)
    requires first <= end && step > 0 && s in Multiples(step, first, end)
    ensures step * first <= s < step * end && s % step == 0
  {
    var m := Multiples(step, first, end);
    var k :| 0 <= k < |m| && m[k] == s;
    var i := first + k;
    hide Multiples;
    assert s == i * step;
    DivModUnique(s, i, 0, step);
    MulLe(first, i, step);
    MulLe(i + 1, end, step);
  }

  lemma AmongMultiples(step: int, first: int, end: int, s: int)
    requires first <= end && step > 0 && step * first <= s < step * end && s % step == 0
    ensures s in Multiples(step, first, end)
  {
    hide Multiples;
    var i := s / step;
    assert s == i * step;
    if i < first {
      MulLe(i + 1, first, step);
    } else if i >= end {
      MulLe(end, i, step);
    } else {
      MultipleIn(step, first, end, i);
    }
  }

  lemma InMultiples(step: int, first: int, end: int, s: int)
    requires first <= end && step > 0
    ensures s in Multiples(step, first, end) <==> step * first <= s < step * end && s % step == 0
  {
    hide Multiples;
    if s in Multiples(step, first, end) {
      OfMultiples(step, first, end, s);
    } else if step * first <= s < step * end && s % step == 0 {
      AmongMultiples(step, first, end, s);
    }
  }

  lemma DraftIsDefault(maxNumSeqs: int, s: int)
    ensures s in DraftSizes(maxNumSeqs) <==> IsDefault(s, maxNumSeqs)
  {
    hide Multiples;
    InMultiples(8, 1, 17, s);
    InMultiples(16, 9, 17, s);
    InMultiples(32, 17, 33, s);
    assert s in DraftSizes(maxNumSeqs) <==>
           s in [1, 2, 4] || s in Multiples(8, 1, 17) || s in Multiples(16, 9, 17) ||
           s in Multiples(32, 17, 33) || s in [maxNumSeqs];
  }

  lemma DraftPositive(maxNumSeqs: int)
    requires maxNumSeqs >= 1
    ensures NonNegative(DraftSizes(maxNumSeqs))
  {
    forall s | s in DraftSizes(maxNumSeqs) ensures s >= 0 {
      assert s in [1, 2, 4] || s in Multiples(8, 1, 17) || s in Multiples(16, 9, 17) ||
             s in Multiples(32, 17, 33) || s == maxNumSeqs;
    }
  }

  /** A drafted size close above every batch size up to 256. */
  function Near(b: int): int {
    if b <= 2 then b else if b <= 4 then 4 else if b <= 128 then 8 * ((b + 7) / 8) else 16 * ((b + 15) / 16)
  }

  lemma NearDrafted(maxNumSeqs: int, b: int)
    requires 1 <= b <= 256
    ensures Near(b) in DraftSizes(maxNumSeqs) && b <= Near(b) < 2 * b
    ensures Near(b) - b <= if b <= 128 then 7 else 15
  {
    if b <= 4 {
      assert Near(b) in [1, 2, 4];
    } else if b <= 128 {
      MultipleIn(8, 1, 17, (b + 7) / 8);
    } else {
      MultipleIn(16, 9, 17, (b + 15) / 16);
    }
  }

  /** With the default sizes, for the batch sizes the configuration allows, less than
      half of a padded batch is padding, at most 7 up to 128 and at most 15 above. */
  lemma DefaultPadding(maxNumSeqs: int, t: map<int, int>, d: seq<int>, b: int)
    requires 1 <= maxNumSeqs <= 256 && d == Descending(AtMost(Sorted(DraftSizes(maxNumSeqs)), maxNumSeqs))
    requires Table(t, d) && 1 <= b <= maxNumSeqs
    ensures Top(d) == maxNumSeqs && b in t && b <= t[b] < 2 * b
    ensures t[b] - b <= if b <= 128 then 7 else 15
  {
    DraftPositive(maxNumSeqs);
    assert maxNumSeqs in DraftSizes(maxNumSeqs) by {
      assert DraftSizes(maxNumSeqs)[|DraftSizes(maxNumSeqs)| - 1] == maxNumSeqs;
    }
    assert d[0] in d && maxNumSeqs in d;
    NearDrafted(maxNumSeqs, b);
    LeastUpperBound(t, d, b);
    if Near(b) <= maxNumSeqs {
      assert Near(b) in d;
    }
  }
}
