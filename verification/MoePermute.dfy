/** Routing, permuting, per-expert computation and the k-way reduction of
    fused_moe_op.h and moe_dispatch.cu, against the direct sum over each row's
    experts. */
module MoePermute {
  import opened Arith
  import opened RealSeqs

  type Row = seq<real>

  // ---------- sorting the expanded rows by expert ----------

  /** Round kIdx of row r is stored at k*r + kIdx and names the expanded row
      kIdx*rows + r. */
  ghost predicate SourceRows(sourceRows: seq<int>, rows: nat, k: nat) {
    |sourceRows| == rows * k &&
    forall r, kIdx :: 0 <= r < rows && 0 <= kIdx < k ==> Named(sourceRows, rows, k, r, kIdx)
  }

  ghost predicate Named(sourceRows: seq<int>, rows: nat, k: nat, r: nat, kIdx: nat) {
    k * r + kIdx < |sourceRows| && sourceRows[k * r + kIdx] == kIdx * rows + r
  }

  /** The stores to source_rows of the k rounds of every row. */
  method WriteSourceRows(rows: nat, k: nat) returns (sourceRows: seq<int>)
    ensures SourceRows(sourceRows, rows, k)
  {
    sourceRows := [];
    for blockRow := 0 to rows
      invariant |sourceRows| == blockRow * k
      invariant forall r, kIdx :: 0 <= r < blockRow && 0 <= kIdx < k ==> Named(sourceRows, rows, k, r, kIdx)
    {
      ghost var before := sourceRows;
      for kIdx := 0 to k
        invariant |sourceRows| == |before| + kIdx
        invariant forall i :: 0 <= i < |before| ==> sourceRows[i] == before[i]
        invariant forall i :: 0 <= i < kIdx ==> sourceRows[|before| + i] == i * rows + blockRow
      {
        sourceRows := sourceRows + [kIdx * rows + blockRow];
      }
      RowFits(blockRow, rows, k);
      forall r, kIdx | 0 <= r < blockRow + 1 && 0 <= kIdx < k ensures Named(sourceRows, rows, k, r, kIdx) {
        if r < blockRow {
          assert Named(before, rows, k, r, kIdx);
        }
      }
    }
  }

  lemma RowFits(r: nat, rows: nat, k: nat)
    requires r < rows
    ensures (r + 1) * k == r * k + k <= rows * k && k * r == r * k
  {
    MulLe(r + 1, rows, k);
  }

  lemma ExpandedFits(r: nat, rows: nat, kIdx: nat, k: nat)
    requires r < rows && kIdx < k
    ensures 0 <= kIdx * rows + r < rows * k && 0 <= k * r + kIdx < rows * k
    ensures (kIdx * rows + r) % rows == r
  {
    MulLe(kIdx + 1, k, rows);
    MulLe(r + 1, rows, k);
    DivModUnique(kIdx * rows + r, kIdx, r, rows);
  }

  /** Every flat position belongs to some round of some row. */
  lemma {:induction false} FlatOf(i: nat, rows: nat, k: nat) returns (r: nat, kIdx: nat)
    requires i < rows * k
    ensures r < rows && kIdx < k && i == k * r + kIdx
  {
    RowFits(rows - 1, rows, k);
    if i >= (rows - 1) * k {
      r, kIdx := rows - 1, i - (rows - 1) * k;
    } else {
      r, kIdx := FlatOf(i, rows - 1, k);
    }
  }

  ghost predicate IsPermutation(perm: seq<nat>, n: nat) {
    |perm| == n && (forall d :: 0 <= d < n ==> perm[d] < n) &&
    (forall d, e :: 0 <= d < e < n ==> perm[d] != perm[e]) &&
    (forall f :: 0 <= f < n ==> Hit(perm, f))
  }

  ghost predicate Hit(perm: seq<nat>, f: nat) {
    exists d :: 0 <= d < |perm| && perm[d] == f
  }

  /** What the radix sort promises: some permutation sorts the keys and carries
      the values along. */
  ghost predicate SortedPairs(keys: seq<int>, values: seq<int>, perm: seq<nat>, outKeys: seq<int>,
                              outValues: seq<int>) {
    |keys| == |values| == |outKeys| == |outValues| && IsPermutation(perm, |keys|) &&
    (forall d :: 0 <= d < |outKeys| ==> outKeys[d] == keys[perm[d]] && outValues[d] == values[perm[d]]) &&
    (forall d, e :: 0 <= d < e < |outKeys| ==> outKeys[d] <= outKeys[e])
  }

  /** inverse undoes the order of the destination rows. */
  ghost predicate Inverts(permutedRows: seq<int>, inverse: seq<int>) {
    |inverse| == |permutedRows| &&
    forall d :: 0 <= d < |permutedRows| ==> 0 <= permutedRows[d] < |inverse| && inverse[permutedRows[d]] == d
  }

  /** The values of a sorted permutation of source_rows are distinct and in range. */
  lemma RowsDistinct(keys: seq<int>, sourceRows: seq<int>, perm: seq<nat>, permutedExperts: seq<int>,
                     permutedRows: seq<int>, rows: nat, k: nat)
    requires SourceRows(sourceRows, rows, k) && SortedPairs(keys, sourceRows, perm, permutedExperts, permutedRows)
    ensures forall d :: 0 <= d < rows * k ==> 0 <= permutedRows[d] < rows * k
    ensures forall d, e :: 0 <= d < e < rows * k ==> permutedRows[d] != permutedRows[e]
  {
    forall d | 0 <= d < rows * k ensures 0 <= permutedRows[d] < rows * k {
      var r, kIdx := FlatOf(perm[d], rows, k);
      assert Named(sourceRows, rows, k, r, kIdx);
      ExpandedFits(r, rows, kIdx, k);
    }
    forall d, e | 0 <= d < e < rows * k ensures permutedRows[d] != permutedRows[e] {
      DifferentRounds(sourceRows, rows, k, perm[d], perm[e]);
    }
  }

  lemma DifferentRounds(sourceRows: seq<int>, rows: nat, k: nat, f: nat, f': nat)
    requires SourceRows(sourceRows, rows, k) && f < rows * k && f' < rows * k && f != f'
    ensures sourceRows[f] != sourceRows[f']
  {
    var r, kIdx := FlatOf(f, rows, k);
    var r', kIdx' := FlatOf(f', rows, k);
    assert Named(sourceRows, rows, k, r, kIdx) && Named(sourceRows, rows, k, r', kIdx');
    DivModUnique(sourceRows[f], kIdx, r, rows);
    DivModUnique(sourceRows[f'], kIdx', r', rows);
  }

  /** initialize_moe_routing_kernel: store the inverse map, and copy the source
      row of each of the first k*activeRows destination rows. */
  method InitializeRouting(input: seq<Row>, permutedRows: seq<int>, permuted: array<Row>, inverse: array<int>,
                           rows: nat, activeRows: nat, k: nat)
    requires |input| == rows > 0 && |permutedRows| == permuted.Length == inverse.Length == rows * k
    requires forall d :: 0 <= d < rows * k ==> 0 <= permutedRows[d] < rows * k
    requires forall d, e :: 0 <= d < e < rows * k ==> permutedRows[d] != permutedRows[e]
    modifies permuted, inverse
    ensures Inverts(permutedRows, inverse[..])
    ensures forall d :: 0 <= d < rows * k ==>
      permuted[d] == if d < k * activeRows then input[permutedRows[d] % rows] else old(permuted[d])
  {
    for expandedDestRow := 0 to |permutedRows|
      invariant forall d :: 0 <= d < expandedDestRow ==> inverse[permutedRows[d]] == d
      invariant forall d :: 0 <= d < |permutedRows| ==>
        permuted[d] ==
        if d < expandedDestRow && d < k * activeRows then input[permutedRows[d] % rows] else old(permuted[d])
    {
      var expandedSourceRow := permutedRows[expandedDestRow];
      inverse[expandedSourceRow] := expandedDestRow;
      if expandedDestRow < k * activeRows {
        permuted[expandedDestRow] := input[expandedSourceRow % rows];
      }
    }
  }

  // ---------- expert segments ----------

  /** find_total_elts_leq_target: how many leading elements are at most target. */
  method FindTotalEltsLeqTarget(sorted: seq<int>, target: int) returns (total: nat)
    requires forall d, e :: 0 <= d < e < |sorted| ==> sorted[d] <= sorted[e]
    ensures total <= |sorted|
    ensures forall d :: 0 <= d < |sorted| ==> (sorted[d] <= target <==> d < total)
  {
    var low, high, targetLocation := 0, |sorted| - 1, -1;
    while low <= high
      invariant 0 <= low <= high + 1 <= |sorted| && targetLocation == low - 1
      invariant forall d :: 0 <= d < low ==> sorted[d] <= target
      invariant forall d :: high < d < |sorted| ==> sorted[d] > target
    {
      var mid := (low + high) / 2;
      if sorted[mid] > target {
        high := mid - 1;
      } else {
        low := mid + 1;
        targetLocation := mid;
      }
    }
    total := targetLocation + 1;
  }

  /** compute_total_rows_before_expert. */
  method TotalRowsBeforeExpert(sorted: seq<int>, numExperts: nat) returns (totals: seq<nat>)
    requires forall d, e :: 0 <= d < e < |sorted| ==> sorted[d] <= sorted[e]
    ensures |totals| == numExperts
    ensures forall e, d :: 0 <= e < numExperts && 0 <= d < |sorted| ==> (sorted[d] <= e <==> d < totals[e])
    ensures forall e :: 0 <= e < numExperts ==> totals[e] <= |sorted|
  {
    totals := [];
    for expert := 0 to numExperts
      invariant |totals| == expert
      invariant forall e, d :: 0 <= e < expert && 0 <= d < |sorted| ==> (sorted[d] <= e <==> d < totals[e])
      invariant forall e :: 0 <= e < expert ==> totals[e] <= |sorted|
    {
      var total := FindTotalEltsLeqTarget(sorted, expert);
      totals := totals + [total];
    }
  }

  /** The loop of w8a16_group_gemm.cu over the experts: each computes the segment between
      the total before it and its own; ffn stands for what it computes from a row. */
  method RunExperts(ffn: (int, Row) -> Row, permuted: seq<Row>, totals: seq<nat>, ghost sorted: seq<int>)
    returns (out: seq<Row>)
    requires |permuted| == |sorted| && forall d :: 0 <= d < |sorted| ==> 0 <= sorted[d] < |totals|
    requires forall e, d :: 0 <= e < |totals| && 0 <= d < |sorted| ==> (sorted[d] <= e <==> d < totals[e])
    requires forall e :: 0 <= e < |totals| ==> totals[e] <= |sorted|
    ensures |out| == |permuted| && forall d :: 0 <= d < |out| ==> out[d] == ffn(sorted[d], permuted[d])
  {
    out := [];
    var pre := 0;
    for expert := 0 to |totals|
      invariant |out| == pre == if expert == 0 then 0 else totals[expert - 1]
      invariant forall d :: 0 <= d < |out| ==> d < |permuted| && out[d] == ffn(sorted[d], permuted[d])
      invariant forall d :: |out| <= d < |sorted| ==> sorted[d] >= expert
    {
      NextSegment(sorted, totals, expert, pre);
      var expertEnd := totals[expert];
      var curLen := expertEnd - pre;
      for j := 0 to curLen
        invariant |out| == pre + j
        invariant forall d :: 0 <= d < |out| ==> d < |permuted| && out[d] == ffn(sorted[d], permuted[d])
      {
        out := out + [ffn(expert, permuted[pre + j])];
      }
      pre := expertEnd;
    }
    InRangeAt(sorted, |out|, |totals|);
  }

  lemma InRangeAt(sorted: seq<int>, d: nat, n: nat)
    requires forall d :: 0 <= d < |sorted| ==> 0 <= sorted[d] < n
    ensures d < |sorted| ==> sorted[d] < n
  {}

  lemma NextSegment(sorted: seq<int>, totals: seq<nat>, e: nat, from: nat)
    requires e < |totals| && from <= |sorted| && from == (if e == 0 then 0 else totals[e - 1])
    requires forall d :: 0 <= d < |sorted| ==> 0 <= sorted[d] < |totals|
    requires forall e, d :: 0 <= e < |totals| && 0 <= d < |sorted| ==> (sorted[d] <= e <==> d < totals[e])
    requires forall e :: 0 <= e < |totals| ==> totals[e] <= |sorted|
    ensures from <= totals[e] <= |sorted|
    ensures forall d :: from <= d < totals[e] ==> sorted[d] == e
    ensures forall d :: totals[e] <= d < |sorted| ==> sorted[d] >= e + 1
  {
    forall d | from <= d < totals[e] ensures sorted[d] == e {
      if e > 0 {
        assert sorted[d] <= e - 1 <==> d < totals[e - 1];
      }
    }
    if e > 0 && totals[e - 1] > 0 {
      var d := totals[e - 1] - 1;
      assert sorted[d] <= e - 1 <==> d < totals[e - 1];
      assert sorted[d] <= e <==> d < totals[e];
    }
  }

  // ---------- the k-way reduction ----------

  /** What one round contributes to one output element. */
  ghost function Term(value: real, bias: real, computeBias: real, scale: real): real {
    scale * (value + bias * computeBias)
  }

  /** thread_output / (norm ? row_rescale : 1) * routed_scaling_factor. */
  ghost function Rescaled(sum: real, weight: real, norm: bool, factor: real): real
    requires norm ==> weight != 0.0
  {
    sum / (if norm then weight else 1.0) * factor
  }

  lemma TermIs(value: real, bias: real, computeBias: real, scale: real)
    ensures Term(value, bias, computeBias, scale) == scale * (value + bias * computeBias)
  {}

  /** What one round adds to thread_output. */
  method AddTerm(threadOutput: real, value: real, biasValue: real, computeBias: real, rowScale: real)
    returns (sum: real)
    ensures sum == threadOutput + Term(value, biasValue, computeBias, rowScale)
  {
    sum := threadOutput + rowScale * (value + biasValue * computeBias);
  }

  /** What is stored in the end. */
  method Rescale(threadOutput: real, rowRescale: real, norm: bool, factor: real) returns (out: real)
    requires norm ==> rowRescale != 0.0
    ensures out == Rescaled(threadOutput, rowRescale, norm, factor)
  {
    out := threadOutput / (if norm then rowRescale else 1.0) * factor;
  }

  /** Normalised by the weight, the sum is the factor times itself per weight. */
  lemma RescaledTimes(sum: real, weight: real, norm: bool, factor: real)
    requires norm ==> weight != 0.0
    ensures !norm ==> Rescaled(sum, weight, norm, factor) == sum * factor
    ensures norm ==> Rescaled(sum, weight, norm, factor) * weight == sum * factor
  {
    if norm {
      var q := sum / weight;
      assert q * weight == sum;
      assert (q * factor) * weight == (q * weight) * factor;
    }
  }

  ghost function BiasOf(bias: seq<Row>, expert: int, col: nat): real
    requires bias != [] ==> 0 <= expert < |bias| && col < |bias[expert]|
  {
    if bias == [] then 0.0 else bias[expert][col]
  }

  ghost function WeightSum(scales: seq<real>, off: nat, n: nat): real
    requires off + n <= |scales|
  {
    if n == 0 then 0.0 else WeightSum(scales, off, n - 1) + scales[off + n - 1]
  }

  /** Everything one layer is given: the rows, the experts with an optional bias,
      and for every row and round the chosen expert and its weight. */
  datatype Layer = Layer(input: seq<Row>, ffn: (int, Row) -> Row, bias: seq<Row>, keys: seq<int>, scales: seq<real>,
                         numExperts: nat, k: nat, cols: nat, computeBias: real, norm: bool, factor: real)
  {
    /** The shapes agree, and weights to be normalised do not sum to zero. */
    ghost predicate Valid() {
      |input| > 0 && |keys| == |scales| == |input| * k &&
      (forall f :: 0 <= f < |keys| ==> 0 <= keys[f] < numExperts) &&
      (forall e, x :: |ffn(e, x)| == cols) &&
      (bias != [] ==> |bias| == numExperts && forall e :: 0 <= e < |bias| ==> |bias[e]| == cols) &&
      forall r :: 0 <= r < |input| ==> WeightsUsable(r)
    }

    ghost predicate WeightsUsable(r: nat) {
      k * r + k <= |scales| && (norm ==> WeightSum(scales, k * r, k) != 0.0)
    }

    /** The experts of row r applied to the row itself, weighted and summed. */
    ghost function DirectSum(r: nat, col: nat, n: nat): real
      requires Valid() && r < |input| && col < cols && n <= k
    {
      if n == 0 then 0.0
      else
        ExpandedFits(r, |input|, n - 1, k);
        var e := keys[k * r + (n - 1)];
        DirectSum(r, col, n - 1) +
        Term(ffn(e, input[r])[col], BiasOf(bias, e, col), computeBias, scales[k * r + (n - 1)])
    }

    /** What the layer is to yield at row r and column col. */
    ghost function Element(r: nat, col: nat): real
      requires Valid() && r < |input| && col < cols
    {
      assert WeightsUsable(r);
      Rescaled(DirectSum(r, col, k), WeightSum(scales, k * r, k), norm, factor)
    }

    /** What the rounds contribute: parts[i] is the weighted, biased output of the expert
        of round i for the row itself, weights[i] its weight. */
    ghost predicate Parts(parts: seq<real>, weights: seq<real>, r: nat, col: nat)
      requires Valid() && r < |input| && col < cols
    {
      |parts| == |weights| == k && k * r + k <= |keys| &&
      forall i :: 0 <= i < k ==>
        var e := keys[k * r + i];
        weights[i] == scales[k * r + i] &&
        parts[i] ==
        scales[k * r + i] * (ffn(e, input[r])[col] + (if bias == [] then 0.0 else bias[e][col]) * computeBias)
    }

    lemma {:induction false} SumsOfParts(parts: seq<real>, weights: seq<real>, r: nat, col: nat, n: nat)
      requires Valid() && r < |input| && col < cols && n <= k && Parts(parts, weights, r, col)
      ensures k * r + n <= |scales| && DirectSum(r, col, n) == Sum(parts, n)
      ensures WeightSum(scales, k * r, n) == Sum(weights, n)
    {
      hide Term;
      assert WeightsUsable(r);
      if n > 0 {
        SumsOfParts(parts, weights, r, col, n - 1);
        var e := keys[k * r + (n - 1)];
        TermIs(ffn(e, input[r])[col], BiasOf(bias, e, col), computeBias, scales[k * r + (n - 1)]);
      }
    }

    /** The layer yields the weighted sum over the rounds, per weight if the weights are
        normalised, times the factor. */
    lemma ElementIsSum(parts: seq<real>, weights: seq<real>, r: nat, col: nat)
      requires Valid() && r < |input| && col < cols && Parts(parts, weights, r, col)
      ensures !norm ==> Element(r, col) == Sum(parts, k) * factor
      ensures norm ==> Element(r, col) * Sum(weights, k) == Sum(parts, k) * factor
    {
      hide Rescaled, Parts;
      assert WeightsUsable(r);
      SumsOfParts(parts, weights, r, col, k);
      RescaledTimes(DirectSum(r, col, k), WeightSum(scales, k * r, k), norm, factor);
    }

    /** With one expert a row the weight counts exactly if it is not normalised away. */
    lemma SingleExpert(r: nat, col: nat)
      requires Valid() && r < |input| && col < cols && k == 1
      ensures r < |keys| && Element(r, col) ==
        (if norm then 1.0 else scales[r]) *
        (ffn(keys[r], input[r])[col] + (if bias == [] then 0.0 else bias[keys[r]][col]) * computeBias) * factor
    {
      assert WeightsUsable(r);
      var e := keys[r];
      var value := ffn(e, input[r])[col] + (if bias == [] then 0.0 else bias[e][col]) * computeBias;
      assert k * r == r;
      assert WeightSum(scales, r, 1) == WeightSum(scales, r, 0) + scales[r];
      assert DirectSum(r, col, 1) == DirectSum(r, col, 0) + scales[r] * value;
      if norm {
        assert (scales[r] * value) / scales[r] == value;
      }
    }

    /** Every expanded row was computed by its own expert from its own source row. */
    ghost predicate Routed(ffnOut: seq<Row>, inverse: seq<int>) {
      forall r, kIdx :: 0 <= r < |input| && 0 <= kIdx < k ==> RoutedAt(ffnOut, inverse, r, kIdx)
    }

    ghost predicate RoutedAt(ffnOut: seq<Row>, inverse: seq<int>, r: nat, kIdx: nat)
      requires r < |input|
    {
      var e, f := kIdx * |input| + r, k * r + kIdx;
      e < |inverse| && f < |keys| && 0 <= inverse[e] < |ffnOut| && ffnOut[inverse[e]] == ffn(keys[f], input[r])
    }

    lemma RoutedHere(ffnOut: seq<Row>, inverse: seq<int>, r: nat, kIdx: nat)
      requires Routed(ffnOut, inverse) && r < |input| && kIdx < k
      ensures RoutedAt(ffnOut, inverse, r, kIdx)
    {}

    /** finalize_moe_routing_kernel, for one row and column: the gathered, weighted
        sum is the direct sum over the row's experts. */
    method FinalizeElement(ffnOut: seq<Row>, inverse: seq<int>, r: nat, col: nat) returns (out: real)
      requires Valid() && Routed(ffnOut, inverse) && r < |input| && col < cols
      ensures out == Element(r, col)
    {
      hide Term, Rescaled, Routed;
      assert WeightsUsable(r);
      var numRows := |input|;
      var threadOutput, rowRescale := 0.0, 0.0;
      for kIdx := 0 to k
        invariant threadOutput == DirectSum(r, col, kIdx)
        invariant rowRescale == WeightSum(scales, k * r, kIdx)
      {
        ExpandedFits(r, numRows, kIdx, k);
        RoutedHere(ffnOut, inverse, r, kIdx);
        var expandedOriginalRow := r + kIdx * numRows;
        var expandedPermutedRow := inverse[expandedOriginalRow];
        var kOffset := r * k + kIdx;
        assert kOffset == k * r + kIdx;
        var rowScale := scales[kOffset];
        rowRescale := rowRescale + rowScale;
        var expertIdx := keys[kOffset];
        var biasValue := if bias != [] then bias[expertIdx][col] else 0.0;
        threadOutput := AddTerm(threadOutput, ffnOut[expandedPermutedRow][col], biasValue, computeBias, rowScale);
      }
      out := Rescale(threadOutput, rowRescale, norm, factor);
    }

    /** Sorting, copying and computing leaves every expanded row routed. */
    lemma PipelineRoutes(sourceRows: seq<int>, perm: seq<nat>, permutedExperts: seq<int>, permutedRows: seq<int>,
                         permuted: seq<Row>, inverse: seq<int>, ffnOut: seq<Row>)
      requires |input| > 0 && SourceRows(sourceRows, |input|, k) && |keys| == |input| * k
      requires SortedPairs(keys, sourceRows, perm, permutedExperts, permutedRows) && Inverts(permutedRows, inverse)
      requires |permuted| == |ffnOut| == |keys|
      requires forall d :: 0 <= d < |keys| ==> permuted[d] == input[permutedRows[d] % |input|]
      requires forall d :: 0 <= d < |keys| ==> ffnOut[d] == ffn(permutedExperts[d], permuted[d])
      ensures Routed(ffnOut, inverse)
    {
      forall r, kIdx | 0 <= r < |input| && 0 <= kIdx < k ensures RoutedAt(ffnOut, inverse, r, kIdx) {
        ExpandedFits(r, |input|, kIdx, k);
        var f := k * r + kIdx;
        assert Named(sourceRows, |input|, k, r, kIdx);
        assert Hit(perm, f);
        var d :| 0 <= d < |perm| && perm[d] == f;
        assert permutedRows[d] == kIdx * |input| + r;
        assert inverse[permutedRows[d]] == d;
      }
    }

    /** MoeDispatchKernel after the sort, and the experts themselves. */
    method Dispatch(sourceRows: seq<int>, ghost perm: seq<nat>, permutedExperts: seq<int>, permutedRows: seq<int>)
      returns (ffnOut: seq<Row>, inverse: seq<int>)
      requires |input| > 0 && SourceRows(sourceRows, |input|, k) && |keys| == |input| * k
      requires SortedPairs(keys, sourceRows, perm, permutedExperts, permutedRows)
      requires forall f :: 0 <= f < |keys| ==> 0 <= keys[f] < numExperts
      ensures Routed(ffnOut, inverse)
    {
      hide Routed;
      var numRows := |input|;
      var permuted := new Row[numRows * k](_ => []);
      var inverseMap := new int[numRows * k](_ => 0);
      RowsDistinct(keys, sourceRows, perm, permutedExperts, permutedRows, numRows, k);
      InitializeRouting(input, permutedRows, permuted, inverseMap, numRows, numRows, k);
      var totals := TotalRowsBeforeExpert(permutedExperts, numExperts);
      ffnOut := RunExperts(ffn, permuted[..], totals, permutedExperts);
      inverse := inverseMap[..];
      PipelineRoutes(sourceRows, perm, permutedExperts, permutedRows, permuted[..], inverse, ffnOut);
    }

    /** Routing, permuting, computing by expert and reducing gives, in every row and
        column, the rescaled direct sum over the row's experts - for any permutation
        the sort may have chosen. */
    method Forward(ghost perm: seq<nat>, permutedExperts: seq<int>, permutedRows: seq<int>, sourceRows: seq<int>)
      returns (out: array2<real>)
      requires Valid() && SourceRows(sourceRows, |input|, k)
      requires SortedPairs(keys, sourceRows, perm, permutedExperts, permutedRows)
      ensures fresh(out) && out.Length0 == |input| && out.Length1 == cols
      ensures forall r, col :: 0 <= r < |input| && 0 <= col < cols ==> out[r, col] == Element(r, col)
    {
      hide Routed, Element, SortedPairs, SourceRows;
      var ffnOut, inverse := Dispatch(sourceRows, perm, permutedExperts, permutedRows);
      out := new real[|input|, cols];
      for r := 0 to |input|
        invariant forall q, c :: 0 <= q < r && 0 <= c < cols ==> out[q, c] == Element(q, c)
      {
        for col := 0 to cols
          invariant forall q, c :: 0 <= q < r && 0 <= c < cols ==> out[q, c] == Element(q, c)
          invariant forall c :: 0 <= c < col ==> out[r, c] == Element(r, c)
        {
          var element := FinalizeElement(ffnOut, inverse, r, col);
          out[r, col] := element;
        }
      }
    }
  }
}
