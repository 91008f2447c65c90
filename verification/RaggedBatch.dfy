/** Packing a padded batch and rebuilding one row per sequence:
    custom_ops/cpu_ops/get_padding_offset.cc and rebuild_padding.cc. */
module RaggedBatch {
  import opened Arith
  import opened Options

  // ---------- where the tokens go ----------

  /** Where row b begins once the rows have been packed. */
  function Start(lens: seq<nat>, b: nat): nat
    requires b <= |lens|
  {
    if b == 0 then 0 else Start(lens, b - 1) + lens[b - 1]
  }

  function Tokens(lens: seq<nat>): nat {
    Start(lens, |lens|)
  }

  /** The row, among the first b, that packed token t belongs to. */
  function RowBelow(lens: seq<nat>, t: nat, b: nat): (row: nat)
    requires b <= |lens| && t < Start(lens, b)
    ensures row < b && Start(lens, row) <= t < Start(lens, row + 1)
  {
    if Start(lens, b - 1) <= t then b - 1 else RowBelow(lens, t, b - 1)
  }

  function Row(lens: seq<nat>, t: nat): (row: nat)
    requires t < Tokens(lens)
    ensures row < |lens| && Start(lens, row) <= t < Start(lens, row) + lens[row]
  {
    RowBelow(lens, t, |lens|)
  }

  lemma {:induction false} StartRises(lens: seq<nat>, a: nat, b: nat)
    requires a <= b <= |lens|
    ensures Start(lens, a) <= Start(lens, b)
  {
    if a < b {
      StartRises(lens, a, b - 1);
    }
  }

  lemma StartZero(lens: seq<nat>)
    ensures Start(lens, 0) == 0
  {}

  lemma StartNext(lens: seq<nat>, b: nat)
    requires b < |lens|
    ensures Start(lens, b + 1) == Start(lens, b) + lens[b] <= Tokens(lens)
  {
    StartRises(lens, b + 1, |lens|);
  }

  /** Position i of row b is the slot of no other position. */
  lemma SlotsAreDistinct(lens: seq<nat>, b: nat, i: nat)
    requires b < |lens| && i < lens[b]
    ensures Start(lens, b) + i < Tokens(lens) && Row(lens, Start(lens, b) + i) == b
  {
    hide Start, RowBelow;
    StartNext(lens, b);
    var row := Row(lens, Start(lens, b) + i);
    StartNext(lens, row);
    if row < b {
      StartRises(lens, row + 1, b);
    } else if b < row {
      StartRises(lens, b + 1, row);
    }
  }

  ghost predicate Fits(lens: seq<nat>, maxLen: nat) {
    forall b :: 0 <= b < |lens| ==> lens[b] <= maxLen
  }

  /** Where packed token t stands in the padded batch. */
  function Place(lens: seq<nat>, maxLen: nat, t: nat): (p: nat)
    requires t < Tokens(lens) && Fits(lens, maxLen)
    ensures p < |lens| * maxLen
  {
    var row := Row(lens, t);
    RowInside(row, |lens|, maxLen);
    row * maxLen + (t - Start(lens, row))
  }

  lemma PlaceOfSlot(lens: seq<nat>, maxLen: nat, b: nat, i: nat)
    requires b < |lens| && i < lens[b] && Fits(lens, maxLen)
    ensures Start(lens, b) + i < Tokens(lens) && Place(lens, maxLen, Start(lens, b) + i) == b * maxLen + i
  {
    SlotsAreDistinct(lens, b, i);
  }

  // ---------- cumulated offsets ----------

  function CumSum(xs: seq<int>): (sums: seq<int>)
    ensures |sums| == |xs|
  {
    if xs == [] then []
    else
      var sums := CumSum(xs[..|xs| - 1]);
      sums + [(if sums == [] then 0 else sums[|sums| - 1]) + xs[|xs| - 1]]
  }

  function Paddings(lens: seq<nat>, maxLen: nat): seq<int> {
    seq(|lens|, b requires 0 <= b < |lens| => maxLen - lens[b])
  }

  /** What pre_process hands over: how much padding the rows up to b hold. */
  ghost predicate Cumulated(cumOffsets: seq<int>, lens: seq<nat>, maxLen: nat) {
    |cumOffsets| == |lens| &&
    forall b :: 0 <= b < |lens| ==> cumOffsets[b] == (b + 1) * maxLen - Start(lens, b + 1)
  }

  lemma {:induction false} StartOfPrefix(lens: seq<nat>, n: nat, b: nat)
    requires b <= n <= |lens|
    ensures Start(lens[..n], b) == Start(lens, b)
  {
    if b > 0 {
      StartOfPrefix(lens, n, b - 1);
    }
  }

  lemma {:induction false} PreProcessCumulates(lens: seq<nat>, maxLen: nat)
    ensures Cumulated(CumSum(Paddings(lens, maxLen)), lens, maxLen)
  {
    if |lens| > 0 {
      var n := |lens| - 1;
      var sums := CumSum(Paddings(lens[..n], maxLen));
      PreProcessCumulates(lens[..n], maxLen);
      assert Paddings(lens, maxLen)[..n] == Paddings(lens[..n], maxLen);
      forall b | 0 <= b <= n ensures Start(lens[..n], b) == Start(lens, b) {
        StartOfPrefix(lens, n, b);
      }
      assert n > 0 ==> sums[n - 1] == n * maxLen - Start(lens, n);
      assert (n + 1) * maxLen == n * maxLen + maxLen;
    }
  }

  // ---------- packing ----------

  /** padding_offset leads each packed token back to its place in the padded batch. */
  ghost predicate LeadsBack(paddingOffset: seq<int>, lens: seq<nat>, maxLen: nat)
    requires Fits(lens, maxLen)
  {
    |paddingOffset| == Tokens(lens) &&
    forall t :: 0 <= t < Tokens(lens) ==> t + paddingOffset[t] == Place(lens, maxLen, t)
  }

  ghost predicate Starts(cuSeqlens: seq<int>, lens: seq<nat>) {
    |cuSeqlens| == |lens| + 1 && forall b :: 0 <= b <= |lens| ==> cuSeqlens[b] == Start(lens, b)
  }

  /** How much padding precedes row b. */
  ghost predicate OffsetsBefore(offsets: seq<int>, lens: seq<nat>, maxLen: nat) {
    |offsets| == |lens| && forall b :: 0 <= b < |lens| ==> offsets[b] == b * maxLen - Start(lens, b)
  }

  method GetPaddingOffsetKernel(paddingOffset: array<int>, cumOffsetsOut: array<int>, cuSeqlensQ: array<int>,
                                cuSeqlensK: array<int>, cumOffsets: seq<int>, lens: seq<nat>, maxLen: nat)
    requires Fits(lens, maxLen) && Cumulated(cumOffsets, lens, maxLen)
    requires paddingOffset.Length == Tokens(lens) && cumOffsetsOut.Length == |lens|
    requires cuSeqlensQ.Length == cuSeqlensK.Length == |lens| + 1 && cuSeqlensQ[0] == cuSeqlensK[0] == 0
    requires paddingOffset != cumOffsetsOut && paddingOffset != cuSeqlensQ && paddingOffset != cuSeqlensK
    requires cumOffsetsOut != cuSeqlensQ && cumOffsetsOut != cuSeqlensK && cuSeqlensQ != cuSeqlensK
    modifies paddingOffset, cumOffsetsOut, cuSeqlensQ, cuSeqlensK
    ensures LeadsBack(paddingOffset[..], lens, maxLen) && OffsetsBefore(cumOffsetsOut[..], lens, maxLen)
    ensures Starts(cuSeqlensQ[..], lens) && Starts(cuSeqlensK[..], lens)
  {
    hide Start, Row, Place;
    StartZero(lens);
    for bi := 0 to |lens|
      invariant Start(lens, bi) <= Tokens(lens)
      invariant forall b :: 0 <= b <= bi ==> cuSeqlensQ[b] == cuSeqlensK[b] == Start(lens, b)
      invariant forall b :: 0 <= b < bi ==> cumOffsetsOut[b] == b * maxLen - Start(lens, b)
      invariant forall t :: 0 <= t < Start(lens, bi) ==> t + paddingOffset[t] == Place(lens, maxLen, t)
    {
      var cumOffset := if bi == 0 then 0 else cumOffsets[bi - 1];
      assert cumOffset == bi * maxLen - Start(lens, bi);
      StartNext(lens, bi);
      var seqLenNow := lens[bi];
      for i := 0 to seqLenNow
        modifies paddingOffset
        invariant forall t :: 0 <= t < Start(lens, bi) + i ==> t + paddingOffset[t] == Place(lens, maxLen, t)
      {
        PlaceOfSlot(lens, maxLen, bi, i);
        paddingOffset[bi * maxLen - cumOffset + i] := cumOffset;
      }
      cumOffsetsOut[bi] := cumOffset;
      var cumSeqLen := (bi + 1) * maxLen - cumOffsets[bi];
      cuSeqlensQ[bi + 1] := cumSeqLen;
      cuSeqlensK[bi + 1] := cumSeqLen;
    }
  }

  /** The packed tokens are those of the padded batch, row after row. */
  ghost predicate Packed<T>(output: seq<T>, input: seq<T>, lens: seq<nat>, maxLen: nat)
    requires Fits(lens, maxLen) && |input| == |lens| * maxLen
  {
    |output| == Tokens(lens) &&
    forall t :: 0 <= t < Tokens(lens) ==> output[t] == input[Place(lens, maxLen, t)]
  }

  /** The slots 0, 1, 2, ... up to n. */
  function UpTo(n: nat): (s: seq<int>)
    ensures |s| == n && forall t :: 0 <= t < n ==> s[t] == t
  {
    if n == 0 then [] else UpTo(n - 1) + [n - 1]
  }

  lemma UpToNext(n: nat)
    ensures UpTo(0) == [] && UpTo(n + 1) == UpTo(n) + [n]
  {}

  /** writes lists the slots in the order in which they are written. */
  method RemovePadding<T>(output: array<T>, input: seq<T>, lens: seq<nat>, cumOffsets: seq<int>, maxLen: nat)
    returns (ghost writes: seq<int>)
    requires Fits(lens, maxLen) && |input| == |lens| * maxLen && OffsetsBefore(cumOffsets, lens, maxLen)
    requires output.Length == Tokens(lens)
    modifies output
    ensures Packed(output[..], input, lens, maxLen)
    ensures writes == UpTo(Tokens(lens))
  {
    hide Start, Row, Place, UpTo;
    StartZero(lens);
    UpToNext(0);
    writes := [];
    for bi := 0 to |lens|
      invariant Start(lens, bi) <= Tokens(lens) && writes == UpTo(Start(lens, bi))
      invariant forall t :: 0 <= t < Start(lens, bi) ==> output[t] == input[Place(lens, maxLen, t)]
    {
      StartNext(lens, bi);
      for i := 0 to lens[bi]
        invariant writes == UpTo(Start(lens, bi) + i)
        invariant forall t :: 0 <= t < Start(lens, bi) + i ==> output[t] == input[Place(lens, maxLen, t)]
      {
        PlaceOfSlot(lens, maxLen, bi, i);
        var tgtSeqId := bi * maxLen - cumOffsets[bi] + i;
        var srcSeqId := bi * maxLen + i;
        output[tgtSeqId] := input[srcSeqId];
        UpToNext(Start(lens, bi) + i);
        writes := writes + [tgtSeqId];
      }
    }
  }

  /** The tensors GetPaddingOffset returns. */
  datatype Unpadded = Unpadded(tokens: seq<int>, paddingOffset: seq<int>, cuSeqlensQ: seq<int>, cuSeqlensK: seq<int>)

  method GetPaddingOffset(inputIds: seq<int>, cumOffsets: seq<int>, tokenNum: nat, lens: seq<nat>, maxLen: nat)
    returns (r: Unpadded)
    requires Fits(lens, maxLen) && |inputIds| == |lens| * maxLen
    requires Cumulated(cumOffsets, lens, maxLen) && tokenNum == Tokens(lens)
    ensures Packed(r.tokens, inputIds, lens, maxLen) && LeadsBack(r.paddingOffset, lens, maxLen)
    ensures Starts(r.cuSeqlensQ, lens) && r.cuSeqlensK == r.cuSeqlensQ
  {
    hide Packed, LeadsBack, Cumulated, OffsetsBefore, Fits;
    var cumOffsetsOut := new int[|lens|];
    var tokens, paddingOffset := new int[tokenNum], new int[tokenNum];
    var cuSeqlensQ, cuSeqlensK := new int[|lens| + 1](_ => 0), new int[|lens| + 1](_ => 0);
    GetPaddingOffsetKernel(paddingOffset, cumOffsetsOut, cuSeqlensQ, cuSeqlensK, cumOffsets, lens, maxLen);
    var offsets, starts := cumOffsetsOut[..], cuSeqlensQ[..];
    var writes := RemovePadding(tokens, inputIds, lens, offsets, maxLen);
    r := Unpadded(tokens[..], paddingOffset[..], starts, cuSeqlensK[..]);
  }

  // ---------- rebuilding ----------

  /** seq_lens_this_time, seq_lens_decoder and seq_lens_encoder. */
  datatype Batch = Batch(thisTime: seq<nat>, decoder: seq<nat>, encoder: seq<nat>) {
    predicate Shaped() {
      |thisTime| == |decoder| == |encoder|
    }

    predicate Active(b: nat)
      requires Shaped() && b < |thisTime|
    {
      thisTime[b] != 0 && !(decoder[b] == 0 && encoder[b] == 0)
    }

    /** The position in row b that the rebuilding reads. */
    function SeqId(b: nat): nat
      requires Shaped() && b < |thisTime|
    {
      if encoder[b] > 0 then encoder[b] - 1 else 0
    }

    /** A row in the encoder has at least the tokens the encoder counts. */
    predicate Encoded()
      requires Shaped()
    {
      forall b :: 0 <= b < |thisTime| && thisTime[b] != 0 ==> encoder[b] <= thisTime[b]
    }

    /** speculate_get_seq_lens_output: how many tokens of a row are kept. */
    function OutputLen(b: nat): nat
      requires Shaped() && b < |thisTime|
    {
      if thisTime[b] == 0 then 0
      else if thisTime[b] == 1 then 1
      else if encoder[b] != 0 then 1
      else thisTime[b]
    }

    function OutputLens(): (lens: seq<nat>)
      requires Shaped()
      ensures |lens| == |thisTime| && forall b :: 0 <= b < |lens| ==> lens[b] == OutputLen(b) <= thisTime[b]
    {
      seq(|thisTime|, b requires 0 <= b < |thisTime| => OutputLen(b))
    }

    /** A prompt is processed as a whole. */
    predicate WholePrompts()
      requires Shaped()
    {
      forall b :: 0 <= b < |thisTime| && encoder[b] > 0 ==> thisTime[b] == encoder[b]
    }

    /** The tokens of the first b rows that are not kept. */
    function Dropped(b: nat): nat
      requires Shaped() && b <= |thisTime|
    {
      if b == 0 then 0 else Dropped(b - 1) + if encoder[b - 1] > 0 then encoder[b - 1] - 1 else 0
    }

    lemma {:induction false} DropsTheRest(b: nat)
      requires Shaped() && WholePrompts() && b <= |thisTime|
      ensures Start(OutputLens(), b) == Start(thisTime, b) - Dropped(b)
    {
      if b > 0 {
        DropsTheRest(b - 1);
      }
    }

    /** The rebuilding reads the last token of a row exactly if the row is a whole
        prompt, or one decoded token. */
    lemma ReadsLast(b: nat)
      requires Shaped() && Encoded() && b < |thisTime| && thisTime[b] > 0
      ensures SeqId(b) < thisTime[b]
      ensures SeqId(b) == thisTime[b] - 1 <==> thisTime[b] == encoder[b] || (encoder[b] == 0 && thisTime[b] == 1)
    {}
  }

  /** A row of two decoded tokens: the rebuilding reads the first, not the last. */
  lemma TwoDecodedTokensFail()
    ensures var batch := Batch([2], [5], [0]);
      batch.Shaped() && batch.Encoded() && batch.Active(0) && batch.SeqId(0) == 0 != batch.thisTime[0] - 1
  {}

  /** Feature j of token t. */
  function At<U>(m: seq<U>, dim: nat, t: nat, j: nat): U
    requires j < dim && t * dim + dim <= |m|
  {
    m[t * dim + j]
  }

  /** Row b of the batch, if it is active, has its token in the input. */
  ghost predicate Readable<U>(input: seq<U>, cu: seq<int>, batch: Batch, dim: nat) {
    batch.Shaped() && |cu| == |batch.thisTime| + 1 &&
    forall b :: 0 <= b < |batch.thisTime| && batch.Active(b) ==>
      0 <= cu[b] && (cu[b] + batch.SeqId(b)) * dim + dim <= |input|
  }

  lemma Element(i: nat, n: nat, dim: nat)
    requires i < n * dim
    ensures dim > 0 && i / dim < n && i % dim < dim && i == (i / dim) * dim + i % dim
  {
    if i / dim >= n {
      MulLe(n, i / dim, dim);
    }
  }

  /** What belongs in element i: a feature of the token read for its row, or what was there. */
  function Rebuilt<U>(input: seq<U>, cu: seq<int>, batch: Batch, dim: nat, i: nat, before: U): U
    requires Readable(input, cu, batch, dim) && i < |batch.thisTime| * dim
  {
    Element(i, |batch.thisTime|, dim);
    var b, j := i / dim, i % dim;
    if batch.Active(b) then At(input, dim, cu[b] + batch.SeqId(b), j) else before
  }

  method RebuildPaddingImpl<U>(output: array<U>, input: seq<U>, cu: seq<int>, batch: Batch, dim: nat)
    requires Readable(input, cu, batch, dim) && output.Length == |batch.thisTime| * dim
    modifies output
    ensures forall i :: 0 <= i < output.Length ==> output[i] == Rebuilt(input, cu, batch, dim, i, old(output[i]))
  {
    for i := 0 to output.Length
      invariant forall k :: 0 <= k < i ==> output[k] == Rebuilt(input, cu, batch, dim, k, old(output[k]))
      invariant forall k :: i <= k < output.Length ==> output[k] == old(output[k])
    {
      hide Readable;
      Element(i, |batch.thisTime|, dim);
      var bi, biasIdx, seqId := i / dim, i % dim, 0;
      ElementReadable(input, cu, batch, dim, bi);
      if batch.thisTime[bi] == 0 {
        continue;
      }
      if batch.decoder[bi] == 0 && batch.encoder[bi] == 0 {
        continue;
      }
      if batch.encoder[bi] > 0 {
        seqId := batch.encoder[bi] - 1;
      }
      var oriTokenIdx := cu[bi] + seqId;
      var srcOffset := oriTokenIdx * dim + biasIdx;
      output[i] := input[srcOffset];
    }
  }

  lemma ElementReadable<U>(input: seq<U>, cu: seq<int>, batch: Batch, dim: nat, b: nat)
    requires Readable(input, cu, batch, dim) && b < |batch.thisTime|
    ensures batch.Shaped() && b < |cu|
    ensures batch.Active(b) ==> 0 <= cu[b] && 0 <= (cu[b] + batch.SeqId(b)) * dim <= |input| - dim
  {}

  /** The same for output token t of the appending variant, in the row it belongs to. */
  function Appended<U>(input: seq<U>, cu: seq<int>, batch: Batch, lens: seq<nat>, dim: nat, i: nat, before: U): U
    requires Readable(input, cu, batch, dim) && |lens| == |batch.thisTime| && i < Tokens(lens) * dim
  {
    Element(i, Tokens(lens), dim);
    var b, j := Row(lens, i / dim), i % dim;
    if batch.Active(b) then At(input, dim, cu[b] + batch.SeqId(b), j) else before
  }

  lemma PlaceTellsRow(lens: seq<nat>, maxLen: nat, t: nat)
    requires Fits(lens, maxLen) && t < Tokens(lens)
    ensures maxLen > 0 && Place(lens, maxLen, t) / maxLen == Row(lens, t)
  {
    var row := Row(lens, t);
    DivModUnique(Place(lens, maxLen, t), row, t - Start(lens, row), maxLen);
  }

  method RebuildAppendPaddingImpl<U>(output: array<U>, input: seq<U>, cu: seq<int>, batch: Batch,
                                     outputPaddingOffset: seq<int>, maxInputLength: nat, dim: nat, ghost lens: seq<nat>)
    requires Readable(input, cu, batch, dim) && |lens| == |batch.thisTime|
    requires Fits(lens, maxInputLength) && LeadsBack(outputPaddingOffset, lens, maxInputLength)
    requires output.Length == Tokens(lens) * dim
    modifies output
    ensures forall i :: 0 <= i < output.Length ==>
      output[i] == Appended(input, cu, batch, lens, dim, i, old(output[i]))
  {
    for i := 0 to output.Length
      invariant forall k :: 0 <= k < i ==> output[k] == Appended(input, cu, batch, lens, dim, k, old(output[k]))
      invariant forall k :: i <= k < output.Length ==> output[k] == old(output[k])
    {
      hide Readable, Place, Row, Tokens, Fits;
      Element(i, Tokens(lens), dim);
      var outTokenId := i / dim;
      PlaceTellsRow(lens, maxInputLength, outTokenId);
      var oriTokenId := outTokenId + outputPaddingOffset[outTokenId];
      var bi := oriTokenId / maxInputLength;
      ElementReadable(input, cu, batch, dim, bi);
      if batch.thisTime[bi] == 0 || (batch.decoder[bi] == 0 && batch.encoder[bi] == 0) {
        continue;
      }
      var seqId := 0;
      if batch.encoder[bi] > 0 {
        seqId := batch.encoder[bi] - 1;
      }
      var inputTokenId := cu[bi] + seqId;
      var biasIdx := i % dim;
      var srcOffset := inputTokenId * dim + biasIdx;
      output[i] := input[srcOffset];
    }
  }

  /** The whole output of the first variant, on a buffer of zeros. */
  function RebuiltAll<U>(input: seq<U>, cu: seq<int>, batch: Batch, dim: nat, zero: U): (out: seq<U>)
    requires Readable(input, cu, batch, dim)
    ensures |out| == |batch.thisTime| * dim
  {
    seq(|batch.thisTime| * dim, i requires 0 <= i < |batch.thisTime| * dim => Rebuilt(input, cu, batch, dim, i, zero))
  }

  /** And of the appending variant. */
  function AppendedAll<U>(input: seq<U>, cu: seq<int>, batch: Batch, lens: seq<nat>, dim: nat, zero: U): (out: seq<U>)
    requires Readable(input, cu, batch, dim) && |lens| == |batch.thisTime|
    ensures |out| == Tokens(lens) * dim
  {
    seq(Tokens(lens) * dim, i requires 0 <= i < Tokens(lens) * dim => Appended(input, cu, batch, lens, dim, i, zero))
  }

  /** rebuild_padding_cpu; tokenNum is the number of rows of the input. */
  method RebuildPadding<U>(input: seq<U>, cu: seq<int>, batch: Batch, outputPaddingOffset: Option<seq<int>>,
                           maxInputLength: nat, tokenNum: nat, dim: nat, zero: U) returns (out: seq<U>)
    requires Readable(input, cu, batch, dim) && tokenNum == Tokens(batch.thisTime)
    requires outputPaddingOffset.Some? ==>
               batch.WholePrompts() && Fits(batch.OutputLens(), maxInputLength) &&
               LeadsBack(outputPaddingOffset.value, batch.OutputLens(), maxInputLength)
    ensures out == if outputPaddingOffset.None? then RebuiltAll(input, cu, batch, dim, zero)
                   else AppendedAll(input, cu, batch, batch.OutputLens(), dim, zero)
  {
    hide Rebuilt, Appended, LeadsBack, Fits;
    var bsz := |cu| - 1;
    if outputPaddingOffset.Some? {
      var needDeleteTokenNum := 0;
      for i := 0 to bsz
        invariant needDeleteTokenNum == batch.Dropped(i)
      {
        if batch.encoder[i] > 0 {
          needDeleteTokenNum := needDeleteTokenNum + (batch.encoder[i] - 1);
        }
      }
      batch.DropsTheRest(bsz);
      var outputTokenNum := tokenNum - needDeleteTokenNum;
      var output := new U[outputTokenNum * dim](_ => zero);
      RebuildAppendPaddingImpl(output, input, cu, batch, outputPaddingOffset.value, maxInputLength, dim,
                               batch.OutputLens());
      out := output[..];
    } else {
      var output := new U[bsz * dim](_ => zero);
      RebuildPaddingImpl(output, input, cu, batch, dim);
      out := output[..];
    }
  }

  // ---------- from the padded batch to one row per sequence ----------

  ghost predicate Wide<U>(f: int -> seq<U>, dim: nat) {
    forall x :: |f(x)| == dim
  }

  function Features<U>(f: int -> seq<U>, dim: nat, x: int): (row: seq<U>)
    requires Wide(f, dim)
    ensures |row| == dim
  {
    f(x)
  }

  /** What the layers f compute for the packed tokens, one row of features a token. */
  function Hidden<U>(f: int -> seq<U>, dim: nat, tokens: seq<int>): (h: seq<U>)
    requires Wide(f, dim)
    ensures |h| == |tokens| * dim
  {
    if tokens == [] then []
    else
      var n := |tokens| - 1;
      assert n * dim + dim == |tokens| * dim;
      Hidden(f, dim, tokens[..n]) + Features(f, dim, tokens[n])
  }

  lemma {:induction false} HiddenAt<U>(f: int -> seq<U>, dim: nat, tokens: seq<int>, t: nat, j: nat)
    requires Wide(f, dim) && t < |tokens| && j < dim
    ensures t * dim + dim <= |Hidden(f, dim, tokens)|
    ensures At(Hidden(f, dim, tokens), dim, t, j) == Features(f, dim, tokens[t])[j]
  {
    hide Wide, Features;
    var n := |tokens| - 1;
    RowInside(t, |tokens|, dim);
    if t < n {
      RowInside(t, n, dim);
      HiddenAt(f, dim, tokens[..n], t, j);
    }
  }

  /** Row t of the result. */
  ghost predicate HasRow<U>(out: seq<U>, dim: nat, t: nat, row: seq<U>) {
    t * dim + dim <= |out| && |row| == dim && forall j :: 0 <= j < dim ==> At(out, dim, t, j) == row[j]
  }

  /** The row of features that the rebuilding takes for row b, in terms of the padded batch. */
  function RowFor<U>(f: int -> seq<U>, dim: nat, zero: U, inputIds: seq<int>, batch: Batch, maxLen: nat, b: nat): seq<U>
    requires Wide(f, dim) && batch.Shaped() && batch.Encoded() && Fits(batch.thisTime, maxLen)
    requires |inputIds| == |batch.thisTime| * maxLen && b < |batch.thisTime|
  {
    if batch.Active(b) then
      RowInside(b, |batch.thisTime|, maxLen);
      assert batch.SeqId(b) < maxLen;
      Features(f, dim, inputIds[b * maxLen + batch.SeqId(b)])
    else seq(dim, _ => zero)
  }

  /** The packed token that is read for an active row, and its features. */
  lemma PackedTokenOf<U>(f: int -> seq<U>, dim: nat, zero: U, inputIds: seq<int>, batch: Batch, maxLen: nat,
                         r: Unpadded, b: nat, j: nat)
    requires Wide(f, dim) && batch.Shaped() && batch.Encoded() && Fits(batch.thisTime, maxLen)
    requires |inputIds| == |batch.thisTime| * maxLen && b < |batch.thisTime| && j < dim && batch.Active(b)
    requires Packed(r.tokens, inputIds, batch.thisTime, maxLen) && Starts(r.cuSeqlensQ, batch.thisTime)
    ensures 0 <= r.cuSeqlensQ[b]
    ensures (r.cuSeqlensQ[b] + batch.SeqId(b)) * dim + dim <= |Hidden(f, dim, r.tokens)|
    ensures At(Hidden(f, dim, r.tokens), dim, r.cuSeqlensQ[b] + batch.SeqId(b), j) ==
            RowFor(f, dim, zero, inputIds, batch, maxLen, b)[j]
  {
    hide Wide, Features, Hidden;
    PlaceOfSlot(batch.thisTime, maxLen, b, batch.SeqId(b));
    HiddenAt(f, dim, r.tokens, r.cuSeqlensQ[b] + batch.SeqId(b), j);
  }

  lemma HiddenReadable<U>(f: int -> seq<U>, dim: nat, inputIds: seq<int>, batch: Batch, maxLen: nat, r: Unpadded)
    requires Wide(f, dim) && batch.Shaped() && batch.Encoded() && Fits(batch.thisTime, maxLen)
    requires |inputIds| == |batch.thisTime| * maxLen
    requires Packed(r.tokens, inputIds, batch.thisTime, maxLen) && Starts(r.cuSeqlensQ, batch.thisTime)
    ensures Readable(Hidden(f, dim, r.tokens), r.cuSeqlensQ, batch, dim)
  {
    hide Wide, Packed;
    forall b | 0 <= b < |batch.thisTime| && batch.Active(b)
      ensures (r.cuSeqlensQ[b] + batch.SeqId(b)) * dim + dim <= |Hidden(f, dim, r.tokens)|
    {
      PlaceOfSlot(batch.thisTime, maxLen, b, batch.SeqId(b));
      assert |r.tokens| == Tokens(batch.thisTime) by { PackedSize(r.tokens, inputIds, batch.thisTime, maxLen); }
      RowInside(r.cuSeqlensQ[b] + batch.SeqId(b), |r.tokens|, dim);
    }
  }

  lemma PackedSize<T>(output: seq<T>, input: seq<T>, lens: seq<nat>, maxLen: nat)
    requires Fits(lens, maxLen) && |input| == |lens| * maxLen && Packed(output, input, lens, maxLen)
    ensures |output| == Tokens(lens)
  {}

  /** Packing, any computation per token, and rebuilding: row b of the result is
      computed from the token of row b that SeqId names. */
  method PackAndRebuild<U>(inputIds: seq<int>, batch: Batch, maxLen: nat, f: int -> seq<U>, dim: nat, zero: U)
    returns (out: seq<U>)
    requires Wide(f, dim) && batch.Shaped() && batch.Encoded() && Fits(batch.thisTime, maxLen)
    requires |inputIds| == |batch.thisTime| * maxLen
    ensures |out| == |batch.thisTime| * dim
    ensures forall b :: 0 <= b < |batch.thisTime| ==>
      HasRow(out, dim, b, RowFor(f, dim, zero, inputIds, batch, maxLen, b))
  {
    hide Wide, Features, Hidden, Readable, RebuiltAll, Packed, HasRow, Starts, LeadsBack, Cumulated, CumSum;
    hide RowFor, Tokens;
    var lens := batch.thisTime;
    PreProcessCumulates(lens, maxLen);
    var r := GetPaddingOffset(inputIds, CumSum(Paddings(lens, maxLen)), Tokens(lens), lens, maxLen);
    HiddenReadable(f, dim, inputIds, batch, maxLen, r);
    var hidden := Hidden(f, dim, r.tokens);
    out := RebuildPadding(hidden, r.cuSeqlensQ, batch, None, maxLen, Tokens(lens), dim, zero);
    forall b | 0 <= b < |lens| ensures HasRow(out, dim, b, RowFor(f, dim, zero, inputIds, batch, maxLen, b)) {
      RebuiltRow(f, dim, zero, inputIds, batch, maxLen, r, b);
    }
  }

  lemma RebuiltRow<U>(f: int -> seq<U>, dim: nat, zero: U, inputIds: seq<int>, batch: Batch, maxLen: nat,
                      r: Unpadded, b: nat)
    requires Wide(f, dim) && batch.Shaped() && batch.Encoded() && Fits(batch.thisTime, maxLen)
    requires |inputIds| == |batch.thisTime| * maxLen && b < |batch.thisTime|
    requires Packed(r.tokens, inputIds, batch.thisTime, maxLen) && Starts(r.cuSeqlensQ, batch.thisTime)
    ensures Readable(Hidden(f, dim, r.tokens), r.cuSeqlensQ, batch, dim)
    ensures HasRow(RebuiltAll(Hidden(f, dim, r.tokens), r.cuSeqlensQ, batch, dim, zero), dim, b,
                   RowFor(f, dim, zero, inputIds, batch, maxLen, b))
  {
    hide Wide, Features, Hidden, Readable, Packed, Starts;
    HiddenReadable(f, dim, inputIds, batch, maxLen, r);
    RowInside(b, |batch.thisTime|, dim);
    var out := RebuiltAll(Hidden(f, dim, r.tokens), r.cuSeqlensQ, batch, dim, zero);
    forall j | 0 <= j < dim ensures At(out, dim, b, j) == RowFor(f, dim, zero, inputIds, batch, maxLen, b)[j] {
      DivModUnique(b * dim + j, b, j, dim);
      if batch.Active(b) {
        PackedTokenOf(f, dim, zero, inputIds, batch, maxLen, r, b, j);
      }
    }
  }

  /** Which row of features row b gets, by its three lengths: zeros if it has no tokens or
      neither length counts any, else what is computed from its token encoder - 1 in the
      encoder, and from its first token in the decoder. */
  lemma RowByLengths<U>(f: int -> seq<U>, dim: nat, zero: U, inputIds: seq<int>, batch: Batch, maxLen: nat, b: nat)
    requires Wide(f, dim) && batch.Shaped() && batch.Encoded() && Fits(batch.thisTime, maxLen)
    requires |inputIds| == |batch.thisTime| * maxLen && b < |batch.thisTime|
    ensures b * maxLen + batch.thisTime[b] <= |inputIds|
    ensures batch.thisTime[b] == 0 || batch.decoder[b] == 0 == batch.encoder[b] ==>
      RowFor(f, dim, zero, inputIds, batch, maxLen, b) == seq(dim, _ => zero)
    ensures batch.thisTime[b] > 0 && batch.encoder[b] > 0 ==>
      RowFor(f, dim, zero, inputIds, batch, maxLen, b) == f(inputIds[b * maxLen + (batch.encoder[b] - 1)])
    ensures batch.thisTime[b] > 0 && batch.encoder[b] == 0 < batch.decoder[b] ==>
      RowFor(f, dim, zero, inputIds, batch, maxLen, b) == f(inputIds[b * maxLen])
  {
    RowInside(b, |batch.thisTime|, maxLen);
  }

  /** A row that is a whole prompt or one decoded token yields its last token. */
  lemma YieldsLastToken<U>(f: int -> seq<U>, dim: nat, zero: U, inputIds: seq<int>, batch: Batch, maxLen: nat, b: nat)
    requires Wide(f, dim) && batch.Shaped() && batch.Encoded() && Fits(batch.thisTime, maxLen)
    requires |inputIds| == |batch.thisTime| * maxLen && b < |batch.thisTime|
    requires batch.thisTime[b] == batch.encoder[b] > 0 ||
             (batch.encoder[b] == 0 < batch.decoder[b] && batch.thisTime[b] == 1)
    ensures 0 <= b * maxLen + (batch.thisTime[b] - 1) < |inputIds|
    ensures RowFor(f, dim, zero, inputIds, batch, maxLen, b) == f(inputIds[b * maxLen + (batch.thisTime[b] - 1)])
  {
    RowByLengths(f, dim, zero, inputIds, batch, maxLen, b);
  }

  /** The appending variant: output token t is computed from its row in the same way. */
  method PackAndAppend<U>(inputIds: seq<int>, batch: Batch, maxLen: nat, f: int -> seq<U>, dim: nat, zero: U,
                          outputPaddingOffset: seq<int>) returns (out: seq<U>)
    requires Wide(f, dim) && batch.Shaped() && batch.Encoded() && batch.WholePrompts() && Fits(batch.thisTime, maxLen)
    requires |inputIds| == |batch.thisTime| * maxLen
    requires Fits(batch.OutputLens(), maxLen) && LeadsBack(outputPaddingOffset, batch.OutputLens(), maxLen)
    ensures |out| == Tokens(batch.OutputLens()) * dim
    ensures forall t :: 0 <= t < Tokens(batch.OutputLens()) ==>
      HasRow(out, dim, t, RowFor(f, dim, zero, inputIds, batch, maxLen, Row(batch.OutputLens(), t)))
  {
    hide Wide, Features, Hidden, Readable, AppendedAll, Packed, HasRow, Starts, LeadsBack, Cumulated, CumSum;
    hide RowFor, Tokens;
    var lens := batch.thisTime;
    PreProcessCumulates(lens, maxLen);
    var r := GetPaddingOffset(inputIds, CumSum(Paddings(lens, maxLen)), Tokens(lens), lens, maxLen);
    HiddenReadable(f, dim, inputIds, batch, maxLen, r);
    var hidden := Hidden(f, dim, r.tokens);
    out := RebuildPadding(hidden, r.cuSeqlensQ, batch, Some(outputPaddingOffset), maxLen, Tokens(lens), dim, zero);
    forall t | 0 <= t < Tokens(batch.OutputLens())
      ensures HasRow(out, dim, t, RowFor(f, dim, zero, inputIds, batch, maxLen, Row(batch.OutputLens(), t)))
    {
      AppendedRow(f, dim, zero, inputIds, batch, maxLen, r, t);
    }
  }

  lemma AppendedRow<U>(f: int -> seq<U>, dim: nat, zero: U, inputIds: seq<int>, batch: Batch, maxLen: nat,
                       r: Unpadded, t: nat)
    requires Wide(f, dim) && batch.Shaped() && batch.Encoded() && Fits(batch.thisTime, maxLen)
    requires |inputIds| == |batch.thisTime| * maxLen && t < Tokens(batch.OutputLens())
    requires Packed(r.tokens, inputIds, batch.thisTime, maxLen) && Starts(r.cuSeqlensQ, batch.thisTime)
    ensures Readable(Hidden(f, dim, r.tokens), r.cuSeqlensQ, batch, dim)
    ensures HasRow(AppendedAll(Hidden(f, dim, r.tokens), r.cuSeqlensQ, batch, batch.OutputLens(), dim, zero), dim, t,
                   RowFor(f, dim, zero, inputIds, batch, maxLen, Row(batch.OutputLens(), t)))
  {
    hide Wide, Features, Hidden, Readable, Packed, Starts, Tokens, Row;
    HiddenReadable(f, dim, inputIds, batch, maxLen, r);
    var b := Row(batch.OutputLens(), t);
    RowInside(t, Tokens(batch.OutputLens()), dim);
    var out := AppendedAll(Hidden(f, dim, r.tokens), r.cuSeqlensQ, batch, batch.OutputLens(), dim, zero);
    forall j | 0 <= j < dim ensures At(out, dim, t, j) == RowFor(f, dim, zero, inputIds, batch, maxLen, b)[j] {
      DivModUnique(t * dim + j, t, j, dim);
      if batch.Active(b) {
        PackedTokenOf(f, dim, zero, inputIds, batch, maxLen, r, b, j);
      }
    }
  }

  /** A decoded row of which several tokens are kept repeats its first one: output
      token t stands for its own token exactly if it is the first of its row. */
  lemma RepeatsTheFirst(batch: Batch, t: nat)
    requires batch.Shaped() && t < Tokens(batch.OutputLens()) && batch.encoder[Row(batch.OutputLens(), t)] == 0
    ensures var row := Row(batch.OutputLens(), t);
      batch.SeqId(row) == t - Start(batch.OutputLens(), row) <==>
      t == 0 || Row(batch.OutputLens(), t - 1) != row
  {
    var lens := batch.OutputLens();
    var row := Row(lens, t);
    if t > 0 && Row(lens, t - 1) != row && Start(lens, row) < t {
      SlotsAreDistinct(lens, row, t - 1 - Start(lens, row));
    }
  }
}
