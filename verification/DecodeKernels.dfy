/** The kernels of custom_ops/cpu_ops that a decode round runs over the whole batch,
    and the round itself. */
module DecodeKernels {
  import opened Arith
  import opened FlatRows
  import opened DecodeRow

  /** A row of the history after the newest input token has been put at its step. */
  function Recorded(history: seq<int>, input: seq<int>, stopped: bool, enc: int, dec: int, step: int): seq<int>
    requires |input| >= 1 && (!stopped ==> 0 <= step < |history| && (dec == 0 ==> 1 <= enc <= |input|))
  {
    if stopped then history else history[step := input[if dec == 0 then enc - 1 else 0]]
  }

  /** set_value_by_flags.cc. */
  method SetValueByFlagAndId(stopFlags: seq<bool>, preIdsAll: array<int>, inputIds: seq<int>, encoder: seq<int>,
                             decoder: seq<int>, stepIdx: seq<int>, bs: nat, length: nat, lengthInputIds: nat)
    requires |stopFlags| == |encoder| == |decoder| == |stepIdx| == bs
    requires preIdsAll.Length == bs * length && |inputIds| == bs * lengthInputIds && lengthInputIds >= 1
    requires forall b :: 0 <= b < bs && !stopFlags[b] ==>
      0 <= stepIdx[b] < length && (decoder[b] == 0 ==> 1 <= encoder[b] <= lengthInputIds)
    modifies preIdsAll
    ensures forall b :: 0 <= b < bs ==>
      RowOf(preIdsAll[..], length, bs, b) ==
      Recorded(RowOf(old(preIdsAll[..]), length, bs, b), RowOf(inputIds, lengthInputIds, bs, b),
               stopFlags[b], encoder[b], decoder[b], stepIdx[b])
  {
    hide RowOf;
    for bi := 0 to bs
      invariant forall b :: 0 <= b < bi ==>
        RowOf(preIdsAll[..], length, bs, b) ==
        Recorded(RowOf(old(preIdsAll[..]), length, bs, b), RowOf(inputIds, lengthInputIds, bs, b),
                 stopFlags[b], encoder[b], decoder[b], stepIdx[b])
      invariant forall b :: bi <= b < bs ==>
        RowOf(preIdsAll[..], length, bs, b) == RowOf(old(preIdsAll[..]), length, bs, b)
    {
      if !stopFlags[bi] {
        var seqLenDec, seqLenEnc := decoder[bi], encoder[bi];
        ghost var was := preIdsAll[..];
        ghost var place := if seqLenDec == 0 then seqLenEnc - 1 else 0;
        InRow(inputIds, lengthInputIds, bs, bi, place);
        WriteInRow(was, length, bs, bi, stepIdx[bi], inputIds[bi * lengthInputIds + place]);
        if seqLenDec == 0 {
          preIdsAll[bi * length + stepIdx[bi]] := inputIds[bi * lengthInputIds + (seqLenEnc - 1)];
        } else {
          preIdsAll[bi * length + stepIdx[bi]] := inputIds[bi * lengthInputIds + 0];
        }
        assert preIdsAll[..] == was[bi * length + stepIdx[bi] := inputIds[bi * lengthInputIds + place]];
      }
    }
  }

  method IsInEnd(id: int, endIds: seq<int>) returns (flag: bool)
    ensures flag <==> id in endIds
  {
    flag := false;
    for i := 0 to |endIds|
      invariant id !in endIds[..i]
    {
      if id == endIds[i] {
        return true;
      }
    }
  }

  /** stop_generation_multi_ends.cc; the caller always passes false for beamSearch. */
  method SetValueByFlags(stopFlags: array<bool>, topkIds: array<int>, nextTokens: array<int>, endIds: seq<int>,
                         seqLens: seq<int>, bs: nat, beamSearch: bool)
    requires stopFlags.Length == topkIds.Length == nextTokens.Length == |seqLens| == bs && |endIds| > 0
    requires topkIds != nextTokens
    modifies stopFlags, topkIds, nextTokens
    ensures forall b :: 0 <= b < bs ==>
      topkIds[b] == Settled(old(stopFlags[b]), seqLens[b], old(topkIds[b]), endIds)
    ensures forall b :: 0 <= b < bs ==>
      nextTokens[b] == if old(stopFlags[b]) && seqLens[b] == 0 then old(nextTokens[b]) else topkIds[b]
    ensures forall b :: 0 <= b < bs ==> stopFlags[b] == (old(stopFlags[b]) || (!beamSearch && topkIds[b] in endIds))
  {
    for bi := 0 to bs
      invariant forall b :: 0 <= b < bi ==>
        topkIds[b] == Settled(old(stopFlags[b]), seqLens[b], old(topkIds[b]), endIds) &&
        nextTokens[b] == (if old(stopFlags[b]) && seqLens[b] == 0 then old(nextTokens[b]) else topkIds[b]) &&
        stopFlags[b] == (old(stopFlags[b]) || (!beamSearch && topkIds[b] in endIds))
      invariant forall b :: bi <= b < bs ==>
        topkIds[b] == old(topkIds[b]) && nextTokens[b] == old(nextTokens[b]) && stopFlags[b] == old(stopFlags[b])
    {
      if stopFlags[bi] {
        if seqLens[bi] == 0 {
          topkIds[bi] := -1;
        } else {
          topkIds[bi] := endIds[0];
          nextTokens[bi] := endIds[0];
        }
      } else {
        nextTokens[bi] := topkIds[bi];
      }
      var inEnd := IsInEnd(topkIds[bi], endIds);
      if !beamSearch && inEnd {
        stopFlags[bi] := true;
      }
    }
  }

  function Stopped(flags: seq<bool>): (n: nat)
    ensures n <= |flags|
  {
    if flags == [] then 0 else Stopped(flags[..|flags| - 1]) + if flags[|flags| - 1] then 1 else 0
  }

  /** update_inputs.cc. */
  method UpdateInputs(notNeedStop: array<bool>, thisTime: array<int>, encoder: array<int>, decoder: array<int>,
                      inputIds: array<int>, stopNums: int, stopFlags: seq<bool>, nextTokens: seq<int>,
                      bsz: nat, inputIdsStride: nat)
    requires notNeedStop.Length == 1 && inputIdsStride >= 1 && inputIds.Length == bsz * inputIdsStride
    requires thisTime.Length == encoder.Length == decoder.Length == |stopFlags| == |nextTokens| == bsz
    requires thisTime != encoder && thisTime != decoder && encoder != decoder
    requires inputIds != thisTime && inputIds != encoder && inputIds != decoder
    modifies notNeedStop, thisTime, encoder, decoder, inputIds
    ensures forall b :: 0 <= b < bsz ==> encoder[b] == 0 && thisTime[b] == if stopFlags[b] then 0 else 1
    ensures forall b :: 0 <= b < bsz ==>
      decoder[b] == if stopFlags[b] then 0 else if old(decoder[b]) == 0 then old(encoder[b]) else old(decoder[b]) + 1
    ensures forall b :: 0 <= b < bsz ==>
      RowOf(inputIds[..], inputIdsStride, bsz, b) ==
      RowOf(old(inputIds[..]), inputIdsStride, bsz, b)[0 := nextTokens[b]]
    ensures notNeedStop[0] <==> Stopped(stopFlags) < stopNums
  {
    hide RowOf;
    var stopSum := 0;
    for bi := 0 to bsz
      invariant stopSum == Stopped(stopFlags[..bi])
      invariant forall b :: 0 <= b < bi ==>
        encoder[b] == 0 && thisTime[b] == (if stopFlags[b] then 0 else 1) &&
        decoder[b] == if stopFlags[b] then 0 else if old(decoder[b]) == 0 then old(encoder[b]) else old(decoder[b]) + 1
      invariant forall b :: bi <= b < bsz ==> encoder[b] == old(encoder[b]) && decoder[b] == old(decoder[b])
      invariant forall b :: 0 <= b < bsz ==>
        RowOf(inputIds[..], inputIdsStride, bsz, b) ==
        if b < bi then RowOf(old(inputIds[..]), inputIdsStride, bsz, b)[0 := nextTokens[b]]
        else RowOf(old(inputIds[..]), inputIdsStride, bsz, b)
    {
      assert stopFlags[..bi + 1][..bi] == stopFlags[..bi];
      var stopFlagNow := stopFlags[bi];
      var seqLenEncoder, seqLenDecoder := encoder[bi], decoder[bi];
      decoder[bi] := if stopFlagNow then 0 else if seqLenDecoder == 0 then seqLenEncoder else seqLenDecoder + 1;
      thisTime[bi] := if stopFlagNow then 0 else 1;
      encoder[bi] := 0;
      ghost var was := inputIds[..];
      WriteInRow(was, inputIdsStride, bsz, bi, 0, nextTokens[bi]);
      inputIds[bi * inputIdsStride + 0] := nextTokens[bi];
      assert inputIds[..] == was[bi * inputIdsStride + 0 := nextTokens[bi]];
      stopSum := stopSum + if stopFlagNow then 1 else 0;
    }
    assert stopFlags[..bsz] == stopFlags;
    notNeedStop[0] := stopSum < stopNums;
  }

  /** The buffers of gpu_model_runner.py (share_inputs) that a decode round works on. */
  class ShareInputs {
    const bs: nat
    const length: nat        // of a row of preIds
    const stride: nat        // of a row of inputIds
    const stopFlags: array<bool>
    const encoder: array<int>
    const decoder: array<int>
    const thisTime: array<int>
    const stepIdx: array<int>
    const preIds: array<int>
    const inputIds: array<int>
    const nextTokens: array<int>
    const notNeedStop: array<bool>
    const stopNums: int
    const maxDecLen: seq<int>
    const endIds: seq<int>

    ghost predicate Shaped() {
      stopFlags.Length == encoder.Length == decoder.Length == thisTime.Length == bs &&
      stepIdx.Length == nextTokens.Length == |maxDecLen| == bs && notNeedStop.Length == 1 && |endIds| > 0 &&
      preIds.Length == bs * length && inputIds.Length == bs * stride && stride >= 1 && length >= 1 &&
      notNeedStop != stopFlags &&
      encoder !in {decoder, thisTime, stepIdx, preIds, inputIds, nextTokens} &&
      decoder !in {thisTime, stepIdx, preIds, inputIds, nextTokens} &&
      thisTime !in {stepIdx, preIds, inputIds, nextTokens} && stepIdx !in {preIds, inputIds, nextTokens} &&
      preIds !in {inputIds, nextTokens} && inputIds != nextTokens
    }

    ghost function View(b: nat): Row
      requires Shaped() && b < bs
      reads stopFlags, encoder, decoder, thisTime, stepIdx, preIds, inputIds
    {
      Row(stopFlags[b], encoder[b], decoder[b], thisTime[b], stepIdx[b],
          RowOf(preIds[..], length, bs, b), RowOf(inputIds[..], stride, bs, b))
    }

    ghost predicate Valid()
      reads stopFlags, encoder, decoder, thisTime, stepIdx, preIds, inputIds
    {
      Shaped() && forall b :: 0 <= b < bs ==> Safe(View(b), maxDecLen[b])
    }

    /** _init_share_inputs: all rows are stopped and empty. */
    constructor (maxNumSeqs: nat, maxModelLen: nat, padTokenId: int, maxDecLen: seq<int>, endIds: seq<int>)
      requires maxModelLen >= 1 && |maxDecLen| == maxNumSeqs && |endIds| > 0
      requires forall b :: 0 <= b < maxNumSeqs ==> maxDecLen[b] <= maxModelLen
      ensures Valid() && bs == stopNums == maxNumSeqs && length == stride == maxModelLen
      ensures this.maxDecLen == maxDecLen && this.endIds == endIds
      ensures fresh(stopFlags) && fresh(encoder) && fresh(decoder) && fresh(thisTime) && fresh(stepIdx)
      ensures fresh(preIds) && fresh(inputIds) && fresh(nextTokens) && fresh(notNeedStop)
      ensures forall b :: 0 <= b < bs ==>
        View(b) == Row(true, 0, 0, 0, 0, seq(length, _ => -1), seq(stride, _ => padTokenId))
    {
      hide RowOf, Safe;
      bs, length, stride, stopNums := maxNumSeqs, maxModelLen, maxModelLen, maxNumSeqs;
      this.maxDecLen, this.endIds := maxDecLen, endIds;
      preIds := new int[maxNumSeqs * maxModelLen](_ => -1);
      inputIds := new int[maxNumSeqs * maxModelLen](_ => padTokenId);
      thisTime := new int[maxNumSeqs](_ => 0);
      encoder := new int[maxNumSeqs](_ => 0);
      decoder := new int[maxNumSeqs](_ => 0);
      stepIdx := new int[maxNumSeqs](_ => 0);
      notNeedStop := new bool[1](_ => false);
      stopFlags := new bool[maxNumSeqs](_ => true);
      nextTokens := new int[maxNumSeqs](_ => -1);
      new;
      ConstantRows(preIds[..], length, bs, -1);
      ConstantRows(inputIds[..], stride, bs, padTokenId);
      EmptySafe();
    }

    lemma EmptySafe()
      requires Shaped()
      requires forall b :: 0 <= b < bs ==> View(b).stopped && View(b).decoder == 0 && maxDecLen[b] <= length
      ensures Valid()
    {
      forall b | 0 <= b < bs ensures Safe(View(b), maxDecLen[b]) {
        assert View(b).stopped;
      }
    }

    /** insert_prefill_inputs, for one request with a prompt processed as a whole. */
    method InsertPrefill(idx: nat, prompt: seq<int>)
      requires Valid() && idx < bs && 1 <= |prompt| <= stride && maxDecLen[idx] <= length
      modifies stopFlags, encoder, decoder, thisTime, stepIdx, preIds, inputIds, notNeedStop
      ensures Valid() && Fresh(View(idx), prompt, maxDecLen[idx]) && notNeedStop[0]
      ensures forall b :: 0 <= b < bs && b != idx ==> View(b) == old(View(b))
    {
      hide RowOf;
      RowInside(idx, bs, length);
      RowInside(idx, bs, stride);
      ghost var history, tokens := preIds[..], inputIds[..];
      forall k | idx * length <= k < idx * length + length {
        preIds[k] := -1;
      }
      stepIdx[idx] := 0;
      forall k | idx * stride <= k < idx * stride + |prompt| {
        inputIds[k] := prompt[k - idx * stride];
      }
      decoder[idx] := 0;
      thisTime[idx] := |prompt|;
      encoder[idx] := |prompt|;
      stopFlags[idx] := false;
      notNeedStop[0] := true;
      WriteSlice(history, preIds[..], length, bs, idx, seq(length, _ => -1));
      WriteSlice(tokens, inputIds[..], stride, bs, idx, prompt);
      forall b | 0 <= b < bs ensures Safe(View(b), maxDecLen[b]) && (b != idx ==> View(b) == old(View(b))) {
        assert old(Safe(View(b), maxDecLen[b]));
      }
    }

    method SetValueByFlagsAndIdx()
      requires Valid()
      modifies preIds
      ensures forall b :: 0 <= b < bs ==> View(b) == Record(old(View(b)), maxDecLen[b])
    {
      hide RowOf;
      forall b | 0 <= b < bs && !stopFlags[b]
        ensures 0 <= stepIdx[b] < length && (decoder[b] == 0 ==> 1 <= encoder[b] <= stride)
      {
        assert Safe(View(b), maxDecLen[b]);
      }
      SetValueByFlagAndId(stopFlags[..], preIds, inputIds[..], encoder[..], decoder[..], stepIdx[..], bs, length,
                          stride);
    }

    /** The tensor operations at the head of post_process_normal. */
    method CountSteps()
      requires Shaped()
      modifies stepIdx, stopFlags
      ensures forall b :: 0 <= b < bs ==> View(b) == Limit(old(View(b)), maxDecLen[b])
    {
      hide RowOf;
      forall b | 0 <= b < bs {
        stepIdx[b] := if stopFlags[b] then stepIdx[b] else stepIdx[b] + 1;
      }
      forall b | 0 <= b < bs {
        stopFlags[b] := stopFlags[b] || stepIdx[b] >= maxDecLen[b];
      }
      assert preIds[..] == old(preIds[..]) && inputIds[..] == old(inputIds[..]);
      forall b | 0 <= b < bs ensures View(b) == Limit(old(View(b)), maxDecLen[b]) {
        assert stepIdx[b] == if old(stopFlags[b]) then old(stepIdx[b]) else old(stepIdx[b]) + 1;
      }
    }

    method GetStopFlagsMulti(topkIds: array<int>)
      requires Shaped() && topkIds.Length == bs
      requires topkIds !in {encoder, decoder, thisTime, stepIdx, preIds, inputIds, nextTokens}
      modifies stopFlags, topkIds, nextTokens
      ensures forall b :: 0 <= b < bs ==>
        topkIds[b] == Settled(old(stopFlags[b]), thisTime[b], old(topkIds[b]), endIds)
      ensures forall b :: 0 <= b < bs ==> View(b) == StopAt(old(View(b)), topkIds[b], endIds)
    {
      hide RowOf, Settled;
      SetValueByFlags(stopFlags, topkIds, nextTokens, endIds, thisTime[..], bs, false);
    }

    method UpdateInputes(topkIds: seq<int>)
      requires Shaped() && |topkIds| == bs
      requires forall b :: 0 <= b < bs ==> stride == |View(b).inputIds|
      modifies notNeedStop, thisTime, encoder, decoder, inputIds
      ensures forall b :: 0 <= b < bs ==> View(b) == Advance(old(View(b)), topkIds[b])
      ensures notNeedStop[0] <==> Stopped(stopFlags[..]) < stopNums
    {
      hide RowOf;
      UpdateInputs(notNeedStop, thisTime, encoder, decoder, inputIds, stopNums, stopFlags[..], topkIds, bs, stride);
    }

    /** execute_model from the recording of the history to the update of the inputs;
        topkIds holds the sampled tokens. */
    method Step(topkIds: array<int>)
      requires Valid() && topkIds.Length == bs
      requires topkIds !in {encoder, decoder, thisTime, stepIdx, preIds, inputIds, nextTokens}
      modifies stopFlags, encoder, decoder, thisTime, stepIdx, preIds, inputIds, nextTokens, notNeedStop, topkIds
      ensures Valid()
      ensures forall b :: 0 <= b < bs ==> View(b) == Round(old(View(b)), old(topkIds[b]), endIds, maxDecLen[b])
      ensures forall b :: 0 <= b < bs ==>
        topkIds[b] == Emitted(old(View(b)), old(topkIds[b]), endIds, maxDecLen[b])
      ensures notNeedStop[0] <==> Stopped(stopFlags[..]) < stopNums
    {
      hide RowOf, Settled, Shaped, Stopped;
      SetValueByFlagsAndIdx();
      CountSteps();
      GetStopFlagsMulti(topkIds);
      UpdateInputes(topkIds[..]);
    }
  }
}
