/** One row of the batch through the decode loop, as the kernels of custom_ops/cpu_ops
    and post_process_normal in pre_and_post_process.py change it round by round. */
module DecodeRow {

  datatype Row = Row(
    stopped: bool, encoder: int, decoder: int, thisTime: int, stepIdx: int, preIds: seq<int>, inputIds: seq<int>)

  /** A row the loop can work on: it has room for the history, and a prompt not yet
      processed lies in the input buffer. */
  predicate Safe(r: Row, maxDecLen: int) {
    |r.inputIds| >= 1 && 1 <= |r.preIds| && maxDecLen <= |r.preIds| && r.decoder >= 0 &&
    (!r.stopped ==> 0 <= r.stepIdx < |r.preIds| && (r.decoder == 0 ==> 1 <= r.encoder <= |r.inputIds|))
  }

  /** set_value_by_flag_and_id: the newest input token goes into the history. */
  function Record(r: Row, maxDecLen: int): Row
    requires Safe(r, maxDecLen)
  {
    if r.stopped then r
    else r.(preIds := r.preIds[r.stepIdx := if r.decoder == 0 then r.inputIds[r.encoder - 1] else r.inputIds[0]])
  }

  /** post_process_normal counts the step and stops a row that has reached its limit. */
  function Limit(r: Row, maxDecLen: int): Row {
    var stepIdx := if r.stopped then r.stepIdx else r.stepIdx + 1;
    r.(stepIdx := stepIdx, stopped := r.stopped || stepIdx >= maxDecLen)
  }

  /** The token set_value_by_flags leaves for a row. */
  function Settled(stopped: bool, seqLen: int, x: int, endIds: seq<int>): int
    requires |endIds| > 0
  {
    if stopped then (if seqLen == 0 then -1 else endIds[0]) else x
  }

  function StopAt(r: Row, token: int, endIds: seq<int>): Row {
    r.(stopped := r.stopped || token in endIds)
  }

  /** update_inputs_kernel. */
  function Advance(r: Row, token: int): Row
    requires |r.inputIds| >= 1
  {
    r.(decoder := if r.stopped then 0 else if r.decoder == 0 then r.encoder else r.decoder + 1,
       thisTime := if r.stopped then 0 else 1,
       encoder := 0,
       inputIds := r.inputIds[0 := token])
  }

  /** The token a row puts out in a round in which x is sampled. */
  function Emitted(r: Row, x: int, endIds: seq<int>, maxDecLen: int): int
    requires |endIds| > 0
  {
    Settled(Limit(r, maxDecLen).stopped, r.thisTime, x, endIds)
  }

  /** One round: record, sample x, count, stop, update. */
  function Round(r: Row, x: int, endIds: seq<int>, maxDecLen: int): (t: Row)
    requires |endIds| > 0 && Safe(r, maxDecLen)
    ensures Safe(t, maxDecLen)
  {
    var token := Emitted(r, x, endIds, maxDecLen);
    Advance(StopAt(Limit(Record(r, maxDecLen), maxDecLen), token, endIds), token)
  }

  function Rounds(r: Row, xs: seq<int>, endIds: seq<int>, maxDecLen: int): (t: Row)
    requires |endIds| > 0 && Safe(r, maxDecLen)
    ensures Safe(t, maxDecLen)
  {
    if xs == [] then r
    else Round(Rounds(r, xs[..|xs| - 1], endIds, maxDecLen), xs[|xs| - 1], endIds, maxDecLen)
  }

  // ---------- a request from its prompt on ----------

  /** A row to which a request has just been assigned. */
  ghost predicate Fresh(r: Row, prompt: seq<int>, maxDecLen: int) {
    Safe(r, maxDecLen) && 1 <= |prompt| <= |r.inputIds| && r.inputIds[..|prompt|] == prompt &&
    !r.stopped && r.encoder == r.thisTime == |prompt| && r.decoder == 0 && r.stepIdx == 0 &&
    r.preIds == seq(|r.preIds|, _ => -1)
  }

  /** After n sampled tokens nothing has stopped the row: no end token, and the limit not reached. */
  ghost predicate Going(xs: seq<int>, n: nat, endIds: seq<int>, maxDecLen: int)
    requires n <= |xs|
  {
    n == 0 || (n < maxDecLen && forall k :: 0 <= k < n ==> xs[k] !in endIds)
  }

  /** The history of a row after n records: the last token of the prompt, then what was generated. */
  function History(prompt: seq<int>, xs: seq<int>, length: nat): seq<int>
    requires |prompt| > 0 && |xs| + 1 <= length
  {
    [prompt[|prompt| - 1]] + xs + seq(length - (|xs| + 1), _ => -1)
  }

  /** A row that goes on, after n >= 1 rounds. */
  ghost predicate Decoding(t: Row, prompt: seq<int>, xs: seq<int>) {
    var n := |xs|;
    n >= 1 && |prompt| > 0 && n <= |t.preIds| && |t.inputIds| >= 1 &&
    t.encoder == 0 && t.thisTime == 1 && t.decoder == |prompt| + n - 1 && t.stepIdx == n &&
    t.inputIds[0] == xs[n - 1] && t.preIds == History(prompt, xs[..n - 1], |t.preIds|)
  }

  lemma FirstRound(r: Row, prompt: seq<int>, x: int, endIds: seq<int>, maxDecLen: int)
    requires |endIds| > 0 && Fresh(r, prompt, maxDecLen)
    ensures var t := Round(r, x, endIds, maxDecLen);
      (!t.stopped <==> 1 < maxDecLen && x !in endIds) && |t.preIds| == |r.preIds| &&
      (if t.stopped then t.encoder == t.decoder == t.thisTime == 0 else Decoding(t, prompt, [x]))
  {
    var t := Round(r, x, endIds, maxDecLen);
    assert r.inputIds[|prompt| - 1] == prompt[|prompt| - 1];
    if !t.stopped {
      assert t.preIds == History(prompt, [], |t.preIds|);
      assert [x][..0] == [];
    }
  }

  lemma NextRound(t: Row, prompt: seq<int>, xs: seq<int>, x: int, endIds: seq<int>, maxDecLen: int)
    requires |endIds| > 0 && Safe(t, maxDecLen) && !t.stopped && Decoding(t, prompt, xs)
    ensures var u := Round(t, x, endIds, maxDecLen);
      (!u.stopped <==> |xs| + 1 < maxDecLen && x !in endIds) && |u.preIds| == |t.preIds| &&
      (if u.stopped then u.encoder == u.decoder == u.thisTime == 0 else Decoding(u, prompt, xs + [x]))
  {
    var u := Round(t, x, endIds, maxDecLen);
    var n := |xs|;
    if !u.stopped {
      assert (xs + [x])[..n] == xs;
      assert xs == xs[..n - 1] + [xs[n - 1]];
      assert u.preIds == t.preIds[n := xs[n - 1]];
      assert u.preIds == History(prompt, xs, |u.preIds|);
    }
  }

  /** A stopped row stays stopped and keeps its history. */
  lemma {:induction false} StaysStopped(r: Row, xs: seq<int>, endIds: seq<int>, maxDecLen: int)
    requires |endIds| > 0 && Safe(r, maxDecLen) && r.stopped
    ensures var t := Rounds(r, xs, endIds, maxDecLen);
      t.stopped && t.preIds == r.preIds && t.stepIdx == r.stepIdx &&
      (xs != [] ==> t.encoder == t.decoder == t.thisTime == 0)
  {
    if xs != [] {
      StaysStopped(r, xs[..|xs| - 1], endIds, maxDecLen);
    }
  }

  /** A request after any number of rounds: it goes on exactly as long as nothing
      stops it, and its lengths, its next input and its history are as they should be. */
  lemma {:induction false} AfterRounds(r: Row, prompt: seq<int>, xs: seq<int>, endIds: seq<int>, maxDecLen: int)
    requires |endIds| > 0 && Fresh(r, prompt, maxDecLen) && xs != []
    ensures var t := Rounds(r, xs, endIds, maxDecLen);
      (!t.stopped <==> Going(xs, |xs|, endIds, maxDecLen)) &&
      (if t.stopped then t.encoder == t.decoder == t.thisTime == 0 else Decoding(t, prompt, xs))
  {
    var n := |xs| - 1;
    var front, x := xs[..n], xs[n];
    if n == 0 {
      assert front == [] && xs == [x];
      FirstRound(r, prompt, x, endIds, maxDecLen);
    } else {
      hide Round, Safe, Fresh, Decoding;
      AfterRounds(r, prompt, front, endIds, maxDecLen);
      assert xs == front + [x];
      var before := Rounds(r, front, endIds, maxDecLen);
      if before.stopped {
        OneMore(before, x, endIds, maxDecLen);
      } else {
        NextRound(before, prompt, front, x, endIds, maxDecLen);
      }
    }
  }

  lemma OneMore(t: Row, x: int, endIds: seq<int>, maxDecLen: int)
    requires |endIds| > 0 && Safe(t, maxDecLen) && t.stopped
    ensures var u := Round(t, x, endIds, maxDecLen);
      u.stopped && u.encoder == u.decoder == u.thisTime == 0
  {}

  /** What a request puts out: the sampled tokens as long as it goes on, the first
      end token where its limit stops it, and -1 ever after. */
  lemma EmittedAt(r: Row, prompt: seq<int>, xs: seq<int>, x: int, endIds: seq<int>, maxDecLen: int)
    requires |endIds| > 0 && Fresh(r, prompt, maxDecLen)
    ensures Emitted(Rounds(r, xs, endIds, maxDecLen), x, endIds, maxDecLen) ==
            if !Going(xs, |xs|, endIds, maxDecLen) then -1
            else if |xs| + 1 >= maxDecLen then endIds[0]
            else x
  {
    if xs != [] {
      AfterRounds(r, prompt, xs, endIds, maxDecLen);
    }
  }

  /** The history the penalties see in the round after xs. */
  lemma HistorySeen(r: Row, prompt: seq<int>, xs: seq<int>, endIds: seq<int>, maxDecLen: int)
    requires |endIds| > 0 && Fresh(r, prompt, maxDecLen) && Going(xs, |xs|, endIds, maxDecLen)
    ensures var t := Record(Rounds(r, xs, endIds, maxDecLen), maxDecLen);
      |xs| + 1 <= |t.preIds| && t.preIds == History(prompt, xs, |t.preIds|)
  {
    var t := Rounds(r, xs, endIds, maxDecLen);
    var n := |xs|;
    if n > 0 {
      AfterRounds(r, prompt, xs, endIds, maxDecLen);
      assert xs == xs[..n - 1] + [xs[n - 1]];
      assert t.preIds[n := xs[n - 1]] == History(prompt, xs, |t.preIds|);
    } else {
      assert r.inputIds[|prompt| - 1] == prompt[|prompt| - 1];
      assert r.preIds[0 := prompt[|prompt| - 1]] == History(prompt, xs, |r.preIds|);
    }
  }
}
