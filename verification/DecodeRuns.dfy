/** Runs of the decode loop over a whole batch, no request being added meanwhile. */
module DecodeRuns {
  import opened DecodeRow
  import opened DecodeKernels

  /** The settings the runs depend on; one length limit for each row. */
  datatype Settings = Settings(endIds: seq<int>, maxDecLen: seq<int>, stopNums: int)

  ghost predicate Ready(rows: seq<Row>, c: Settings) {
    |c.endIds| > 0 && |rows| == |c.maxDecLen| && forall b :: 0 <= b < |rows| ==> Safe(rows[b], c.maxDecLen[b])
  }

  /** What ShareInputs.Step does to the rows when samples are drawn. */
  ghost predicate Steps(rows: seq<Row>, after: seq<Row>, samples: seq<int>, c: Settings) {
    Ready(rows, c) && |after| == |samples| == |rows| &&
    forall b :: 0 <= b < |rows| ==> after[b] == Round(rows[b], samples[b], c.endIds, c.maxDecLen[b])
  }

  /** batches[k] is the batch after k rounds, samples[k] what is drawn in round k. */
  ghost predicate IsRun(batches: seq<seq<Row>>, samples: seq<seq<int>>, c: Settings) {
    |batches| == |samples| + 1 && Ready(batches[0], c) &&
    forall k :: 0 <= k < |samples| ==> Steps(batches[k], batches[k + 1], samples[k], c)
  }

  /** The tokens drawn for row b in the first k rounds. */
  function Column(samples: seq<seq<int>>, b: nat, k: nat): (xs: seq<int>)
    requires k <= |samples| && forall i :: 0 <= i < k ==> b < |samples[i]|
    ensures |xs| == k && forall i :: 0 <= i < k ==> xs[i] == samples[i][b]
  {
    seq(k, i requires 0 <= i < k => samples[i][b])
  }

  /** Row by row, a run of the batch is a run of the row. */
  lemma {:induction false} RunIsRounds(batches: seq<seq<Row>>, samples: seq<seq<int>>, c: Settings, k: nat)
    requires IsRun(batches, samples, c) && k < |batches|
    ensures Ready(batches[k], c) && |batches[k]| == |batches[0]|
    ensures forall i :: 0 <= i < k ==> |samples[i]| == |batches[0]|
    ensures forall b :: 0 <= b < |batches[0]| ==>
      batches[k][b] == Rounds(batches[0][b], Column(samples, b, k), c.endIds, c.maxDecLen[b])
  {
    hide Safe, Round;
    if k > 0 {
      RunIsRounds(batches, samples, c, k - 1);
      assert Steps(batches[k - 1], batches[k], samples[k - 1], c);
      forall b | 0 <= b < |batches[0]|
        ensures batches[k][b] == Rounds(batches[0][b], Column(samples, b, k), c.endIds, c.maxDecLen[b])
      {
        assert Column(samples, b, k)[..k - 1] == Column(samples, b, k - 1);
      }
    }
  }

  /** Every row that started from a prompt, after any number of rounds of any run. */
  lemma RequestInRun(batches: seq<seq<Row>>, samples: seq<seq<int>>, c: Settings, k: nat, b: nat, prompt: seq<int>)
    requires IsRun(batches, samples, c) && 1 <= k < |batches| && b < |batches[0]|
    requires Fresh(batches[0][b], prompt, c.maxDecLen[b])
    ensures |batches[k]| == |batches[0]| && forall i :: 0 <= i < k ==> b < |samples[i]|
    ensures !batches[k][b].stopped <==> Going(Column(samples, b, k), k, c.endIds, c.maxDecLen[b])
    ensures if batches[k][b].stopped
            then batches[k][b].encoder == batches[k][b].decoder == batches[k][b].thisTime == 0
            else Decoding(batches[k][b], prompt, Column(samples, b, k))
  {
    hide Safe, Fresh, Decoding, Round;
    RunIsRounds(batches, samples, c, k);
    AfterRounds(batches[0][b], prompt, Column(samples, b, k), c.endIds, c.maxDecLen[b]);
  }

  function Flags(rows: seq<Row>): (flags: seq<bool>)
    ensures |flags| == |rows| && forall b :: 0 <= b < |rows| ==> flags[b] == rows[b].stopped
  {
    seq(|rows|, b requires 0 <= b < |rows| => rows[b].stopped)
  }

  /** not_need_stop, as UpdateInputs computes it. */
  predicate NotNeedStop(rows: seq<Row>, c: Settings) {
    Stopped(Flags(rows)) < c.stopNums
  }

  lemma {:induction false} StoppedRises(a: seq<bool>, b: seq<bool>)
    requires |a| == |b| && forall i :: 0 <= i < |a| && a[i] ==> b[i]
    ensures Stopped(a) <= Stopped(b)
  {
    if a != [] {
      StoppedRises(a[..|a| - 1], b[..|b| - 1]);
    }
  }

  lemma {:induction false} AllStopped(flags: seq<bool>)
    ensures Stopped(flags) == |flags| <==> forall b :: 0 <= b < |flags| ==> flags[b]
  {
    if flags != [] {
      var front := flags[..|flags| - 1];
      AllStopped(front);
      assert (forall b :: 0 <= b < |front| ==> front[b]) ==>
        forall b :: 0 <= b < |flags| - 1 ==> flags[b] by {
          assert forall b :: 0 <= b < |flags| - 1 ==> flags[b] == front[b];
        }
    }
  }

  /** A stop flag never clears, and once the loop need not go on it need never again. */
  lemma {:induction false} StopsAreFinal(batches: seq<seq<Row>>, samples: seq<seq<int>>, c: Settings, i: nat, k: nat)
    requires IsRun(batches, samples, c) && i <= k < |batches|
    ensures |batches[i]| == |batches[k]| && forall b :: 0 <= b < |batches[i]| && batches[i][b].stopped ==>
      batches[k][b].stopped && batches[k][b].preIds == batches[i][b].preIds
    ensures NotNeedStop(batches[k], c) ==> NotNeedStop(batches[i], c)
  {
    if i < k {
      StopsAreFinal(batches, samples, c, i, k - 1);
      var rows, after := batches[k - 1], batches[k];
      assert Steps(rows, after, samples[k - 1], c);
      forall b | 0 <= b < |rows| && rows[b].stopped ensures after[b].stopped && after[b].preIds == rows[b].preIds {
        assert Safe(rows[b], c.maxDecLen[b]);
      }
      StoppedRises(Flags(rows), Flags(after));
    }
  }

  /** With stop_nums the size of the batch, as it is initialised, the loop goes on
      exactly as long as some row does. */
  lemma GoesOnWithTheLast(rows: seq<Row>, c: Settings)
    requires c.stopNums == |rows|
    ensures NotNeedStop(rows, c) <==> exists b :: 0 <= b < |rows| && !rows[b].stopped
  {
    AllStopped(Flags(rows));
    assert forall b :: 0 <= b < |rows| ==> Flags(rows)[b] == rows[b].stopped;
  }
}
