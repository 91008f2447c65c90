/** The single-worker pools of cache_transfer_manager.py for one direction: on
    every rank one worker runs _do_swap_to_cpu_task (or _gpu_) on the submitted
    tasks in order, between two barriers that all ranks share. */
module LockStepPool {
  import opened Barriers
  import opened LockStepLoop

  datatype WorkerPc = Idle | At1 | In1 | Reset1 | Transfer | At2 | In2 | Reset2 | Done

  datatype Event =
    | Transferred(rank: int, index: nat, task: Task)
    | Signalled(number: nat, done: Task)  // put_transfer_done_signal, by rank 0

  /** ran[r] tasks are behind rank r.  side and round are ghost: whether the ranks
      are between the two barriers, and how many tasks all of them have transferred. */
  datatype Pool = Pool(
    pcs: seq<WorkerPc>, bar1: Barrier, bar2: Barrier, ran: seq<nat>, side: bool, round: nat, log: seq<Event>)

  ghost predicate PoolInit(p: Pool, n: nat) {
    n >= 1 && p == Pool(seq(n, _ => Idle), EMPTY, EMPTY, seq(n, _ => 0), false, 0, [])
  }

  predicate Sized(p: Pool, submitted: seq<seq<Task>>, n: nat) {
    n >= 1 && |p.pcs| == |p.ran| == |submitted| == n
  }

  predicate Ready(p: Pool, submitted: seq<seq<Task>>, r: nat, n: nat)
    requires Sized(p, submitted, n) && r < n
  {
    p.ran[r] < |submitted[r]| &&
    match p.pcs[r]
    case At1 => p.bar1.draining == {}
    case In1 => r in p.bar1.draining
    case At2 => p.bar2.draining == {}
    case In2 => r in p.bar2.draining
    case _ => true
  }

  function Work(p: Pool, submitted: seq<seq<Task>>, r: nat, n: nat): Pool
    requires Sized(p, submitted, n) && r < n && Ready(p, submitted, r, n)
  {
    var task := submitted[r][p.ran[r]];
    match p.pcs[r]
    case Idle => p.(pcs := p.pcs[r := At1])
    case At1 =>
      p.(pcs := p.pcs[r := In1], bar1 := Arrive(p.bar1, r, n), side := Completes(p.bar1, r, n) || p.side)
    case In1 => p.(pcs := p.pcs[r := if r == 0 then Reset1 else Transfer], bar1 := Leave(p.bar1, r))
    case Reset1 => p.(pcs := p.pcs[r := Transfer], bar1 := Reset(p.bar1))
    case Transfer => p.(pcs := p.pcs[r := At2], log := p.log + [Transferred(r, p.ran[r], task)])
    case At2 =>
      var u := p.(pcs := p.pcs[r := In2], bar2 := Arrive(p.bar2, r, n));
      if Completes(p.bar2, r, n) then u.(side := false, round := p.round + 1) else u
    case In2 =>
      if r == 0 then p.(pcs := p.pcs[r := Reset2], bar2 := Leave(p.bar2, r))
      else p.(pcs := p.pcs[r := Idle], bar2 := Leave(p.bar2, r), ran := p.ran[r := p.ran[r] + 1])
    case Reset2 => p.(pcs := p.pcs[r := Done], bar2 := Reset(p.bar2))
    case Done =>
      p.(pcs := p.pcs[r := Idle], ran := p.ran[r := p.ran[r] + 1], log := p.log + [Signalled(p.ran[r], task)])
  }

  // ---------- the invariant ----------

  predicate Between(p: Pool, r: nat)
    requires r < |p.pcs|
  {
    match p.pcs[r]
    case In1 => r in p.bar1.draining
    case Reset1 => true
    case Transfer => true
    case At2 => true
    case In2 => r !in p.bar2.draining
    case _ => false
  }

  /** The rank has been released from the second barrier but is not through. */
  predicate Finishing(p: Pool, r: nat)
    requires r < |p.pcs|
  {
    (p.pcs[r] == In2 && r in p.bar2.draining) || p.pcs[r] == Reset2 || p.pcs[r] == Done
  }

  ghost predicate HasTransferred(p: Pool, submitted: seq<seq<Task>>, r: nat, i: nat)
    requires r < |submitted|
  {
    i < |submitted[r]| && Transferred(r, i, submitted[r][i]) in p.log
  }

  ghost predicate WorkerOk(p: Pool, submitted: seq<seq<Task>>, r: nat, n: nat)
    requires Sized(p, submitted, n) && r < n
  {
    var pc := p.pcs[r];
    Between(p, r) == p.side &&
    (pc == In1 <==> r in p.bar1.filling || r in p.bar1.draining) &&
    (pc == In2 <==> r in p.bar2.filling || r in p.bar2.draining) &&
    (pc == Reset1 || pc == Reset2 || pc == Done ==> r == 0) &&
    (pc != Idle ==> p.ran[r] < |submitted[r]|) &&
    p.round == (if Finishing(p, r) then p.ran[r] + 1 else p.ran[r]) &&
    (pc == At2 || pc == In2 ==> HasTransferred(p, submitted, r, p.ran[r]))
  }

  /** Up to the round, every rank has transferred every task. */
  ghost predicate RoundsDone(p: Pool, submitted: seq<seq<Task>>, n: nat)
    requires |submitted| == n
  {
    forall i, r :: 0 <= i < p.round && 0 <= r < n ==> HasTransferred(p, submitted, r, i)
  }

  /** A done signal for a task follows its transfer on every rank. */
  ghost predicate SignalsFollow(log: seq<Event>, n: nat) {
    forall k, r :: 0 <= k < |log| && log[k].Signalled? && 0 <= r < n ==>
      Transferred(r, log[k].number, log[k].done) in log[..k]
  }

  /** Two ranks that both have an i-th task have the same one. */
  ghost predicate Agree(submitted: seq<seq<Task>>) {
    forall r, q, i :: 0 <= r < |submitted| && 0 <= q < |submitted| && 0 <= i < |submitted[r]| && i < |submitted[q]| ==>
      submitted[r][i] == submitted[q][i]
  }

  ghost predicate PoolInv(p: Pool, submitted: seq<seq<Task>>, n: nat) {
    Sized(p, submitted, n) && Agree(submitted) && Sound(p.bar1, n) && Sound(p.bar2, n) &&
    (forall r :: 0 <= r < n ==> WorkerOk(p, submitted, r, n)) &&
    RoundsDone(p, submitted, n) && SignalsFollow(p.log, n)
  }

  lemma PoolInitHolds(p: Pool, submitted: seq<seq<Task>>, n: nat)
    requires PoolInit(p, n) && |submitted| == n && Agree(submitted)
    ensures PoolInv(p, submitted, n)
  {
    assert 0 in Ranks(n);
  }

  /** New submissions on some rank leave the workers where they are. */
  lemma MoreTasks(p: Pool, submitted: seq<seq<Task>>, more: seq<seq<Task>>, n: nat)
    requires PoolInv(p, submitted, n) && |more| == n && Agree(more)
    requires forall r :: 0 <= r < n ==> submitted[r] <= more[r]
    ensures PoolInv(p, more, n)
  {
    forall i, r | 0 <= i < p.round && 0 <= r < n ensures HasTransferred(p, more, r, i) {
      assert HasTransferred(p, submitted, r, i) && submitted[r] <= more[r];
    }
    forall r | 0 <= r < n ensures WorkerOk(p, more, r, n) {
      assert WorkerOk(p, submitted, r, n) && submitted[r] <= more[r];
    }
  }

  lemma SameLog(p: Pool, q: Pool, submitted: seq<seq<Task>>, n: nat)
    requires |submitted| == n && RoundsDone(p, submitted, n) && q.log == p.log && q.round == p.round
    ensures RoundsDone(q, submitted, n)
  {
    forall i, r | 0 <= i < q.round && 0 <= r < n ensures HasTransferred(q, submitted, r, i) {
      assert HasTransferred(p, submitted, r, i);
    }
  }

  /** The steps that neither open a barrier nor log anything. */
  lemma QuietKeeps(p: Pool, submitted: seq<seq<Task>>, r: nat, n: nat)
    requires PoolInv(p, submitted, n) && r < n && Ready(p, submitted, r, n)
    requires p.pcs[r] == Idle || p.pcs[r] == In1 || p.pcs[r] == In2
    ensures PoolInv(Work(p, submitted, r, n), submitted, n)
  {
    hide SignalsFollow, Agree, RoundsDone;
    var t := Work(p, submitted, r, n);
    SameLog(p, t, submitted, n);
    forall q | 0 <= q < n ensures WorkerOk(t, submitted, q, n) {
      assert WorkerOk(p, submitted, q, n) && WorkerOk(p, submitted, r, n);
    }
  }

  lemma ResetsKeep(p: Pool, submitted: seq<seq<Task>>, r: nat, n: nat)
    requires PoolInv(p, submitted, n) && r < n && Ready(p, submitted, r, n)
    requires p.pcs[r] == Reset1 || p.pcs[r] == Reset2
    ensures PoolInv(Work(p, submitted, r, n), submitted, n)
  {
    hide SignalsFollow, Agree, RoundsDone;
    var t := Work(p, submitted, r, n);
    SameLog(p, t, submitted, n);
    NobodyInside(p, submitted, r, n);
    forall q | 0 <= q < n ensures WorkerOk(t, submitted, q, n) {
      assert WorkerOk(p, submitted, q, n);
    }
  }

  /** Rank 0 resets a swap barrier only when nobody waits to get in. */
  lemma NobodyInside(p: Pool, submitted: seq<seq<Task>>, r: nat, n: nat)
    requires PoolInv(p, submitted, n) && r < n && (p.pcs[r] == Reset1 || p.pcs[r] == Reset2)
    ensures p.pcs[r] == Reset1 ==> p.bar1.filling == {}
    ensures p.pcs[r] == Reset2 ==> p.bar2.filling == {}
  {
    assert WorkerOk(p, submitted, r, n);
    forall q | 0 <= q < n
      ensures (p.pcs[r] == Reset1 ==> q !in p.bar1.filling) && (p.pcs[r] == Reset2 ==> q !in p.bar2.filling)
    {
      assert WorkerOk(p, submitted, q, n);
    }
    assert p.bar1.filling <= Ranks(n) && p.bar2.filling <= Ranks(n);
  }

  lemma At1Keeps(p: Pool, submitted: seq<seq<Task>>, r: nat, n: nat)
    requires PoolInv(p, submitted, n) && r < n && Ready(p, submitted, r, n) && p.pcs[r] == At1
    ensures PoolInv(Work(p, submitted, r, n), submitted, n)
  {
    hide SignalsFollow, Agree, RoundsDone;
    var t := Work(p, submitted, r, n);
    SameLog(p, t, submitted, n);
    assert 0 in Ranks(n) && r in Ranks(n);
    forall q | 0 <= q < n ensures WorkerOk(t, submitted, q, n) {
      assert WorkerOk(p, submitted, q, n) && WorkerOk(p, submitted, r, n);
      if Completes(p.bar1, r, n) {
        assert q in p.bar1.filling + {r};
      }
    }
  }

  lemma At2Waits(p: Pool, submitted: seq<seq<Task>>, r: nat, n: nat)
    requires PoolInv(p, submitted, n) && r < n && Ready(p, submitted, r, n) && p.pcs[r] == At2 &&
             !Completes(p.bar2, r, n)
    ensures PoolInv(Work(p, submitted, r, n), submitted, n)
  {
    hide SignalsFollow, Agree, RoundsDone;
    var t := Work(p, submitted, r, n);
    SameLog(p, t, submitted, n);
    assert r in Ranks(n);
    forall q | 0 <= q < n ensures WorkerOk(t, submitted, q, n) {
      assert WorkerOk(p, submitted, q, n) && WorkerOk(p, submitted, r, n);
    }
  }

  /** The second barrier opens: everybody has transferred the task of the round. */
  lemma At2Opens(p: Pool, submitted: seq<seq<Task>>, r: nat, n: nat)
    requires PoolInv(p, submitted, n) && r < n && Ready(p, submitted, r, n) && p.pcs[r] == At2 &&
             Completes(p.bar2, r, n)
    ensures PoolInv(Work(p, submitted, r, n), submitted, n)
  {
    hide SignalsFollow, Agree;
    var t := Work(p, submitted, r, n);
    assert 0 in Ranks(n) && r in Ranks(n);
    assert WorkerOk(p, submitted, r, n);
    forall q | 0 <= q < n ensures WorkerOk(t, submitted, q, n) && HasTransferred(t, submitted, q, p.round) {
      assert WorkerOk(p, submitted, q, n);
      assert q in p.bar2.filling + {r};
    }
    forall i, q | 0 <= i < t.round && 0 <= q < n ensures HasTransferred(t, submitted, q, i) {
      if i < p.round {
        assert HasTransferred(p, submitted, q, i);
      }
    }
  }

  lemma TransferKeeps(p: Pool, submitted: seq<seq<Task>>, r: nat, n: nat)
    requires PoolInv(p, submitted, n) && r < n && Ready(p, submitted, r, n) && p.pcs[r] == Transfer
    ensures PoolInv(Work(p, submitted, r, n), submitted, n)
  {
    hide Agree;
    var t := Work(p, submitted, r, n);
    LogsMore(p, t, submitted, n);
    assert t.log[|p.log|] == Transferred(r, p.ran[r], submitted[r][p.ran[r]]);
    forall q | 0 <= q < n ensures WorkerOk(t, submitted, q, n) {
      assert WorkerOk(p, submitted, q, n) && WorkerOk(p, submitted, r, n);
    }
    forall k, q | 0 <= k < |t.log| && t.log[k].Signalled? && 0 <= q < n
      ensures Transferred(q, t.log[k].number, t.log[k].done) in t.log[..k]
    {
      assert t.log[..k] == p.log[..k];
    }
  }

  lemma LogsMore(p: Pool, t: Pool, submitted: seq<seq<Task>>, n: nat)
    requires |submitted| == n && RoundsDone(p, submitted, n) && p.log <= t.log && t.round == p.round
    ensures RoundsDone(t, submitted, n)
    ensures forall r, i :: 0 <= r < n && 0 <= i && HasTransferred(p, submitted, r, i) ==>
      HasTransferred(t, submitted, r, i)
  {
    forall e | e in p.log ensures e in t.log {
      var k :| 0 <= k < |p.log| && p.log[k] == e;
      assert t.log[k] == e;
    }
    forall i, r | 0 <= i < t.round && 0 <= r < n ensures HasTransferred(t, submitted, r, i) {
      assert HasTransferred(p, submitted, r, i);
    }
  }

  lemma DoneKeeps(p: Pool, submitted: seq<seq<Task>>, r: nat, n: nat)
    requires PoolInv(p, submitted, n) && r < n && Ready(p, submitted, r, n) && p.pcs[r] == Done
    ensures PoolInv(Work(p, submitted, r, n), submitted, n)
  {
    var t := Work(p, submitted, r, n);
    LogsMore(p, t, submitted, n);
    assert WorkerOk(p, submitted, r, n);
    forall q | 0 <= q < n ensures WorkerOk(t, submitted, q, n) {
      assert WorkerOk(p, submitted, q, n);
    }
    forall k, q | 0 <= k < |t.log| && t.log[k].Signalled? && 0 <= q < n
      ensures Transferred(q, t.log[k].number, t.log[k].done) in t.log[..k]
    {
      assert t.log[..k] == p.log[..k];
      if k == |p.log| {
        assert p.log[..k] == p.log;
        assert HasTransferred(p, submitted, q, p.ran[r]);
      }
    }
  }

  lemma PoolSized(p: Pool, submitted: seq<seq<Task>>, n: nat)
    requires PoolInv(p, submitted, n)
    ensures Sized(p, submitted, n)
  {}

  lemma WorkKeeps(p: Pool, submitted: seq<seq<Task>>, r: nat, n: nat)
    requires PoolInv(p, submitted, n) && r < n && Ready(p, submitted, r, n)
    ensures PoolInv(Work(p, submitted, r, n), submitted, n)
  {
    hide PoolInv, Work;
    PoolSized(p, submitted, n);
    match p.pcs[r]
    case Idle => QuietKeeps(p, submitted, r, n);
    case In1 => QuietKeeps(p, submitted, r, n);
    case In2 => QuietKeeps(p, submitted, r, n);
    case Reset1 => ResetsKeep(p, submitted, r, n);
    case Reset2 => ResetsKeep(p, submitted, r, n);
    case At1 => At1Keeps(p, submitted, r, n);
    case At2 =>
      if Completes(p.bar2, r, n) {
        At2Opens(p, submitted, r, n);
      } else {
        At2Waits(p, submitted, r, n);
      }
    case Transfer => TransferKeeps(p, submitted, r, n);
    case Done => DoneKeeps(p, submitted, r, n);
  }

  // ---------- what the invariant means ----------

  /** All ranks that are between the barriers work on the same task. */
  lemma SameTransfer(p: Pool, submitted: seq<seq<Task>>, n: nat, r: nat, q: nat)
    requires PoolInv(p, submitted, n) && r < n && q < n && Between(p, r) && Between(p, q)
    ensures p.ran[r] == p.ran[q] && p.ran[r] < |submitted[r]| && p.ran[q] < |submitted[q]|
    ensures submitted[r][p.ran[r]] == submitted[q][p.ran[q]]
  {
    assert WorkerOk(p, submitted, r, n) && WorkerOk(p, submitted, q, n);
  }

  // ---------- in which order the tasks are transferred and signalled ----------

  /** The tasks rank r has transferred, in the order of the log. */
  function TransfersOf(log: seq<Event>, r: int): seq<Task> {
    if log == [] then []
    else
      var e := log[|log| - 1];
      TransfersOf(log[..|log| - 1], r) + if e.Transferred? && e.rank == r then [e.task] else []
  }

  /** The tasks that have been signalled as done, in the order of the log. */
  function SignalsOf(log: seq<Event>): seq<Task> {
    if log == [] then []
    else
      var e := log[|log| - 1];
      SignalsOf(log[..|log| - 1]) + if e.Signalled? then [e.done] else []
  }

  /** How many tasks rank r has transferred. */
  function Transfers(p: Pool, r: nat): nat
    requires r < |p.pcs| == |p.ran|
  {
    var pc := p.pcs[r];
    if pc == At2 || pc == In2 || pc == Reset2 || pc == Done then p.ran[r] + 1 else p.ran[r]
  }

  /** The log, seen from one rank, is a beginning of what was submitted there. */
  ghost predicate InOrder(p: Pool, submitted: seq<seq<Task>>, r: nat, n: nat)
    requires Sized(p, submitted, n) && r < n
  {
    Transfers(p, r) <= |submitted[r]| && TransfersOf(p.log, r) == submitted[r][..Transfers(p, r)]
  }

  ghost predicate History(p: Pool, submitted: seq<seq<Task>>, n: nat) {
    Sized(p, submitted, n) && (forall r :: 0 <= r < n ==> InOrder(p, submitted, r, n)) &&
    p.ran[0] <= |submitted[0]| && SignalsOf(p.log) == submitted[0][..p.ran[0]]
  }

  lemma HistoryStarts(p: Pool, submitted: seq<seq<Task>>, n: nat)
    requires PoolInit(p, n) && |submitted| == n
    ensures History(p, submitted, n)
  {
    forall r | 0 <= r < n ensures InOrder(p, submitted, r, n) {}
  }

  lemma HistoryGrows(p: Pool, submitted: seq<seq<Task>>, more: seq<seq<Task>>, n: nat)
    requires History(p, submitted, n) && |more| == n
    requires forall r :: 0 <= r < n ==> submitted[r] <= more[r]
    ensures History(p, more, n)
  {
    forall r | 0 <= r < n ensures InOrder(p, more, r, n) {
      assert InOrder(p, submitted, r, n) && submitted[r] <= more[r];
      assert more[r][..Transfers(p, r)] == submitted[r][..Transfers(p, r)];
    }
    assert InOrder(p, submitted, 0, n) && submitted[0] <= more[0];
    assert more[0][..p.ran[0]] == submitted[0][..p.ran[0]];
  }

  /** What a step of a worker adds to the log, and to the count of transfers. */
  lemma WorkLogs(p: Pool, submitted: seq<seq<Task>>, r: nat, n: nat)
    requires Sized(p, submitted, n) && r < n && Ready(p, submitted, r, n) && (p.pcs[r] == Done ==> r == 0)
    ensures var t, task := Work(p, submitted, r, n), submitted[r][p.ran[r]];
      Sized(t, submitted, n) &&
      t.log == p.log + (if p.pcs[r] == Transfer then [Transferred(r, p.ran[r], task)]
                        else if p.pcs[r] == Done then [Signalled(p.ran[r], task)] else []) &&
      (forall q: nat :: q < n ==>
        Transfers(t, q) == Transfers(p, q) + if q == r && p.pcs[r] == Transfer then 1 else 0) &&
      t.ran[0] == p.ran[0] + if p.pcs[r] == Done then 1 else 0
  {
    hide Arrive, Leave, Reset, Completes;
  }

  /** What the log gains when rank r works. */
  ghost function Logged(p: Pool, submitted: seq<seq<Task>>, r: nat, n: nat): seq<Event>
    requires Sized(p, submitted, n) && r < n && Ready(p, submitted, r, n)
  {
    var task := submitted[r][p.ran[r]];
    if p.pcs[r] == Transfer then [Transferred(r, p.ran[r], task)]
    else if p.pcs[r] == Done then [Signalled(p.ran[r], task)] else []
  }

  lemma OrderKeeps(p: Pool, t: Pool, submitted: seq<seq<Task>>, r: nat, q: nat, n: nat)
    requires Sized(p, submitted, n) && Sized(t, submitted, n) && r < n && q < n && Ready(p, submitted, r, n)
    requires t.log == p.log + Logged(p, submitted, r, n) && InOrder(p, submitted, q, n)
    requires Transfers(t, q) == Transfers(p, q) + if q == r && p.pcs[r] == Transfer then 1 else 0
    ensures InOrder(t, submitted, q, n)
  {
    hide Ready;
    ReadyHasTask(p, submitted, r, n);
    if t.log != p.log {
      assert t.log[..|p.log|] == p.log;
    }
  }

  lemma ReadyHasTask(p: Pool, submitted: seq<seq<Task>>, r: nat, n: nat)
    requires Sized(p, submitted, n) && r < n && Ready(p, submitted, r, n)
    ensures p.ran[r] < |submitted[r]|
  {}

  lemma SignalsKeep(p: Pool, t: Pool, submitted: seq<seq<Task>>, r: nat, n: nat)
    requires Sized(p, submitted, n) && Sized(t, submitted, n) && r < n && Ready(p, submitted, r, n)
    requires p.pcs[r] == Done ==> r == 0
    requires t.log == p.log + Logged(p, submitted, r, n)
    requires t.ran[0] == p.ran[0] + if p.pcs[r] == Done then 1 else 0
    requires p.ran[0] <= |submitted[0]| && SignalsOf(p.log) == submitted[0][..p.ran[0]]
    ensures t.ran[0] <= |submitted[0]| && SignalsOf(t.log) == submitted[0][..t.ran[0]]
  {
    hide Ready;
    ReadyHasTask(p, submitted, r, n);
    if t.log != p.log {
      assert t.log[..|p.log|] == p.log;
    }
  }

  lemma HistoryKeeps(p: Pool, submitted: seq<seq<Task>>, r: nat, n: nat)
    requires PoolInv(p, submitted, n) && History(p, submitted, n) && r < n && Ready(p, submitted, r, n)
    ensures History(Work(p, submitted, r, n), submitted, n)
  {
    hide Agree, RoundsDone, SignalsFollow, Work, Between, Finishing, HasTransferred, Sound, Ready, InOrder, Transfers;
    hide TransfersOf, SignalsOf;
    var t := Work(p, submitted, r, n);
    assert WorkerOk(p, submitted, r, n);
    WorkLogs(p, submitted, r, n);
    forall q | 0 <= q < n ensures InOrder(t, submitted, q, n) {
      OrderKeeps(p, t, submitted, r, q, n);
    }
    SignalsKeep(p, t, submitted, r, n);
  }

  /** The ranks are never more than one transfer apart, and no signal is ahead. */
  lemma CloseTogether(p: Pool, submitted: seq<seq<Task>>, n: nat, r: nat)
    requires PoolInv(p, submitted, n) && r < n
    ensures p.round <= Transfers(p, r) <= p.round + 1 && p.round <= p.ran[r] + 1 <= p.round + 1
  {
    assert WorkerOk(p, submitted, r, n);
  }

  /** The workers of a pool only ever wait for a main loop: if none is ready, all are at
      the same task, and some worker has done all that its own main loop submitted. */
  lemma SomebodyCanWork(p: Pool, submitted: seq<seq<Task>>, n: nat)
    requires PoolInv(p, submitted, n) && forall r: nat :: r < n ==> !Ready(p, submitted, r, n)
    ensures forall r: nat :: r < n ==> p.ran[r] == p.round && (p.pcs[r] == Idle || r in p.bar1.filling)
    ensures exists q: nat :: q < n && p.pcs[q] == Idle && |submitted[q]| == p.round
  {
    hide SignalsFollow, Agree;
    forall r: nat | r < n
      ensures p.ran[r] == p.round && (p.pcs[r] == Idle || r in p.bar1.filling)
      ensures p.pcs[r] == Idle ==> |submitted[r]| == p.round
    {
      WaitsOrIdle(p, submitted, r, n);
    }
    assert !(Ranks(n) <= p.bar1.filling);
    var q :| q in Ranks(n) && q !in p.bar1.filling;
    assert p.pcs[q] == Idle;
  }

  lemma WaitsOrIdle(p: Pool, submitted: seq<seq<Task>>, r: nat, n: nat)
    requires PoolInv(p, submitted, n) && r < n && forall q: nat :: q < n ==> !Ready(p, submitted, q, n)
    ensures p.ran[r] == p.round && (p.pcs[r] == Idle || r in p.bar1.filling)
    ensures p.pcs[r] == Idle ==> |submitted[r]| == p.round
  {
    hide SignalsFollow, Agree;
    NoneBetween(p, submitted, n);
    assert WorkerOk(p, submitted, r, n) && !Ready(p, submitted, r, n);
    if p.pcs[r] == Idle && p.round > 0 {
      assert HasTransferred(p, submitted, r, p.round - 1);
    }
  }

  lemma CanLeave(p: Pool, submitted: seq<seq<Task>>, q: int, n: nat)
    requires PoolInv(p, submitted, n) && (q in p.bar1.draining || q in p.bar2.draining)
    ensures 0 <= q < n && Ready(p, submitted, q, n)
  {
    hide SignalsFollow, Agree, RoundsDone;
    assert q in Ranks(n);
    assert WorkerOk(p, submitted, q, n);
  }

  /** If none is ready, no barrier is being left, and nobody is between the two. */
  lemma NoneBetween(p: Pool, submitted: seq<seq<Task>>, n: nat)
    requires PoolInv(p, submitted, n) && forall q: nat :: q < n ==> !Ready(p, submitted, q, n)
    ensures p.bar1.draining == p.bar2.draining == {} && !p.side
  {
    hide SignalsFollow, Agree, RoundsDone;
    forall q | q in p.bar1.draining || q in p.bar2.draining ensures false {
      CanLeave(p, submitted, q, n);
    }
    assert !(Ranks(n) <= p.bar2.filling);
    var q :| q in Ranks(n) && q !in p.bar2.filling;
    assert WorkerOk(p, submitted, q, n) && !Ready(p, submitted, q, n);
  }

  // ---------- the workers come to rest ----------

  /** How far a worker has come with its task. */
  ghost function Reached(pc: WorkerPc): nat {
    match pc
    case Idle => 0
    case At1 => 1
    case In1 => 2
    case Reset1 => 3
    case Transfer => 4
    case At2 => 5
    case In2 => 6
    case Reset2 => 7
    case Done => 8
  }

  /** How far the first m workers have come together, nine steps for a task. */
  ghost function WorkDone(p: Pool, m: nat): nat
    requires m <= |p.pcs| == |p.ran|
  {
    if m == 0 then 0 else WorkDone(p, m - 1) + 9 * p.ran[m - 1] + Reached(p.pcs[m - 1])
  }

  ghost function WorkToDo(submitted: seq<seq<Task>>, m: nat): nat
    requires m <= |submitted|
  {
    if m == 0 then 0 else WorkToDo(submitted, m - 1) + 9 * |submitted[m - 1]|
  }

  /** A step of a worker moves that worker on. */
  lemma WorkAdvances(p: Pool, submitted: seq<seq<Task>>, r: nat, n: nat)
    requires Sized(p, submitted, n) && r < n && Ready(p, submitted, r, n)
    ensures var q := Work(p, submitted, r, n);
      |q.pcs| == |q.ran| == n && 9 * q.ran[r] + Reached(q.pcs[r]) > 9 * p.ran[r] + Reached(p.pcs[r]) &&
      forall o :: 0 <= o < n && o != r ==> q.pcs[o] == p.pcs[o] && q.ran[o] == p.ran[o]
  {
    hide Completes, Arrive, Leave, Reset;
  }

  lemma {:induction false} WorkGrows(p: Pool, q: Pool, r: nat, m: nat)
    requires m <= |p.pcs| == |p.ran| == |q.pcs| == |q.ran| && r < |p.pcs|
    requires 9 * q.ran[r] + Reached(q.pcs[r]) > 9 * p.ran[r] + Reached(p.pcs[r])
    requires forall o :: 0 <= o < |p.pcs| && o != r ==> q.pcs[o] == p.pcs[o] && q.ran[o] == p.ran[o]
    ensures if r < m then WorkDone(q, m) > WorkDone(p, m) else WorkDone(q, m) == WorkDone(p, m)
  {
    if m > 0 {
      WorkGrows(p, q, r, m - 1);
    }
  }

  lemma {:induction false} WorkAtMost(p: Pool, submitted: seq<seq<Task>>, n: nat, m: nat)
    requires PoolInv(p, submitted, n) && History(p, submitted, n) && m <= n
    ensures WorkDone(p, m) <= WorkToDo(submitted, m)
  {
    if m > 0 {
      WorkAtMost(p, submitted, n, m - 1);
      assert WorkerOk(p, submitted, m - 1, n) && InOrder(p, submitted, m - 1, n);
    }
  }

  /** The pools that a schedule of workers leads through, nothing new being submitted. */
  ghost predicate Scheduled(pools: seq<Pool>, ranks: seq<nat>, submitted: seq<seq<Task>>, n: nat) {
    |pools| == |ranks| + 1 && PoolInv(pools[0], submitted, n) && History(pools[0], submitted, n) &&
    forall k :: 0 <= k < |ranks| ==> WorksBy(pools[k], pools[k + 1], ranks[k], submitted, n)
  }

  ghost predicate WorksBy(p: Pool, q: Pool, r: nat, submitted: seq<seq<Task>>, n: nat) {
    Sized(p, submitted, n) && r < n && Ready(p, submitted, r, n) && q == Work(p, submitted, r, n)
  }

  lemma {:induction false} ScheduleWorks(pools: seq<Pool>, ranks: seq<nat>, submitted: seq<seq<Task>>, n: nat, k: nat)
    requires Scheduled(pools, ranks, submitted, n) && k < |pools|
    ensures PoolInv(pools[k], submitted, n) && History(pools[k], submitted, n)
    ensures |pools[k].pcs| == |pools[k].ran| == n && WorkDone(pools[k], n) >= k
  {
    hide PoolInv, History, Work, Reached, Ready;
    if k == 0 {
      SizesOf(pools[0], submitted, n);
    } else {
      ScheduleWorks(pools, ranks, submitted, n, k - 1);
      var p, q, r := pools[k - 1], pools[k], ranks[k - 1];
      assert WorksBy(p, pools[k - 1 + 1], r, submitted, n);
      WorkKeeps(p, submitted, r, n);
      HistoryKeeps(p, submitted, r, n);
      WorkAdvances(p, submitted, r, n);
      WorkGrows(p, q, r, n);
    }
  }

  lemma SizesOf(p: Pool, submitted: seq<seq<Task>>, n: nat)
    requires History(p, submitted, n)
    ensures |p.pcs| == |p.ran| == n
  {}

  /** In whatever order the workers act, after nine steps for each task of each rank at most
      none of them can go on. */
  lemma PoolComesToRest(pools: seq<Pool>, ranks: seq<nat>, submitted: seq<seq<Task>>, n: nat)
    requires Scheduled(pools, ranks, submitted, n)
    ensures |submitted| == n && |ranks| <= WorkToDo(submitted, n)
  {
    ScheduleWorks(pools, ranks, submitted, n, |ranks|);
    WorkAtMost(pools[|ranks|], submitted, n, n);
  }
}
