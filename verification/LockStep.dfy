/** The whole of cache_transfer_manager.py on n ranks: the main loops, which feed
    two pools of workers, one for each direction of transfer. */
module LockStep {
  import opened Barriers
  import opened LockStepLoop
  import opened LockStepPool

  datatype System = System(loop: State, cpu: Pool, gpu: Pool)

  /** The tasks of one direction, in order. */
  function OfDirection(tasks: seq<Task>, toCpu: bool): seq<Task> {
    if tasks == [] then []
    else
      var last := tasks[|tasks| - 1];
      OfDirection(tasks[..|tasks| - 1], toCpu) + if last.toCpu == toCpu then [last] else []
  }

  /** The tasks of part are members of all, in the order they have there. */
  ghost predicate InTheOrderOf(part: seq<Task>, all: seq<Task>) {
    exists at: seq<nat> :: Places(at, part, all)
  }

  ghost predicate Places(at: seq<nat>, part: seq<Task>, all: seq<Task>) {
    |at| == |part| && (forall j :: 0 <= j < |at| ==> at[j] < |all| && part[j] == all[at[j]]) &&
    forall i, j :: 0 <= i < j < |at| ==> at[i] < at[j]
  }

  /** Two pools share out the tasks: each gets those of its direction, in order, and
      together they get them all. */
  ghost predicate SharedOut(all: seq<Task>, cpu: seq<Task>, gpu: seq<Task>) {
    multiset(cpu) + multiset(gpu) == multiset(all) &&
    (forall t :: t in cpu ==> t.toCpu) && (forall t :: t in gpu ==> !t.toCpu) &&
    InTheOrderOf(cpu, all) && InTheOrderOf(gpu, all)
  }

  lemma {:induction false} DirectionsShare(tasks: seq<Task>)
    ensures SharedOut(tasks, OfDirection(tasks, true), OfDirection(tasks, false))
  {
    if tasks == [] {
      assert Places([], [], tasks);
    } else {
      var n := |tasks| - 1;
      var last := tasks[n];
      DirectionsShare(tasks[..n]);
      assert tasks == tasks[..n] + [last];
      OneMorePlace(OfDirection(tasks[..n], true), tasks[..n], last);
      OneMorePlace(OfDirection(tasks[..n], false), tasks[..n], last);
      assert OfDirection(tasks[..n], true) + [] == OfDirection(tasks[..n], true);
      assert OfDirection(tasks[..n], false) + [] == OfDirection(tasks[..n], false);
    }
  }

  lemma OneMorePlace(part: seq<Task>, all: seq<Task>, last: Task)
    requires InTheOrderOf(part, all)
    ensures InTheOrderOf(part, all + [last]) && InTheOrderOf(part + [last], all + [last])
  {
    var at: seq<nat> :| Places(at, part, all);
    assert Places(at, part, all + [last]);
    assert Places(at + [|all|], part + [last], all + [last]);
  }

  /** What the main loops have submitted to the pools of one direction. */
  function Submitted(given: seq<seq<Task>>, toCpu: bool): (f: seq<seq<Task>>)
    ensures |f| == |given| && forall r :: 0 <= r < |f| ==> f[r] == OfDirection(given[r], toCpu)
  {
    seq(|given|, r requires 0 <= r < |given| => OfDirection(given[r], toCpu))
  }

  ghost predicate SystemInit(s: System, n: nat) {
    Init(s.loop, n) && PoolInit(s.cpu, n) && PoolInit(s.gpu, n)
  }

  /** Some worker of the pool takes a step. */
  ghost predicate WorkStep(p: Pool, q: Pool, submitted: seq<seq<Task>>, n: nat) {
    Sized(p, submitted, n) && exists r: nat :: r < n && Ready(p, submitted, r, n) && q == Work(p, submitted, r, n)
  }

  /** One step of one thread: a main loop, or a worker. */
  ghost predicate SystemNext(s: System, t: System, n: nat) {
    (Next(s.loop, t.loop, n) && t.cpu == s.cpu && t.gpu == s.gpu) ||
    (t.loop == s.loop && t.gpu == s.gpu && WorkStep(s.cpu, t.cpu, Submitted(s.loop.given, true), n)) ||
    (t.loop == s.loop && t.cpu == s.cpu && WorkStep(s.gpu, t.gpu, Submitted(s.loop.given, false), n))
  }

  ghost predicate IsRun(run: seq<System>, n: nat) {
    |run| >= 1 && SystemInit(run[0], n) && forall i :: 0 < i < |run| ==> SystemNext(run[i - 1], run[i], n)
  }

  /** A pool in step with what was submitted to it. */
  ghost predicate InStep(p: Pool, submitted: seq<seq<Task>>, n: nat) {
    PoolInv(p, submitted, n) && History(p, submitted, n)
  }

  ghost predicate SystemInv(s: System, n: nat) {
    Inv(s.loop, n) && InStep(s.cpu, Submitted(s.loop.given, true), n) &&
    InStep(s.gpu, Submitted(s.loop.given, false), n)
  }

  // ---------- submissions ----------

  lemma {:induction false} DirectionPrefix(a: seq<Task>, b: seq<Task>, toCpu: bool)
    requires a <= b
    ensures OfDirection(a, toCpu) <= OfDirection(b, toCpu)
  {
    if |a| < |b| {
      DirectionPrefix(a, b[..|b| - 1], toCpu);
    } else {
      assert a == b;
    }
  }

  /** What the ranks have submitted to the pools of one direction agrees. */
  lemma SubmittedAgree(s: State, n: nat, toCpu: bool)
    requires Inv(s, n)
    ensures |s.given| == n && Agree(Submitted(s.given, toCpu))
  {
    var f := Submitted(s.given, toCpu);
    forall r, q, i | 0 <= r < |f| && 0 <= q < |f| && 0 <= i < |f[r]| && i < |f[q]| ensures f[r][i] == f[q][i] {
      GivenAgree(s, n, r, q);
      if s.given[r] <= s.given[q] {
        DirectionPrefix(s.given[r], s.given[q], toCpu);
      } else {
        DirectionPrefix(s.given[q], s.given[r], toCpu);
      }
    }
  }

  /** A step of a main loop submits at most one task, on its own rank, and is no put. */
  lemma ActGives(s: State, r: nat, n: nat)
    requires r < |s.pcs| == |s.given| && |s.barriers| == 3 && Enabled(s, r)
    ensures |Act(s, r, n).given| == |s.given| && Act(s, r, n).puts == s.puts
    ensures forall q :: 0 <= q < |s.given| ==> s.given[q] <= Act(s, r, n).given[q]
  {
    hide Arrive, Leave, Reset, Completes, Ranks;
    match s.pcs[r]
    case Top =>
    case AtB(i) =>
    case InB(i) =>
    case ResetB(i) =>
    case Read =>
    case Get =>
    case Clear(task) =>
    case Submit(task) =>
    case Failed =>
  }

  /** What has been submitted only grows. */
  lemma GivenGrows(s: State, t: State, n: nat)
    requires Inv(s, n) && Next(s, t, n)
    ensures |t.given| == n && forall r :: 0 <= r < n ==> s.given[r] <= t.given[r]
  {
    hide Inv, Act, Enabled;
    Sizes(s, n);
    if task :| Put(s, t, task) {
    } else {
      var r: nat :| r < |s.pcs| == |s.given| && |s.barriers| == 3 && Enabled(s, r) && t == Act(s, r, n);
      ActGives(s, r, n);
    }
  }

  // ---------- the invariant ----------

  lemma SystemInitHolds(s: System, n: nat)
    requires SystemInit(s, n)
    ensures SystemInv(s, n)
  {
    InitHolds(s.loop, n);
    SubmittedAgree(s.loop, n, true);
    SubmittedAgree(s.loop, n, false);
    PoolInitHolds(s.cpu, Submitted(s.loop.given, true), n);
    PoolInitHolds(s.gpu, Submitted(s.loop.given, false), n);
    HistoryStarts(s.cpu, Submitted(s.loop.given, true), n);
    HistoryStarts(s.gpu, Submitted(s.loop.given, false), n);
  }

  lemma LoopKeepsPool(s: State, t: State, p: Pool, n: nat, toCpu: bool)
    requires Inv(s, n) && Next(s, t, n) && !t.puts.overtaken && InStep(p, Submitted(s.given, toCpu), n)
    ensures InStep(p, Submitted(t.given, toCpu), n)
  {
    hide Inv, Next, PoolInv, History;
    NextKeeps(s, t, n);
    GivenGrows(s, t, n);
    SubmittedAgree(s, n, toCpu);
    SubmittedAgree(t, n, toCpu);
    var before, after := Submitted(s.given, toCpu), Submitted(t.given, toCpu);
    forall r | 0 <= r < n ensures before[r] <= after[r] {
      DirectionPrefix(s.given[r], t.given[r], toCpu);
    }
    MoreTasks(p, before, after, n);
    HistoryGrows(p, before, after, n);
  }

  lemma WorkStepKeeps(p: Pool, q: Pool, submitted: seq<seq<Task>>, n: nat)
    requires InStep(p, submitted, n) && WorkStep(p, q, submitted, n)
    ensures InStep(q, submitted, n)
  {
    hide PoolInv, History, Work, Ready;
    var r: nat :| r < n && Ready(p, submitted, r, n) && q == Work(p, submitted, r, n);
    WorkKeeps(p, submitted, r, n);
    HistoryKeeps(p, submitted, r, n);
  }

  lemma SystemNextKeeps(s: System, t: System, n: nat)
    requires SystemInv(s, n) && SystemNext(s, t, n) && !t.loop.puts.overtaken
    ensures SystemInv(t, n)
  {
    hide Inv, Next, InStep, WorkStep, Submitted;
    if Next(s.loop, t.loop, n) && t.cpu == s.cpu && t.gpu == s.gpu {
      NextKeeps(s.loop, t.loop, n);
      LoopKeepsPool(s.loop, t.loop, s.cpu, n, true);
      LoopKeepsPool(s.loop, t.loop, s.gpu, n, false);
    } else if t.gpu == s.gpu && WorkStep(s.cpu, t.cpu, Submitted(s.loop.given, true), n) {
      WorkStepKeeps(s.cpu, t.cpu, Submitted(s.loop.given, true), n);
    } else {
      WorkStepKeeps(s.gpu, t.gpu, Submitted(s.loop.given, false), n);
    }
  }

  /** That a task was appended while another was being read is never forgotten. */
  lemma StaysOvertaken(s: System, t: System, n: nat)
    requires SystemNext(s, t, n) && s.loop.puts.overtaken
    ensures t.loop.puts.overtaken
  {
    hide Act, Enabled, WorkStep;
    if r: nat :| r < |s.loop.pcs| == |s.loop.given| && |s.loop.barriers| == 3 && Enabled(s.loop, r) &&
                 t.loop == Act(s.loop, r, n) {
      ActGives(s.loop, r, n);
    }
  }

  lemma {:induction false} RunKeeps(run: seq<System>, n: nat, i: nat)
    requires IsRun(run, n) && i < |run| && !run[i].loop.puts.overtaken
    ensures SystemInv(run[i], n)
  {
    hide SystemInv, SystemInit, SystemNext;
    if i == 0 {
      SystemInitHolds(run[0], n);
    } else {
      if run[i - 1].loop.puts.overtaken {
        StaysOvertaken(run[i - 1], run[i], n);
      }
      RunKeeps(run, n, i - 1);
      SystemNextKeeps(run[i - 1], run[i], n);
    }
  }

  // ---------- what holds in every run ----------

  /** No reset ever breaks one of the seven barriers, and no rank that saw the
      signal ever finds no task. */
  lemma NoBarrierBreaks(run: seq<System>, n: nat, i: nat)
    requires IsRun(run, n) && i < |run| && !run[i].loop.puts.overtaken
    ensures |run[i].loop.barriers| == 3 && |run[i].loop.pcs| == n
    ensures forall b :: 0 <= b < 3 ==> !run[i].loop.barriers[b].broken
    ensures !run[i].cpu.bar1.broken && !run[i].cpu.bar2.broken && !run[i].gpu.bar1.broken && !run[i].gpu.bar2.broken
    ensures forall r :: 0 <= r < n ==> run[i].loop.pcs[r] != Failed
  {
    hide SystemInit, SystemNext, WorkerOk, History, RoundsDone, SignalsFollow, Agree, InPhase;
    hide Placed, Accounted, Submitted;
    RunKeeps(run, n, i);
    NothingBreaks(run[i].loop, n);
  }

  /** In a round all ranks take the same branch and read the same task, and what
      they have taken since the start differs only in how far each has got. */
  lemma LoopsInStep(run: seq<System>, n: nat, i: nat, r: nat, q: nat)
    requires IsRun(run, n) && i < |run| && !run[i].loop.puts.overtaken && r < n && q < n
    ensures |run[i].loop.barriers| == 3 && |run[i].loop.pcs| == |run[i].loop.given| == n
    ensures !(TookBranch(run[i].loop, r) && SkippedBranch(run[i].loop, q))
    ensures Holding(run[i].loop.pcs[r]) != [] && Holding(run[i].loop.pcs[q]) != [] ==>
              run[i].loop.pcs[r].task == run[i].loop.pcs[q].task
    ensures run[i].loop.given[r] <= run[i].loop.given[q] || run[i].loop.given[q] <= run[i].loop.given[r]
  {
    hide SystemInit, SystemNext, InStep, InPhase, Placed, Accounted;
    RunKeeps(run, n, i);
    SameBranch(run[i].loop, n, r, q);
    if Holding(run[i].loop.pcs[r]) != [] && Holding(run[i].loop.pcs[q]) != [] {
      SameTask(run[i].loop, n, r, q);
    }
    GivenAgree(run[i].loop, n, r, q);
  }

  /** One pool: the ranks transfer the same tasks in the same order, never more
      than one transfer apart; the done signals come in that order too, and none
      before every rank has transferred the task. */
  ghost predicate PoolsAgree(p: Pool, n: nat) {
    (forall r, q :: 0 <= r < n && 0 <= q < n ==> SameSequence(TransfersOf(p.log, r), TransfersOf(p.log, q))) &&
    (forall r :: 0 <= r < n ==> SignalsOf(p.log) <= TransfersOf(p.log, r)) &&
    SignalsFollow(p.log, n)
  }

  ghost predicate SameSequence(a: seq<Task>, b: seq<Task>) {
    (a <= b && |b| <= |a| + 1) || (b <= a && |a| <= |b| + 1)
  }

  lemma InStepAgrees(p: Pool, submitted: seq<seq<Task>>, n: nat)
    requires InStep(p, submitted, n)
    ensures PoolsAgree(p, n)
  {
    hide WorkerOk, RoundsDone, SignalsFollow;
    forall r, q | 0 <= r < n && 0 <= q < n
      ensures SameSequence(TransfersOf(p.log, r), TransfersOf(p.log, q))
    {
      assert InOrder(p, submitted, r, n) && InOrder(p, submitted, q, n);
      CloseTogether(p, submitted, n, r);
      CloseTogether(p, submitted, n, q);
    }
    forall r | 0 <= r < n ensures SignalsOf(p.log) <= TransfersOf(p.log, r) {
      assert InOrder(p, submitted, r, n);
      CloseTogether(p, submitted, n, r);
      CloseTogether(p, submitted, n, 0);
    }
  }

  lemma TransfersInStep(run: seq<System>, n: nat, i: nat)
    requires IsRun(run, n) && i < |run| && !run[i].loop.puts.overtaken
    ensures PoolsAgree(run[i].cpu, n) && PoolsAgree(run[i].gpu, n)
  {
    hide SystemInit, SystemNext, InStep, Inv, PoolsAgree;
    RunKeeps(run, n, i);
    InStepAgrees(run[i].cpu, Submitted(run[i].loop.given, true), n);
    InStepAgrees(run[i].gpu, Submitted(run[i].loop.given, false), n);
  }

  // ---------- what was put is taken ----------

  /** The tasks appended to the queue so far, in order. */
  ghost function Appended(run: seq<System>, i: nat): seq<Task>
    requires i < |run|
  {
    if i == 0 then []
    else Appended(run, i - 1) + Gained(run[i - 1].loop, run[i].loop)
  }

  lemma {:induction false} NothingIsLost(run: seq<System>, n: nat, i: nat)
    requires IsRun(run, n) && i < |run|
    ensures Appended(run, i) == run[i].loop.popped + run[i].loop.queue
  {
    hide Next, WorkStep;
    if i > 0 {
      NothingIsLost(run, n, i - 1);
      if run[i].loop != run[i - 1].loop {
        assert Next(run[i - 1].loop, run[i].loop, n);
        NextQueues(run[i - 1].loop, run[i].loop, n);
      }
    }
  }

  lemma {:induction false} AppendedGrows(run: seq<System>, i: nat, j: nat)
    requires i <= j < |run|
    ensures Appended(run, i) <= Appended(run, j)
    decreases j
  {
    if i < j {
      AppendedGrows(run, i, j - 1);
    }
  }

  /** Every rank is given the tasks that were put, in order and none twice; between the
      rounds, with an empty queue, it has been given them all. */
  lemma TakenInOrder(run: seq<System>, n: nat, i: nat, r: nat)
    requires IsRun(run, n) && i < |run| && !run[i].loop.puts.overtaken && r < n
    ensures |run[i].loop.given| == n && run[i].loop.given[r] <= Appended(run, i)
    ensures !run[i].loop.side && run[i].loop.queue == [] ==> run[i].loop.given[r] == Appended(run, i)
  {
    hide SystemInit, SystemNext, InStep, InPhase, Placed;
    RunKeeps(run, n, i);
    NothingIsLost(run, n, i);
    var s := run[i].loop;
    assert Accounted(s, r);
    var common := s.popped + (if s.queue == [] then [] else [s.queue[0]]);
    assert s.given[r] <= s.given[r] + Holding(s.pcs[r]) <= common <= s.popped + s.queue;
    if !s.side {
      BetweenRounds(s, n, r);
    }
  }

  lemma {:induction false} StaysPending(run: seq<System>, n: nat, i: nat, j: nat, p: nat)
    requires IsRun(run, n) && i <= j < |run| && !run[j].loop.puts.overtaken
    ensures !run[i].loop.puts.overtaken && |run[i].loop.pcs| == |run[j].loop.pcs| == n >= 1
    ensures Pending(run[i].loop, p) ==> Pending(run[j].loop, p)
    ensures Taking(run[i].loop, p) ==> Taking(run[j].loop, p)
    decreases j
  {
    hide SystemInit, Next, WorkStep, Pending, Taking, InStep, Inv;
    if i == j {
      RunKeeps(run, n, i);
      Sizes(run[i].loop, n);
      AtLeastOne(run[i].loop, n);
    } else {
      if run[j - 1].loop.puts.overtaken {
        StaysOvertaken(run[j - 1], run[j], n);
      }
      StaysPending(run, n, i, j - 1, p);
      RunKeeps(run, n, j - 1);
      if run[j].loop != run[j - 1].loop {
        NextPends(run[j - 1].loop, run[j].loop, n, p);
      }
    }
  }

  lemma AtLeastOne(s: State, n: nat)
    requires Inv(s, n)
    ensures n >= 1
  {}

  /** No task is passed over: if there is one when rank 0 looks, then by the end of the
      round that follows every rank has been given it. */
  lemma RoundTakesTask(run: seq<System>, n: nat, i: nat, k: nat, j: nat, r: nat)
    requires IsRun(run, n) && i <= k <= j < |run| && !run[j].loop.puts.overtaken && r < n
    requires |run[i].loop.pcs| > 0 && run[i].loop.pcs[0] == Top && run[i].loop.queue != []
    requires run[k].loop.side && !run[j].loop.side
    ensures |run[j].loop.given| == n
    ensures run[i].loop.popped + [run[i].loop.queue[0]] <= run[j].loop.given[r]
  {
    hide SystemInit, SystemNext, InStep, InPhase, Accounted;
    var p := |run[i].loop.popped|;
    StaysPending(run, n, k, j, p);
    StaysPending(run, n, i, k, p);
    RunKeeps(run, n, i);
    RunKeeps(run, n, j);
    assert Placed(run[i].loop, 0, n);
    BetweenRounds(run[j].loop, n, r);
    NothingIsLost(run, n, i);
    NothingIsLost(run, n, j);
    AppendedGrows(run, i, j);
    FrontOf(run[i].loop.popped, run[i].loop.queue, run[j].loop.popped, run[j].loop.queue);
  }

  lemma FrontOf(popped: seq<Task>, queue: seq<Task>, laterPopped: seq<Task>, laterQueue: seq<Task>)
    requires popped + queue <= laterPopped + laterQueue && queue != [] && |laterPopped| > |popped|
    ensures popped + [queue[0]] <= laterPopped
  {
    var all := laterPopped + laterQueue;
    assert all[..|popped| + |queue|] == popped + queue;
    forall x | 0 <= x < |popped| + 1 ensures laterPopped[x] == (popped + [queue[0]])[x] {
      assert all[x] == (popped + queue)[x];
    }
  }

  // ---------- nothing waits for ever ----------

  /** In every run some main loop can go on. */
  lemma LoopsGoOn(run: seq<System>, n: nat, i: nat)
    requires IsRun(run, n) && i < |run| && !run[i].loop.puts.overtaken
    ensures |run[i].loop.barriers| == 3 && |run[i].loop.pcs| == n
    ensures exists r: nat :: r < n && Enabled(run[i].loop, r)
  {
    hide SystemInit, SystemNext, InStep, Inv;
    RunKeeps(run, n, i);
    SomebodyCanAct(run[i].loop, n);
  }

  /** No worker of the pool can go on. */
  ghost predicate AtRest(p: Pool, submitted: seq<seq<Task>>, n: nat) {
    Sized(p, submitted, n) && forall r: nat :: r < n ==> !Ready(p, submitted, r, n)
  }

  function PoolOf(s: System, toCpu: bool): Pool {
    if toCpu then s.cpu else s.gpu
  }

  /** In every run, when all ranks have taken the same tasks and no worker of a pool can go
      on, every task of that direction has been transferred on every rank, and signalled. */
  lemma PoolFinishes(run: seq<System>, n: nat, i: nat, toCpu: bool, r: nat)
    requires IsRun(run, n) && i < |run| && !run[i].loop.puts.overtaken && r < n
    requires |run[i].loop.given| == n && forall q :: 0 <= q < n ==> run[i].loop.given[q] == run[i].loop.given[0]
    requires AtRest(PoolOf(run[i], toCpu), Submitted(run[i].loop.given, toCpu), n)
    ensures var p, all := PoolOf(run[i], toCpu), OfDirection(run[i].loop.given[0], toCpu);
      TransfersOf(p.log, r) == all && SignalsOf(p.log) == all
  {
    hide SystemInit, SystemNext, Inv, PoolInv;
    RunKeeps(run, n, i);
    RestIsDone(PoolOf(run[i], toCpu), Submitted(run[i].loop.given, toCpu), n, r);
  }

  /** In every run, when all ranks have taken the same tasks and no worker can go on, what
      each rank has transferred in its two pools is together what was taken, each task in the
      pool of its direction and in order; and the same has been signalled. */
  lemma NothingIsLeft(run: seq<System>, n: nat, i: nat, r: nat)
    requires IsRun(run, n) && i < |run| && !run[i].loop.puts.overtaken && r < n
    requires |run[i].loop.given| == n && forall q :: 0 <= q < n ==> run[i].loop.given[q] == run[i].loop.given[0]
    requires AtRest(run[i].cpu, Submitted(run[i].loop.given, true), n)
    requires AtRest(run[i].gpu, Submitted(run[i].loop.given, false), n)
    ensures SharedOut(run[i].loop.given[0], TransfersOf(run[i].cpu.log, r), TransfersOf(run[i].gpu.log, r))
    ensures SharedOut(run[i].loop.given[0], SignalsOf(run[i].cpu.log), SignalsOf(run[i].gpu.log))
  {
    hide SystemInit, SystemNext, OfDirection, AtRest, SharedOut;
    PoolFinishes(run, n, i, true, r);
    PoolFinishes(run, n, i, false, r);
    DirectionsShare(run[i].loop.given[0]);
  }

  lemma RestIsDone(p: Pool, submitted: seq<seq<Task>>, n: nat, r: nat)
    requires InStep(p, submitted, n) && AtRest(p, submitted, n) && r < n
    requires forall q :: 0 <= q < n ==> submitted[q] == submitted[0]
    ensures TransfersOf(p.log, r) == submitted[r] && SignalsOf(p.log) == submitted[0]
  {
    hide WorkerOk, RoundsDone, SignalsFollow, Agree, Ready;
    SomebodyCanWork(p, submitted, n);
    WaitsOrIdle(p, submitted, r, n);
    assert InOrder(p, submitted, r, n) && InOrder(p, submitted, 0, n);
    if p.pcs[r] != Idle {
      BehindSubmitted(p, submitted, n, r);
    }
    assert submitted[r][..|submitted[r]|] == submitted[r] && submitted[0][..|submitted[0]|] == submitted[0];
  }

  lemma BehindSubmitted(p: Pool, submitted: seq<seq<Task>>, n: nat, r: nat)
    requires PoolInv(p, submitted, n) && r < n && p.pcs[r] != Idle
    ensures p.ran[r] < |submitted[r]|
  {
    assert WorkerOk(p, submitted, r, n);
  }
}
