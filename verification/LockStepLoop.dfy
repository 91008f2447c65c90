/** The main loop of cache_transfer_manager.py on n ranks: rank 0 broadcasts
    whether there is a task, everybody meets at barrier 1, all take the task or
    none does, and everybody meets again at barrier 3 or 2. */
module LockStepLoop {
  import opened Barriers

  datatype Task = Task(toCpu: bool, id: int)

  /** Program counter of one rank.  Barrier i is barriers[i]: 0 is barrier1, 1 is
      barrier2 (no task), 2 is barrier3 (task taken). */
  datatype Pc =
    | Top
    | AtB(i: nat) | InB(i: nat) | ResetB(i: nat)
    | Read
    | Get
    | Clear(task: Task)   // this rank was told read_finish
    | Submit(task: Task)
    | Failed              // get_transfer_task returned no data

  /** The calls of put_transfer_task: waiting polls until nobody reads, polled is past its
      last poll and without the lock.  overtaken is ghost: whether a task was ever appended
      while another was being read. */
  datatype Putters = Putters(waiting: multiset<Task>, polled: multiset<Task>, overtaken: bool)

  /** The ghost part: popped and given record what was taken, side tells whether
      the ranks are between barrier1 and the end of the round, branch what the
      signal was when barrier1 opened, taken and last whether and by whom the
      task of the round was read for the last time. */
  datatype State = State(
    pcs: seq<Pc>, barriers: seq<Barrier>, signal: int, queue: seq<Task>, got: set<int>, puts: Putters,
    given: seq<seq<Task>>, popped: seq<Task>, side: bool, branch: bool, taken: bool, last: int)

  const NOBODY: Putters := Putters(multiset{}, multiset{}, false)

  ghost predicate Init(s: State, n: nat) {
    n >= 1 &&
    s == State(seq(n, _ => Top), [EMPTY, EMPTY, EMPTY], 0, [], {}, NOBODY, seq(n, _ => []), [], false, false,
               false, 0)
  }

  /** What put_transfer_task does with the lock: it forgets who has read, and appends. */
  function Append(s: State, task: Task): State {
    s.(got := {}, queue := s.queue + [task], puts := s.puts.(overtaken := s.puts.overtaken || s.got != {}))
  }

  /** put_transfer_task.  If nobody is reading it appends under the lock it checked with.
      Otherwise it gives the lock back and polls; between the poll that finds nobody
      reading and taking the lock again anything may happen. */
  ghost predicate Put(s: State, t: State, task: Task) {
    var p := s.puts;
    (s.got == {} && t == Append(s, task)) ||
    (s.got != {} && t == s.(puts := p.(waiting := p.waiting + multiset{task}))) ||
    (s.got == {} && task in p.waiting &&
     t == s.(puts := p.(waiting := p.waiting - multiset{task}, polled := p.polled + multiset{task}))) ||
    (task in p.polled && t == Append(s.(puts := p.(polled := p.polled - multiset{task})), task))
  }

  predicate Enabled(s: State, r: nat)
    requires r < |s.pcs| && |s.barriers| == 3
  {
    match s.pcs[r]
    case AtB(i) => i < 3 && s.barriers[i].draining == {}
    case InB(i) => i < 3 && r in s.barriers[i].draining
    case Failed => false
    case _ => true
  }

  /** Opening barrier1 fixes the branch of the round; opening another ends it. */
  function Open(s: State, i: nat): State {
    if i == 0 then s.(side := true, branch := s.signal == 1, taken := false) else s.(side := false)
  }

  /** What rank r does next. */
  function Act(s: State, r: nat, n: nat): State
    requires r < |s.pcs| == |s.given| && |s.barriers| == 3 && Enabled(s, r)
  {
    match s.pcs[r]
    case Top =>
      var u := if r == 0 && s.queue != [] then s.(signal := 1) else s;
      if n > 1 then u.(pcs := s.pcs[r := AtB(0)]) else Open(u.(pcs := s.pcs[r := Read]), 0)
    case AtB(i) =>
      var u := s.(pcs := s.pcs[r := InB(i)], barriers := s.barriers[i := Arrive(s.barriers[i], r, n)]);
      if Completes(s.barriers[i], r, n) then Open(u, i) else u
    case InB(i) =>
      var after := if r == 0 then ResetB(i) else if i == 0 then Read else Top;
      s.(pcs := s.pcs[r := after], barriers := s.barriers[i := Leave(s.barriers[i], r)])
    case ResetB(i) =>
      var after := if i == 0 then Read else Top;
      if i < 3 then s.(pcs := s.pcs[r := after], barriers := s.barriers[i := Reset(s.barriers[i])])
      else s.(pcs := s.pcs[r := after])
    case Read =>
      if s.signal == 1 then s.(pcs := s.pcs[r := Get])
      else if n > 1 then s.(pcs := s.pcs[r := AtB(1)])
      else Open(s.(pcs := s.pcs[r := Top]), 1)
    case Get =>
      if r in s.got || s.queue == [] then s.(pcs := s.pcs[r := Failed])
      else
        var task, got := s.queue[0], s.got + {r};
        if got == Ranks(n)
        then s.(pcs := s.pcs[r := Clear(task)], queue := s.queue[1..], got := {}, popped := s.popped + [task],
                taken := true, last := r)
        else s.(pcs := s.pcs[r := Submit(task)], got := got)
    case Clear(task) => s.(pcs := s.pcs[r := Submit(task)], signal := 0)
    case Submit(task) =>
      var u := s.(given := s.given[r := s.given[r] + [task]]);
      if n > 1 then u.(pcs := s.pcs[r := AtB(2)]) else Open(u.(pcs := s.pcs[r := Top]), 2)
    case Failed => s
  }

  ghost predicate Next(s: State, t: State, n: nat) {
    (exists task :: Put(s, t, task)) ||
    exists r: nat :: r < |s.pcs| == |s.given| && |s.barriers| == 3 && Enabled(s, r) && t == Act(s, r, n)
  }

  // ---------- the invariant ----------

  /** Which half of the round a rank is in.  Those released from a barrier belong
      to the half that follows it, even before they have left it. */
  predicate SideOf(s: State, r: nat)
    requires r < |s.pcs| && |s.barriers| == 3
  {
    match s.pcs[r]
    case Top => false
    case AtB(i) => i != 0
    case InB(i) => i < 3 && (i == 0) == (r in s.barriers[i].draining)
    case ResetB(i) => i == 0
    case _ => true
  }

  /** The rank has taken the task of the round. */
  predicate Has(pc: Pc) {
    pc.Clear? || pc.Submit? || pc == AtB(2) || pc == InB(2)
  }

  predicate Waits(s: State, r: nat, i: nat)
    requires i < |s.barriers|
  {
    r in s.barriers[i].filling || r in s.barriers[i].draining
  }

  /** The control state of one rank fits the barriers, the half and the branch. */
  ghost predicate Placed(s: State, r: nat, n: nat)
    requires r < |s.pcs| && |s.barriers| == 3
  {
    var pc := s.pcs[r];
    pc != Failed && SideOf(s, r) == s.side &&
    (forall i :: 0 <= i < 3 ==> (pc == InB(i) <==> Waits(s, r, i))) &&
    (pc.AtB? || pc.InB? || pc.ResetB? ==> pc.i < 3 && n > 1) && (pc.ResetB? ==> r == 0) &&
    (s.side && (pc == Get || Has(pc)) ==> s.branch) &&
    (s.side && (pc == AtB(1) || pc == InB(1)) ==> !s.branch)
  }

  function Holding(pc: Pc): seq<Task> {
    if pc.Clear? || pc.Submit? then [pc.task] else []
  }

  /** What a rank has been given, with what it holds, is what was popped, with the
      head of the queue if the rank has read it already. */
  ghost predicate Accounted(s: State, r: nat)
    requires r < |s.pcs| == |s.given|
  {
    (r in s.got ==> s.queue != []) &&
    s.given[r] + Holding(s.pcs[r]) == s.popped + (if r in s.got then [s.queue[0]] else [])
  }

  /** The signal, and who has read the task, in each part of the round. */
  ghost predicate InPhase(s: State, n: nat)
    requires |s.pcs| == n >= 1
  {
    s.got <= Ranks(n) &&
    if !s.side then
      s.got == {} && (s.signal == 0 || (s.signal == 1 && s.queue != [] && (s.pcs[0] == AtB(0) || s.pcs[0] == InB(0))))
    else if !s.branch then
      s.got == {} && s.signal == 0
    else if !s.taken then
      s.signal == 1 && s.queue != [] && s.got != Ranks(n) &&
      forall r :: 0 <= r < n ==> (r in s.got <==> Has(s.pcs[r])) && !s.pcs[r].Clear?
    else
      s.got == {} && 0 <= s.last < n && (s.signal == 1 || s.signal == 0) &&
      (forall r :: 0 <= r < n ==> Has(s.pcs[r]) && (s.pcs[r].Clear? <==> r == s.last && s.signal == 1))
  }

  ghost predicate Inv(s: State, n: nat) {
    n >= 1 && |s.pcs| == |s.given| == n && |s.barriers| == 3 &&
    (forall i :: 0 <= i < 3 ==> Sound(s.barriers[i], n)) &&
    (forall r :: 0 <= r < n ==> Placed(s, r, n)) &&
    (forall r :: 0 <= r < n ==> Accounted(s, r)) &&
    InPhase(s, n)
  }

  lemma InitHolds(s: State, n: nat)
    requires Init(s, n)
    ensures Inv(s, n)
  {
    assert 0 in Ranks(n);
    forall r | 0 <= r < n ensures Placed(s, r, n) && Accounted(s, r) {}
  }

  /** More tasks behind the head of the queue change nothing for the ranks. */
  lemma MoreQueued(s: State, t: State, n: nat)
    requires Inv(s, n) && s.queue <= t.queue
    requires t == s.(queue := t.queue, puts := t.puts)
    ensures Inv(t, n)
  {
    forall r | 0 <= r < n ensures Placed(t, r, n) && Accounted(t, r) {
      assert Placed(s, r, n) && Accounted(s, r);
    }
  }

  /** No step of put_transfer_task does harm, unless it appends while a task is being read. */
  lemma PutKeeps(s: State, t: State, task: Task, n: nat)
    requires Inv(s, n) && Put(s, t, task) && !t.puts.overtaken
    ensures Inv(t, n)
  {
    hide Inv;
    MoreQueued(s, t, n);
  }

  /** The wait is needed: appending keeps the invariant if and only if nobody is in the
      middle of reading a task.  Otherwise those who have read it would read it again. */
  lemma AppendExactly(s: State, task: Task, n: nat)
    requires Inv(s, n)
    ensures Inv(Append(s, task), n) <==> s.got == {}
  {
    var t := Append(s, task);
    if s.got == {} {
      MoreQueued(s, t, n);
    } else {
      var r :| r in s.got;
      assert r in Ranks(n);
      ReadersHold(s, r, n);
      assert !Accounted(t, r);
    }
  }

  /** A rank that has read the head holds one task more than was popped. */
  lemma ReadersHold(s: State, r: int, n: nat)
    requires Inv(s, n) && r in s.got && 0 <= r < n
    ensures |s.given[r] + Holding(s.pcs[r])| == |s.popped| + 1
  {
    assert Accounted(s, r);
  }

  // ---------- each action keeps the invariant ----------

  lemma TopKeeps(s: State, r: nat, n: nat)
    requires Inv(s, n) && r < n && Enabled(s, r) && s.pcs[r] == Top
    ensures Inv(Act(s, r, n), n)
  {
    var t := Act(s, r, n);
    assert Placed(s, r, n);
    forall q | 0 <= q < n ensures Placed(t, q, n) && Accounted(t, q) {
      assert Placed(s, q, n) && Accounted(s, q);
    }
    assert Placed(s, 0, n);
  }

  /** When an arrival completes a barrier, everybody else is waiting there. */
  lemma AllWaiting(s: State, r: nat, i: nat, n: nat)
    requires Inv(s, n) && r < n && i < 3 && s.pcs[r] == AtB(i) && Enabled(s, r) && Completes(s.barriers[i], r, n)
    ensures forall q :: 0 <= q < n && q != r ==> s.pcs[q] == InB(i)
  {
    forall q | 0 <= q < n && q != r ensures s.pcs[q] == InB(i) {
      assert q in s.barriers[i].filling + {r};
      assert Placed(s, q, n) && Waits(s, q, i);
    }
  }

  lemma ArriveKeeps(s: State, r: nat, n: nat)
    requires Inv(s, n) && r < n && Enabled(s, r) && s.pcs[r].AtB?
    ensures Inv(Act(s, r, n), n)
  {
    var i := s.pcs[r].i;
    if Completes(s.barriers[i], r, n) {
      ArriveOpens(s, r, i, n);
    } else {
      ArriveWaits(s, r, i, n);
    }
  }

  lemma ArriveWaits(s: State, r: nat, i: nat, n: nat)
    requires Inv(s, n) && r < n && Enabled(s, r) && s.pcs[r] == AtB(i) && !Completes(s.barriers[i], r, n)
    ensures Inv(Act(s, r, n), n)
  {
    var t := Act(s, r, n);
    assert Placed(s, r, n);
    forall q | 0 <= q < n ensures Placed(t, q, n) && Accounted(t, q) {
      assert Placed(s, q, n) && Accounted(s, q);
      WaitsAfterArrival(s, t, r, i, q, n);
    }
    assert r in Ranks(n);
  }

  lemma WaitsAfterArrival(s: State, t: State, r: nat, i: nat, q: nat, n: nat)
    requires Inv(s, n) && r < n && q < n && Enabled(s, r) && s.pcs[r] == AtB(i) && t == Act(s, r, n)
    ensures |t.barriers| == 3 && forall j :: 0 <= j < 3 ==> (Waits(t, q, j) <==> Waits(s, q, j) || (j == i && q == r))
    ensures forall j :: 0 <= j < 3 && j != i ==> t.barriers[j] == s.barriers[j]
  {}

  lemma ArriveOpens(s: State, r: nat, i: nat, n: nat)
    requires Inv(s, n) && r < n && Enabled(s, r) && s.pcs[r] == AtB(i) && Completes(s.barriers[i], r, n)
    ensures Inv(Act(s, r, n), n)
  {
    var t := Act(s, r, n);
    AllWaiting(s, r, i, n);
    assert Placed(s, r, n);
    forall q | 0 <= q < n ensures Placed(t, q, n) && Accounted(t, q) {
      assert Placed(s, q, n) && Accounted(s, q);
      assert q in Ranks(n);
      WaitsAfterArrival(s, t, r, i, q, n);
    }
    assert 0 in Ranks(n) && r in Ranks(n);
    OpenSignals(s, t, r, i, n);
  }

  /** Until the task has been read for the last time, some rank has not taken it. */
  lemma SomebodyMissing(s: State, n: nat) returns (q: nat)
    requires Inv(s, n) && s.side && s.branch && !s.taken
    ensures q < n && !Has(s.pcs[q])
  {
    assert !(Ranks(n) <= s.got);
    q :| q in Ranks(n) && q !in s.got;
  }

  lemma OpenSignals(s: State, t: State, r: nat, i: nat, n: nat)
    requires Inv(s, n) && r < n && Enabled(s, r) && s.pcs[r] == AtB(i) && Completes(s.barriers[i], r, n)
    requires t == Act(s, r, n) && forall q :: 0 <= q < n && q != r ==> s.pcs[q] == InB(i)
    ensures InPhase(t, n)
  {
    assert Placed(s, r, n);
    if i == 2 && !s.taken {
      var q := SomebodyMissing(s, n);
      assert false;
    }
    assert i == 2 ==> s.side && s.branch && s.taken && !s.pcs[s.last].Clear?;
  }

  lemma LeaveKeeps(s: State, r: nat, n: nat)
    requires Inv(s, n) && r < n && Enabled(s, r) && s.pcs[r].InB?
    ensures Inv(Act(s, r, n), n)
  {
    var t := Act(s, r, n);
    assert Placed(s, r, n);
    forall q | 0 <= q < n ensures Placed(t, q, n) && Accounted(t, q) {
      assert Placed(s, q, n) && Accounted(s, q);
    }
  }

  lemma ResetKeeps(s: State, r: nat, n: nat)
    requires Inv(s, n) && r < n && Enabled(s, r) && s.pcs[r].ResetB?
    ensures Inv(Act(s, r, n), n)
  {
    var t := Act(s, r, n);
    var i := s.pcs[r].i;
    assert Placed(s, r, n);
    NobodyWaits(s, r, i, n);
    forall q | 0 <= q < n ensures Placed(t, q, n) && Accounted(t, q) {
      assert Placed(s, q, n) && Accounted(s, q);
    }
  }

  /** A barrier is never reset while somebody waits to get in. */
  lemma NobodyWaits(s: State, r: nat, i: nat, n: nat)
    requires Inv(s, n) && r < n && s.pcs[r] == ResetB(i)
    ensures i < 3 && s.barriers[i].filling == {}
  {
    assert Placed(s, r, n);
    forall q | q in s.barriers[i].filling ensures false {
      assert q in Ranks(n);
      assert Placed(s, q, n) && Waits(s, q, i);
    }
  }

  lemma ReadKeeps(s: State, r: nat, n: nat)
    requires Inv(s, n) && r < n && Enabled(s, r) && s.pcs[r] == Read
    ensures Inv(Act(s, r, n), n)
  {
    var t := Act(s, r, n);
    assert Placed(s, r, n);
    forall q | 0 <= q < n ensures Placed(t, q, n) && Accounted(t, q) {
      assert Placed(s, q, n) && Accounted(s, q);
    }
  }

  lemma GetKeeps(s: State, r: nat, n: nat)
    requires Inv(s, n) && r < n && Enabled(s, r) && s.pcs[r] == Get
    ensures Inv(Act(s, r, n), n)
  {
    var t := Act(s, r, n);
    assert Placed(s, r, n);
    assert r in Ranks(n);
    assert Accounted(s, r);
    var head := [s.queue[0]];
    assert s.given[r] + [] == s.given[r] && s.popped + [] == s.popped && (s.popped + head) + [] == s.popped + head;
    forall q | 0 <= q < n ensures Placed(t, q, n) && Accounted(t, q) {
      assert Placed(s, q, n) && Accounted(s, q);
      assert q in Ranks(n);
    }
  }

  lemma ClearKeeps(s: State, r: nat, n: nat)
    requires Inv(s, n) && r < n && Enabled(s, r) && s.pcs[r].Clear?
    ensures Inv(Act(s, r, n), n)
  {
    var t := Act(s, r, n);
    assert Placed(s, r, n);
    forall q | 0 <= q < n ensures Placed(t, q, n) && Accounted(t, q) {
      assert Placed(s, q, n) && Accounted(s, q);
    }
  }

  lemma SubmitKeeps(s: State, r: nat, n: nat)
    requires Inv(s, n) && r < n && Enabled(s, r) && s.pcs[r].Submit?
    ensures Inv(Act(s, r, n), n)
  {
    var t := Act(s, r, n);
    assert Placed(s, r, n);
    forall q | 0 <= q < n ensures Placed(t, q, n) && Accounted(t, q) {
      assert Placed(s, q, n) && Accounted(s, q);
    }
  }

  lemma NextKeeps(s: State, t: State, n: nat)
    requires Inv(s, n) && Next(s, t, n) && !t.puts.overtaken
    ensures Inv(t, n)
  {
    hide Inv, Act, Put;
    if task :| Put(s, t, task) {
      PutKeeps(s, t, task, n);
    } else {
      var r: nat :| r < |s.pcs| == |s.given| && |s.barriers| == 3 && Enabled(s, r) && t == Act(s, r, n);
      Sizes(s, n);
      match s.pcs[r]
      case Top => TopKeeps(s, r, n);
      case AtB(i) => ArriveKeeps(s, r, n);
      case InB(i) => LeaveKeeps(s, r, n);
      case ResetB(i) => ResetKeeps(s, r, n);
      case Read => ReadKeeps(s, r, n);
      case Get => GetKeeps(s, r, n);
      case Clear(task) => ClearKeeps(s, r, n);
      case Submit(task) => SubmitKeeps(s, r, n);
      case Failed =>
    }
  }

  lemma Sizes(s: State, n: nat)
    requires Inv(s, n)
    ensures |s.pcs| == |s.given| == n
  {}

  // ---------- what the invariant means ----------

  /** No reset ever breaks a barrier, and no rank is ever left without the task. */
  lemma NothingBreaks(s: State, n: nat)
    requires Inv(s, n)
    ensures forall i :: 0 <= i < 3 ==> !s.barriers[i].broken
    ensures forall r :: 0 <= r < n ==> s.pcs[r] != Failed
  {
    forall r | 0 <= r < n ensures s.pcs[r] != Failed {
      assert Placed(s, r, n);
    }
  }

  /** A rank that has found a task in this round, and one that has found none. */
  predicate TookBranch(s: State, r: nat)
    requires r < |s.pcs| && |s.barriers| == 3
  {
    SideOf(s, r) && (s.pcs[r] == Get || Has(s.pcs[r]))
  }

  predicate SkippedBranch(s: State, r: nat)
    requires r < |s.pcs| && |s.barriers| == 3
  {
    SideOf(s, r) && (s.pcs[r] == AtB(1) || s.pcs[r] == InB(1))
  }

  /** In a round all ranks take the same branch. */
  lemma SameBranch(s: State, n: nat, r: nat, q: nat)
    requires Inv(s, n) && r < n && q < n
    ensures !(TookBranch(s, r) && SkippedBranch(s, q))
  {
    assert Placed(s, r, n) && Placed(s, q, n);
  }

  /** And read the same task. */
  lemma SameTask(s: State, n: nat, r: nat, q: nat)
    requires Inv(s, n) && r < n && q < n && Holding(s.pcs[r]) != [] && Holding(s.pcs[q]) != []
    ensures s.pcs[r].task == s.pcs[q].task
  {
    assert Accounted(s, r) && Accounted(s, q) && Placed(s, r, n) && Placed(s, q, n);
    assert s.given[r] + [s.pcs[r].task] == s.given[r] + Holding(s.pcs[r]);
    assert s.given[q] + [s.pcs[q].task] == s.given[q] + Holding(s.pcs[q]);
    assert (s.given[r] + [s.pcs[r].task])[|s.given[r]|] == s.pcs[r].task;
    assert (s.given[q] + [s.pcs[q].task])[|s.given[q]|] == s.pcs[q].task;
  }

  /** What two ranks have submitted so far, one is a beginning of the other. */
  lemma GivenAgree(s: State, n: nat, r: nat, q: nat)
    requires Inv(s, n) && r < n && q < n
    ensures s.given[r] <= s.given[q] || s.given[q] <= s.given[r]
  {
    assert Accounted(s, r) && Accounted(s, q);
    var common := s.popped + (if s.queue == [] then [] else [s.queue[0]]);
    assert s.given[r] <= s.given[r] + Holding(s.pcs[r]) <= common;
    assert s.given[q] <= s.given[q] + Holding(s.pcs[q]) <= common;
  }

  /** Between the rounds every rank has been given all that was popped. */
  lemma BetweenRounds(s: State, n: nat, r: nat)
    requires Inv(s, n) && !s.side && r < n
    ensures s.given[r] == s.popped
  {
    assert Accounted(s, r) && Placed(s, r, n);
    assert s.given[r] + [] == s.given[r] && s.popped + [] == s.popped;
  }

  // ---------- a task that is seen is taken ----------

  /** The round that has begun will take a task, or has taken one: more than p were popped. */
  ghost predicate Taking(s: State, p: nat) {
    |s.popped| > p || (|s.popped| == p && s.side && s.branch && !s.taken)
  }

  /** Rank 0 is about to see the task, or has seen it, or the round takes it. */
  ghost predicate Pending(s: State, p: nat)
    requires |s.pcs| > 0
  {
    Taking(s, p) ||
    (|s.popped| == p && !s.side && ((s.pcs[0] == Top && s.queue != []) || s.signal == 1))
  }

  lemma PutPends(s: State, t: State, task: Task, n: nat, p: nat)
    requires Inv(s, n) && Put(s, t, task)
    ensures |t.pcs| > 0 && (Pending(s, p) ==> Pending(t, p)) && (Taking(s, p) ==> Taking(t, p))
  {}

  lemma ActPends(s: State, r: nat, n: nat, p: nat)
    requires Inv(s, n) && r < n && Enabled(s, r)
    ensures |Act(s, r, n).pcs| == |s.pcs| > 0
    ensures (Pending(s, p) ==> Pending(Act(s, r, n), p)) && (Taking(s, p) ==> Taking(Act(s, r, n), p))
  {
    hide Completes, Arrive, Leave, Reset;
    assert Placed(s, r, n) && Placed(s, 0, n);
    if s.pcs[r].AtB? && Completes(s.barriers[s.pcs[r].i], r, n) {
      AllWaiting(s, r, s.pcs[r].i, n);
    }
    if s.side && s.branch && !s.taken {
      var q := SomebodyMissing(s, n);
      assert Placed(s, q, n);
    }
  }

  /** No step forgets a task that rank 0 is about to see or that a round is taking. */
  lemma NextPends(s: State, t: State, n: nat, p: nat)
    requires Inv(s, n) && Next(s, t, n)
    ensures |s.pcs| == |t.pcs| == n >= 1
    ensures (Pending(s, p) ==> Pending(t, p)) && (Taking(s, p) ==> Taking(t, p))
  {
    hide Inv, Act, Enabled, Pending, Taking;
    Sizes(s, n);
    if task :| Put(s, t, task) {
      PutPends(s, t, task, n, p);
    } else {
      var r: nat :| r < |s.pcs| == |s.given| && |s.barriers| == 3 && Enabled(s, r) && t == Act(s, r, n);
      ActPends(s, r, n, p);
    }
  }

  /** What the queue gains: a put appends at the end, a rank takes from the front. */
  ghost function Gained(s: State, t: State): seq<Task> {
    if |t.queue| > |s.queue| then [t.queue[|t.queue| - 1]] else []
  }

  lemma PutQueues(s: State, t: State, task: Task)
    requires Put(s, t, task)
    ensures t.popped + t.queue == s.popped + s.queue + Gained(s, t)
  {
    assert s.popped + s.queue + [] == s.popped + s.queue;
    assert s.popped + (s.queue + [task]) == s.popped + s.queue + [task];
  }

  /** Only reading a task takes it off the queue. */
  lemma OtherActs(s: State, r: nat, n: nat)
    requires r < |s.pcs| == |s.given| && |s.barriers| == 3 && Enabled(s, r) && s.pcs[r] != Get
    ensures Act(s, r, n).popped == s.popped && Act(s, r, n).queue == s.queue
  {
    hide Arrive, Leave, Reset, Completes, Ranks;
    match s.pcs[r]
    case Top =>
    case AtB(i) =>
    case InB(i) =>
    case ResetB(i) =>
    case Read =>
    case Clear(task) =>
    case Submit(task) =>
    case Failed =>
  }

  lemma ActQueues(s: State, r: nat, n: nat)
    requires r < |s.pcs| == |s.given| && |s.barriers| == 3 && Enabled(s, r)
    ensures Act(s, r, n).popped + Act(s, r, n).queue == s.popped + s.queue + Gained(s, Act(s, r, n))
  {
    hide Enabled, Ranks;
    assert s.popped + s.queue + [] == s.popped + s.queue;
    if s.pcs[r] == Get {
      if s.queue != [] {
        assert (s.popped + [s.queue[0]]) + s.queue[1..] == s.popped + s.queue;
      }
    } else {
      OtherActs(s, r, n);
      hide Act;
    }
  }

  lemma NextQueues(s: State, t: State, n: nat)
    requires Next(s, t, n)
    ensures t.popped + t.queue == s.popped + s.queue + Gained(s, t)
  {
    hide Act, Gained, Enabled, Put;
    if task :| Put(s, t, task) {
      PutQueues(s, t, task);
    } else {
      var r: nat :| r < |s.pcs| == |s.given| && |s.barriers| == 3 && Enabled(s, r) && t == Act(s, r, n);
      ActQueues(s, r, n);
    }
  }

  /** The main loops never wait for each other in a circle: some rank can always act. */
  lemma SomebodyCanAct(s: State, n: nat)
    requires Inv(s, n)
    ensures |s.pcs| == n && |s.barriers| == 3 && exists r: nat :: r < n && Enabled(s, r)
  {
    if forall r: nat :: r < n ==> !Enabled(s, r) {
      AllInside(s, n);
      var i := s.pcs[0].i;
      assert !(Ranks(n) <= s.barriers[i].filling);
      var q :| q in Ranks(n) && q !in s.barriers[i].filling;
      InsideTogether(s, 0, q, n);
      assert false;
    }
  }

  /** If nobody can act, everybody waits inside a barrier that has not opened. */
  lemma AllInside(s: State, n: nat)
    requires Inv(s, n) && forall r: nat :: r < n ==> !Enabled(s, r)
    ensures forall r :: 0 <= r < n ==> s.pcs[r].InB? && s.pcs[r].i < 3 && r !in s.barriers[s.pcs[r].i].draining
  {
    forall i, q | 0 <= i < 3 && q in s.barriers[i].draining ensures false {
      assert q in Ranks(n);
      assert Placed(s, q, n) && Waits(s, q, i) && Enabled(s, q);
    }
    forall r | 0 <= r < n ensures s.pcs[r].InB? && s.pcs[r].i < 3 && r !in s.barriers[s.pcs[r].i].draining {
      assert Placed(s, r, n) && !Enabled(s, r);
    }
  }

  /** Ranks that wait inside barriers that have not opened wait inside the same one. */
  lemma InsideTogether(s: State, r: nat, q: nat, n: nat)
    requires Inv(s, n) && r < n && q < n && s.pcs[r].InB? && s.pcs[q].InB? && s.pcs[r].i < 3 && s.pcs[q].i < 3
    requires r !in s.barriers[s.pcs[r].i].draining && q !in s.barriers[s.pcs[q].i].draining
    ensures q in s.barriers[s.pcs[r].i].filling
  {
    assert Placed(s, r, n) && Placed(s, q, n);
    assert Waits(s, q, s.pcs[q].i);
  }

  // ---------- and no half of a round goes on for ever ----------

  /** How far a rank has come in its half of the round. */
  ghost function Reached(pc: Pc, side: bool): nat {
    match pc
    case Top => 2
    case AtB(i) => if i == 0 then 3 else 6
    case InB(i) => if side then (if i == 0 then 0 else 7) else if i == 0 then 4 else 0
    case ResetB(i) => 1
    case Read => 2
    case Get => 3
    case Clear(task) => 4
    case Submit(task) => 5
    case Failed => 8
  }

  /** How far the first m ranks have come together. */
  ghost function Progress(s: State, m: nat): nat
    requires m <= |s.pcs|
  {
    if m == 0 then 0 else Progress(s, m - 1) + Reached(s.pcs[m - 1], s.side)
  }

  /** Whatever a rank does it moves on itself, or it ends the half for all. */
  lemma ActAdvances(s: State, r: nat, n: nat)
    requires Inv(s, n) && r < n && Enabled(s, r) && Act(s, r, n).side == s.side
    ensures var t := Act(s, r, n);
      |t.pcs| == n && Reached(t.pcs[r], t.side) > Reached(s.pcs[r], s.side) &&
      forall q :: 0 <= q < n && q != r ==> t.pcs[q] == s.pcs[q]
  {
    hide Completes, Arrive, Leave, Reset;
    assert Placed(s, r, n);
  }

  lemma {:induction false} ProgressOf(s: State, t: State, r: nat, m: nat)
    requires m <= |s.pcs| == |t.pcs| && r < |s.pcs| && s.side == t.side
    requires Reached(t.pcs[r], t.side) > Reached(s.pcs[r], s.side)
    requires forall q :: 0 <= q < |s.pcs| && q != r ==> t.pcs[q] == s.pcs[q]
    ensures if r < m then Progress(t, m) > Progress(s, m) else Progress(t, m) == Progress(s, m)
  {
    if m > 0 {
      ProgressOf(s, t, r, m - 1);
    }
  }

  lemma {:induction false} ProgressAtMost(s: State, n: nat, m: nat)
    requires Inv(s, n) && m <= n
    ensures Progress(s, m) <= 7 * m
  {
    if m > 0 {
      ProgressAtMost(s, n, m - 1);
      assert Placed(s, m - 1, n);
    }
  }

  /** The states that a schedule of ranks leads through. */
  ghost predicate Scheduled(states: seq<State>, ranks: seq<nat>, n: nat) {
    |states| == |ranks| + 1 && Inv(states[0], n) &&
    forall k :: 0 <= k < |ranks| ==> ActsBy(states[k], states[k + 1], ranks[k], n)
  }

  ghost predicate ActsBy(s: State, t: State, r: nat, n: nat) {
    r < n == |s.pcs| == |s.given| && |s.barriers| == 3 && Enabled(s, r) && t == Act(s, r, n)
  }

  lemma {:induction false} ScheduleAdvances(states: seq<State>, ranks: seq<nat>, n: nat, k: nat)
    requires Scheduled(states, ranks, n) && k < |states| && !states[0].puts.overtaken
    requires forall i :: 0 <= i < |states| ==> states[i].side == states[0].side
    ensures Inv(states[k], n) && |states[k].pcs| == n && !states[k].puts.overtaken && Progress(states[k], n) >= k
  {
    hide Inv, Act, Reached, Enabled;
    Sizes(states[0], n);
    if k > 0 {
      ScheduleAdvances(states, ranks, n, k - 1);
      var s, t, r := states[k - 1], states[k], ranks[k - 1];
      assert ActsBy(s, states[k - 1 + 1], r, n);
      assert Next(s, t, n);
      Untroubled(s, r, n);
      NextKeeps(s, t, n);
      ActAdvances(s, r, n);
      ProgressOf(s, t, r, n);
    }
  }

  lemma Untroubled(s: State, r: nat, n: nat)
    requires r < |s.pcs| == |s.given| && |s.barriers| == 3 && Enabled(s, r)
    ensures Act(s, r, n).puts == s.puts
  {
    hide Arrive, Leave, Reset, Completes, Ranks;
  }

  /** In whatever order the ranks act, a half of a round is over after 7 n steps; and as some
      rank can always act, the rounds go on. */
  lemma HalfRoundEnds(states: seq<State>, ranks: seq<nat>, n: nat)
    requires Scheduled(states, ranks, n) && !states[0].puts.overtaken
    requires forall i :: 0 <= i < |states| ==> states[i].side == states[0].side
    ensures |ranks| <= 7 * n
  {
    ScheduleAdvances(states, ranks, n, |ranks|);
    ProgressAtMost(states[|ranks|], n, n);
  }
}
