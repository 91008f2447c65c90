/** Two ranks whose reading of a task is overtaken by put_transfer_task: a task that was
    found waiting for the first read is appended during the second one.  In the round
    after that the ranks hold different tasks, or wait for each other for ever. */
module LockStepOvertaken {
  import opened Barriers
  import opened LockStepLoop
  import opened LockStepPool
  import opened LockStep

  const A: Task := Task(true, 0)
  const B: Task := Task(true, 1)
  const C: Task := Task(true, 2)
  const POLLED: Putters := Putters(multiset{}, multiset{C}, false)
  const OVERTOOK: Putters := Putters(multiset{}, multiset{}, true)

  // ---------- stretches of a run of two main loops ----------

  ghost predicate IsStretch(run: seq<State>, s: State, t: State) {
    |run| >= 1 && run[0] == s && run[|run| - 1] == t && forall i :: 0 < i < |run| ==> Next(run[i - 1], run[i], 2)
  }

  ghost predicate Leads(s: State, t: State) {
    exists run :: IsStretch(run, s, t)
  }

  lemma Stays(s: State)
    ensures Leads(s, s)
  {
    assert IsStretch([s], s, s);
  }

  lemma Joined(s: State, t: State, u: State)
    requires Leads(s, t) && Leads(t, u)
    ensures Leads(s, u)
  {
    hide Next;
    var a :| IsStretch(a, s, t);
    var b :| IsStretch(b, t, u);
    var run := a + b[1..];
    forall i | 0 < i < |run| ensures Next(run[i - 1], run[i], 2) {
      if i >= |a| {
        assert run[i] == b[i - |a| + 1] && run[i - 1] == b[i - |a|];
      }
    }
    assert IsStretch(run, s, u);
  }

  predicate CanAct(s: State, r: nat) {
    r < |s.pcs| == |s.given| && |s.barriers| == 3 && Enabled(s, r)
  }

  lemma Acts(s: State, t: State, r: nat)
    requires Leads(s, t) && CanAct(t, r)
    ensures Leads(s, Act(t, r, 2))
  {
    hide Act, Enabled;
    var u := Act(t, r, 2);
    assert Next(t, u, 2);
    assert IsStretch([t, u], t, u);
    Joined(s, t, u);
  }

  lemma Puts(s: State, t: State, u: State, task: Task)
    requires Leads(s, t) && Put(t, u, task)
    ensures Leads(s, u)
  {
    hide Put;
    assert Next(t, u, 2);
    assert IsStretch([t, u], t, u);
    Joined(s, t, u);
  }

  lemma TwoRanks()
    ensures Ranks(2) == {0, 1}
  {
    assert Ranks(1) == Ranks(0) + {0};
  }

  /** Both ranks are between steps of the same kind, no barrier is in use. */
  predicate Level(s: State, pc: Pc) {
    s.pcs == [pc, pc] && s.barriers == [EMPTY, EMPTY, EMPTY] && |s.given| == 2
  }

  /** Both ranks arrive at a barrier, and the second arrival opens it. */
  lemma Enter(s: State, i: nat)
    requires i < 3 && Level(s, AtB(i))
    ensures Leads(s, Open(s.(pcs := [InB(i), InB(i)], barriers := s.barriers[i := Barrier({}, {0, 1}, false)]), i))
  {
    hide Leads;
    TwoRanks();
    Stays(s);
    var s1 := s.(pcs := [InB(i), AtB(i)], barriers := s.barriers[i := Barrier({0}, {}, false)]);
    assert {} + {0} == {0} && 1 !in {0};
    assert Act(s, 0, 2) == s1;
    Acts(s, s, 0);
    assert {0} + {1} == {0, 1};
    assert Act(s1, 1, 2) ==
           Open(s.(pcs := [InB(i), InB(i)], barriers := s.barriers[i := Barrier({}, {0, 1}, false)]), i);
    Acts(s, s1, 1);
  }

  /** Both leave it, and rank 0 resets it. */
  lemma Exit(s: State, i: nat)
    requires i < 3 && s.pcs == [InB(i), InB(i)] && |s.given| == 2
    requires s.barriers == [EMPTY, EMPTY, EMPTY][i := Barrier({}, {0, 1}, false)]
    ensures var after := if i == 0 then Read else Top;
      Leads(s, s.(pcs := [after, after], barriers := [EMPTY, EMPTY, EMPTY]))
  {
    hide Leads, Open;
    var after := if i == 0 then Read else Top;
    Stays(s);
    var s1 := s.(pcs := [ResetB(i), InB(i)], barriers := s.barriers[i := Barrier({}, {1}, false)]);
    assert {0, 1} - {0} == {1};
    assert Act(s, 0, 2) == s1;
    Acts(s, s, 0);
    var s2 := s1.(pcs := [ResetB(i), after], barriers := [EMPTY, EMPTY, EMPTY]);
    assert {1} - {1} == {};
    assert Act(s1, 1, 2) == s2;
    Acts(s, s1, 1);
    assert Act(s2, 0, 2) == s2.(pcs := [after, after]);
    Acts(s, s2, 0);
  }

  /** Both ranks get through a barrier. */
  lemma Through(s: State, i: nat)
    requires i < 3 && Level(s, AtB(i))
    ensures var after := if i == 0 then Read else Top; Leads(s, Open(s.(pcs := [after, after]), i))
  {
    hide Leads;
    var after := if i == 0 then Read else Top;
    var s1 := Open(s.(pcs := [InB(i), InB(i)], barriers := s.barriers[i := Barrier({}, {0, 1}, false)]), i);
    Enter(s, i);
    Exit(s1, i);
    Joined(s, s1, s1.(pcs := [after, after], barriers := [EMPTY, EMPTY, EMPTY]));
  }

  /** Rank 0 announces the task, and both get to the point of reading the signal. */
  lemma Announced(s: State)
    requires Level(s, Top) && s.queue != []
    ensures Leads(s, s.(pcs := [Read, Read], signal := 1, side := true, branch := true, taken := false))
  {
    hide Leads;
    Stays(s);
    var s1 := s.(pcs := [AtB(0), Top], signal := 1);
    assert Act(s, 0, 2) == s1;
    Acts(s, s, 0);
    var s2 := s1.(pcs := [AtB(0), AtB(0)]);
    assert Act(s1, 1, 2) == s2;
    Acts(s, s1, 1);
    Through(s2, 0);
    Joined(s, s2, s.(pcs := [Read, Read], signal := 1, side := true, branch := true, taken := false));
  }

  /** Both have found the signal set. */
  lemma Found(s: State)
    requires Level(s, Read) && s.signal == 1
    ensures Leads(s, s.(pcs := [Get, Get]))
  {
    hide Leads;
    Stays(s);
    assert Act(s, 0, 2) == s.(pcs := [Get, Read]);
    Acts(s, s, 0);
    assert Act(s.(pcs := [Get, Read]), 1, 2) == s.(pcs := [Get, Get]);
    Acts(s, s.(pcs := [Get, Read]), 1);
  }

  /** Both submit what they hold and end the round. */
  lemma Submitted2(s: State, t0: Task, t1: Task)
    requires s.pcs == [Submit(t0), Submit(t1)] && s.barriers == [EMPTY, EMPTY, EMPTY] && |s.given| == 2
    ensures Leads(s, s.(pcs := [Top, Top], given := [s.given[0] + [t0], s.given[1] + [t1]], side := false))
  {
    hide Leads;
    Stays(s);
    var s1 := s.(pcs := [AtB(2), Submit(t1)], given := [s.given[0] + [t0], s.given[1]]);
    assert Act(s, 0, 2) == s1;
    Acts(s, s, 0);
    var s2 := s1.(pcs := [AtB(2), AtB(2)], given := [s.given[0] + [t0], s.given[1] + [t1]]);
    assert Act(s1, 1, 2) == s2;
    Acts(s, s1, 1);
    Through(s2, 2);
    Joined(s, s2, s2.(pcs := [Top, Top], side := false));
  }

  // ---------- three rounds ----------

  function Start(): State {
    State([Top, Top], [EMPTY, EMPTY, EMPTY], 0, [], {}, NOBODY, [[], []], [], false, false, false, 0)
  }

  /** The first task was taken by both; C was put while it was being read, and its last
      poll came when it had been read. */
  function FirstRound(): State {
    Start().(queue := [B], puts := POLLED, given := [[A], [A]], popped := [A], branch := true, taken := true,
             last := 1)
  }

  /** C was appended after rank 0 had read B and before rank 1 did. */
  function SecondRound(): State {
    FirstRound().(signal := 1, queue := [B, C], got := {1}, puts := OVERTOOK, given := [[A, B], [A, B]],
                  taken := false)
  }

  lemma First()
    ensures Leads(Start(), FirstRound())
  {
    hide Leads;
    TwoRanks();
    var s := Start();
    Stays(s);
    var s1 := s.(queue := [A]);
    Puts(s, s, s1, A);
    var s2 := s.(queue := [A, B]);
    Puts(s, s1, s2, B);
    Announced(s2);
    var s3 := s2.(pcs := [Read, Read], signal := 1, side := true, branch := true, taken := false);
    Joined(s, s2, s3);
    Found(s3);
    Joined(s, s3, s3.(pcs := [Get, Get]));
    FirstReads(s3.(pcs := [Get, Get]));
    var s4 := s3.(pcs := [Submit(A), Submit(A)], signal := 0, queue := [B], puts := POLLED, popped := [A],
                  taken := true, last := 1);
    Joined(s, s3.(pcs := [Get, Get]), s4);
    Submitted2(s4, A, A);
    Joined(s, s4, FirstRound());
  }

  /** Rank 0 reads, C begins to wait, rank 1 reads, C sees that nobody reads any more. */
  lemma FirstReads(s: State)
    requires s == Start().(pcs := [Get, Get], queue := [A, B], signal := 1, side := true, branch := true)
    ensures Leads(s, s.(pcs := [Submit(A), Submit(A)], signal := 0, queue := [B], puts := POLLED, popped := [A],
                        taken := true, last := 1))
  {
    hide Leads;
    TwoRanks();
    Stays(s);
    var s1 := s.(pcs := [Submit(A), Get], got := {0});
    assert Act(s, 0, 2) == s1;
    Acts(s, s, 0);
    var s2 := s1.(puts := Putters(multiset{C}, multiset{}, false));
    Puts(s, s1, s2, C);
    var s3 := s2.(pcs := [Submit(A), Clear(A)], got := {}, queue := [B], popped := [A], taken := true, last := 1);
    assert {0} + {1} == {0, 1} && [A, B][1..] == [B];
    assert Act(s2, 1, 2) == s3;
    Acts(s, s2, 1);
    var s4 := s3.(puts := POLLED);
    Puts(s, s3, s4, C);
    assert Act(s4, 1, 2) == s4.(pcs := [Submit(A), Submit(A)], signal := 0);
    Acts(s, s4, 1);
  }

  lemma Second()
    ensures Leads(FirstRound(), SecondRound())
  {
    hide Leads;
    var s := FirstRound();
    Announced(s);
    var s1 := s.(pcs := [Read, Read], signal := 1, side := true, branch := true, taken := false);
    Found(s1);
    var s2 := s1.(pcs := [Get, Get]);
    Joined(s, s1, s2);
    SecondReads(s2);
    var s3 := s2.(pcs := [Submit(B), Submit(B)], queue := [B, C], got := {1}, puts := OVERTOOK);
    Joined(s, s2, s3);
    Submitted2(s3, B, B);
    assert [A] + [B] == [A, B];
    Joined(s, s3, SecondRound());
  }

  /** C is appended between the reads of the two ranks. */
  lemma SecondReads(s: State)
    requires s == FirstRound().(pcs := [Get, Get], signal := 1, side := true, taken := false)
    ensures Leads(s, s.(pcs := [Submit(B), Submit(B)], queue := [B, C], got := {1}, puts := OVERTOOK))
  {
    hide Leads;
    TwoRanks();
    Stays(s);
    var s1 := s.(pcs := [Submit(B), Get], got := {0});
    assert Act(s, 0, 2) == s1;
    Acts(s, s, 0);
    var s2 := s1.(got := {}, queue := [B, C], puts := OVERTOOK);
    Puts(s, s1, s2, C);
    var s3 := s2.(pcs := [Submit(B), Submit(B)], got := {1});
    assert Act(s2, 1, 2) == s3;
    Acts(s, s2, 1);
  }

  // ---------- the third round ----------

  /** What the third round starts with: both ranks are about to read the signal. */
  function ThirdRound(): State {
    SecondRound().(pcs := [Read, Read], side := true)
  }

  lemma Third()
    ensures Leads(Start(), ThirdRound())
  {
    hide Leads;
    First();
    Second();
    Joined(Start(), FirstRound(), SecondRound());
    Announced(SecondRound());
    Joined(Start(), SecondRound(), ThirdRound());
  }

  /** Rank 0 takes B a second time while rank 1 takes C. */
  function Apart(): State {
    ThirdRound().(pcs := [Clear(B), Submit(C)], queue := [C], got := {1}, popped := [A, B], taken := true, last := 0)
  }

  lemma ComeApart()
    ensures Leads(Start(), Apart())
  {
    hide Leads;
    TwoRanks();
    Third();
    var s := ThirdRound();
    Found(s);
    var s1 := s.(pcs := [Get, Get]);
    var s2 := s1.(pcs := [Clear(B), Get], queue := [C], got := {}, popped := [A, B], taken := true, last := 0);
    assert {1} + {0} == {0, 1} && [B, C][1..] == [C];
    assert Act(s1, 0, 2) == s2;
    Acts(s, s1, 0);
    assert Act(s2, 1, 2) == Apart();
    Acts(s, s2, 1);
    Joined(Start(), s, Apart());
  }

  /** Rank 0 takes B and clears the signal; rank 1 then finds it cleared.  Each waits at
      a barrier the other will not come to. */
  function Stuck(): State {
    ThirdRound().(
      pcs := [InB(2), InB(1)], barriers := [EMPTY, Barrier({1}, {}, false), Barrier({0}, {}, false)],
      signal := 0, queue := [C], got := {}, popped := [A, B], given := [[A, B, B], [A, B]], taken := true, last := 0)
  }

  lemma GetStuck()
    ensures Leads(Start(), Stuck())
  {
    hide Leads;
    TwoRanks();
    Third();
    var s := ThirdRound();
    Stays(s);
    var s1 := s.(pcs := [Get, Read]);
    assert Act(s, 0, 2) == s1;
    Acts(s, s, 0);
    var s2 := s1.(pcs := [Clear(B), Read], queue := [C], got := {}, popped := [A, B], taken := true, last := 0);
    assert {1} + {0} == {0, 1} && [B, C][1..] == [C];
    assert Act(s1, 0, 2) == s2;
    Acts(s, s1, 0);
    var s3 := s2.(pcs := [Submit(B), Read], signal := 0);
    assert Act(s2, 0, 2) == s3;
    Acts(s, s2, 0);
    StuckEnd(s3);
    Joined(s, s3, Stuck());
    Joined(Start(), s, Stuck());
  }

  lemma StuckEnd(s: State)
    requires s == ThirdRound().(pcs := [Submit(B), Read], signal := 0, queue := [C], got := {}, popped := [A, B],
                                taken := true, last := 0)
    ensures Leads(s, Stuck())
  {
    hide Leads;
    TwoRanks();
    Stays(s);
    var s4 := s.(pcs := [AtB(2), Read], given := [[A, B, B], [A, B]]);
    assert [A, B] + [B] == [A, B, B] && {} + {0} == {0} && {} + {1} == {1} && 0 !in {1} && 1 !in {0};
    assert Act(s, 0, 2) == s4;
    Acts(s, s, 0);
    var s5 := s4.(pcs := [InB(2), Read], barriers := [EMPTY, EMPTY, Barrier({0}, {}, false)]);
    assert Act(s4, 0, 2) == s5;
    Acts(s, s4, 0);
    var s6 := s5.(pcs := [InB(2), AtB(1)]);
    assert Act(s5, 1, 2) == s6;
    Acts(s, s5, 1);
    assert Act(s6, 1, 2) == Stuck();
    Acts(s, s6, 1);
  }

  // ---------- as runs of the whole system ----------

  /** A stretch of the main loops from their start is a run in which no worker moves. */
  lemma LoopsAlone(t: State) returns (run: seq<System>)
    requires Leads(Start(), t)
    ensures IsRun(run, 2) && run[|run| - 1].loop == t
  {
    hide Next;
    var loops :| IsStretch(loops, Start(), t);
    var pool := Pool([Idle, Idle], EMPTY, EMPTY, [0, 0], false, 0, []);
    run := seq(|loops|, i requires 0 <= i < |loops| => System(loops[i], pool, pool));
    StartIsInit(pool);
    forall i | 0 < i < |run| ensures SystemNext(run[i - 1], run[i], 2) {
      assert Next(loops[i - 1], loops[i], 2);
    }
  }

  lemma StartIsInit(pool: Pool)
    requires pool == Pool([Idle, Idle], EMPTY, EMPTY, [0, 0], false, 0, [])
    ensures Init(Start(), 2) && PoolInit(pool, 2)
  {
    assert seq(2, _ => Top) == [Top, Top] && seq(2, _ => Idle) == [Idle, Idle];
    assert seq<seq<Task>>(2, _ => []) == [[], []] && seq<nat>(2, _ => 0) == [0, 0];
  }

  /** When an append overtakes a read, the ranks need not stay in step: there is a run in
      which rank 0 takes the same task twice and then holds another one than rank 1. */
  lemma OvertakenComesApart() returns (run: seq<System>)
    ensures IsRun(run, 2)
    ensures var s := run[|run| - 1].loop;
      s.pcs == [Clear(B), Submit(C)] && s.given == [[A, B], [A, B]] && s.puts.overtaken
  {
    ComeApart();
    run := LoopsAlone(Apart());
  }

  /** And there is one in which both wait for ever, at different barriers. */
  lemma OvertakenGetsStuck() returns (run: seq<System>)
    ensures IsRun(run, 2)
    ensures var s := run[|run| - 1].loop;
      |s.pcs| == 2 && |s.barriers| == 3 && s.puts.overtaken && forall r: nat :: r < 2 ==> !Enabled(s, r)
  {
    GetStuck();
    run := LoopsAlone(Stuck());
  }
}
