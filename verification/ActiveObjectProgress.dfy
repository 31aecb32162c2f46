/** No interleaving deadlocks, and every step that is not a spurious wakeup uses up a finite measure. */
module ActiveObjectProgress {
  import opened Arith
  import opened ActiveObject
  import opened ActiveObjectProtocol

  // ----- Deadlock freedom -----

  /** The first stage whose thread is still running is never asleep. */
  lemma FirstRunningStage(c: Config, s: State, k: nat)
    requires Inv(c, s) && !s.main.Feed? && k <= c.Last()
    requires forall j :: 0 <= j < k ==> s.stages[j].pc.Done?
    requires !s.stages[k].pc.Done?
    ensures ThreadReady(c, s, k)
  {
    assert Orderly(c, s, k);
    if k > 0 {
      assert Linked(c, s, k - 1) && Orderly(c, s, k - 1);
    }
    if s.stages[k].pc.Call? {
      CallReady(c, s, k);
    }
  }

  /** The number a stage works on has been stored. */
  lemma {:induction false} ReceivedIsStored(c: Config, s: State, k: nat, i: nat)
    requires Inv(c, s) && 1 <= k <= c.Last() && i < |c.nums| && i < |s.stages[k].received|
    ensures i < Stored(c, s.stages[0])
    decreases k
  {
    assert Linked(c, s, k - 1) && Orderly(c, s, k - 1) && Orderly(c, s, k);
    if k > 1 {
      ReceivedIsStored(c, s, k - 1, i);
    }
  }

  lemma CallReady(c: Config, s: State, k: nat)
    requires Inv(c, s) && k <= c.Last() && s.stages[k].pc.Call?
    ensures ThreadReady(c, s, k)
  {
    assert Orderly(c, s, k);
    ReceivedIsStored(c, s, k, |s.stages[k].taken| - 1);
  }

  lemma {:induction false} SomeoneCanMove(c: Config, s: State, k: nat) returns (a: Actor)
    requires Inv(c, s) && !s.main.Feed? && !s.main.Finished? && k <= c.Last() + 1
    requires forall j :: 0 <= j < k ==> s.stages[j].pc.Done?
    ensures !a.Spurious? && Enabled(c, s, a)
    decreases c.Last() + 1 - k
  {
    if k == c.Last() + 1 {
      a := MainThread;
    } else if s.stages[k].pc.Done? {
      a := SomeoneCanMove(c, s, k + 1);
    } else {
      FirstRunningStage(c, s, k);
      a := Thread(k);
    }
  }

  /** While the program has not ended, some thread can take a step that is not a spurious wakeup. */
  lemma DeadlockFree(c: Config, s: State) returns (a: Actor)
    requires Inv(c, s) && !s.main.Finished?
    ensures !a.Spurious? && Enabled(c, s, a)
  {
    if s.main.Feed? {
      a := MainThread;
    } else {
      a := SomeoneCanMove(c, s, 0);
    }
  }

  /**
   * In every reachable state a thread is held up exactly by an empty queue on which it sleeps, and the main
   * thread exactly by a thread it joins; every sleeper may wake spuriously, and that is all it does.
   */
  lemma EnabledExactly(c: Config, s: State, a: Actor)
    requires Inv(c, s)
    ensures a.Thread? ==>
              (Enabled(c, s, a) <==> a.k < |s.stages| && !s.stages[a.k].pc.Asleep? && !s.stages[a.k].pc.Done?)
    ensures a.Spurious? ==> (Enabled(c, s, a) <==> a.k < |s.stages| && s.stages[a.k].pc.Asleep?)
    ensures a.MainThread? ==>
              (Enabled(c, s, a) <==>
               !s.main.Finished? && (s.main.Join? || s.main.Stop? ==> s.stages[s.main.k].pc.Done?))
    ensures a.Spurious? && Enabled(c, s, a) ==>
              Step(c, s, a) == s.(stages := s.stages[a.k := s.stages[a.k].(pc := Check)])
  {
    if !a.MainThread? && a.k <= c.Last() {
      assert Orderly(c, s, a.k);
      if s.stages[a.k].pc.Call? { CallReady(c, s, a.k); }
    }
  }

  // ----- The main thread -----

  /** How far the main thread has come: 0 is `Feed`. */
  function MainRank(c: Config, main: MainPC): nat {
    match main
    case Feed => 0
    case Join(k) => 1 + k
    case Stop(k) => c.Last() + 2 + k
    case Finished => 2 * c.Last() + 3
  }

  lemma MainAdvances(c: Config, s: State, a: Actor)
    requires Inv(c, s)
    ensures MainRank(c, Step(c, s, a).main) ==
            MainRank(c, s.main) + (if a.MainThread? && Enabled(c, s, a) then 1 else 0)
  {
  }

  /** The step of `schedule` at which the main thread leaves the state `main`. */
  ghost predicate LeavesAt(c: Config, s: State, schedule: seq<Actor>, main: MainPC, m: nat)
    requires WellFormed(c, s)
  {
    && m < |schedule| && schedule[m] == MainThread && Run(c, s, schedule[..m]).main == main
    && Enabled(c, Run(c, s, schedule[..m]), MainThread)
  }

  lemma {:induction false} MainMonotone(c: Config, s: State, schedule: seq<Actor>)
    requires Inv(c, s)
    ensures MainRank(c, Run(c, s, schedule).main) >= MainRank(c, s.main)
    decreases |schedule|
  {
    if schedule != [] {
      MainAdvances(c, s, schedule[0]);
      StepInv(c, s, schedule[0]);
      MainMonotone(c, Step(c, s, schedule[0]), schedule[1..]);
    }
  }

  lemma {:induction false} MainPassesThrough(c: Config, s: State, schedule: seq<Actor>, main: MainPC) returns (m: nat)
    requires Inv(c, s) && !main.Finished? && (main.Join? || main.Stop? ==> main.k <= c.Last())
    requires MainRank(c, s.main) <= MainRank(c, main) && Run(c, s, schedule).main.Finished?
    ensures LeavesAt(c, s, schedule, main, m)
    decreases |schedule|
  {
    var a := schedule[0];
    MainAdvances(c, s, a);
    if a.MainThread? && Enabled(c, s, a) && s.main == main {
      m := 0;
    } else {
      StepInv(c, s, a);
      m := MainPassesThrough(c, Step(c, s, a), schedule[1..], main);
      m := m + 1;
      assert schedule[..m][0] == a && schedule[..m][1..] == schedule[1..][..m - 1];
    }
  }

  /** What the main thread left at one step it has behind it at every later step. */
  lemma LeavesOnce(c: Config, s: State, schedule: seq<Actor>, one: MainPC, two: MainPC, m: nat, n: nat)
    requires Inv(c, s) && LeavesAt(c, s, schedule, one, m) && LeavesAt(c, s, schedule, two, n) && m < n
    ensures MainRank(c, one) < MainRank(c, two)
  {
    var first := Run(c, s, schedule[..m]);
    RunInv(c, s, schedule[..m]);
    assert schedule[..n] == schedule[..m] + schedule[m..n];
    RunAppend(c, s, schedule[..m], schedule[m..n]);
    assert schedule[m..n][0] == MainThread;
    MainAdvances(c, first, MainThread);
    StepInv(c, first, MainThread);
    MainMonotone(c, Step(c, first, MainThread), schedule[m..n][1..]);
  }

  /** The main thread moves at step `m` of `schedule`. */
  ghost predicate MainMoves(c: Config, schedule: seq<Actor>, m: nat) {
    && m < |schedule| && schedule[m] == MainThread
    && Enabled(c, Run(c, Initial(c), schedule[..m]), MainThread)
  }

  /** The state in which the main thread is when it moves at step `m`. */
  function MainAt(c: Config, schedule: seq<Actor>, m: nat): MainPC
    requires m <= |schedule|
  {
    Run(c, Initial(c), schedule[..m]).main
  }

  /**
   * In every finished run the main thread has handed out the argument block once, then joined every thread
   * once in the order of the stages, and then stopped every object once in that order: `at[r]` is the step
   * at which it did the `r`-th of these, and it did nothing else.
   */
  lemma MainInTurn(c: Config, schedule: seq<Actor>) returns (at: seq<nat>)
    requires c.Valid() && Run(c, Initial(c), schedule).main.Finished?
    ensures |at| == 2 * |c.programs| + 3 && forall r :: 0 <= r < |at| - 1 ==> at[r] < at[r + 1]
    ensures forall m: nat :: MainMoves(c, schedule, m) <==> m in at
    ensures forall r :: 0 <= r < |at| ==> at[r] < |schedule| && MainMoves(c, schedule, at[r])
    ensures MainAt(c, schedule, at[0]) == Feed
    ensures forall k :: 0 <= k <= |c.programs| ==> MainAt(c, schedule, at[1 + k]) == Join(k)
    ensures forall k :: 0 <= k <= |c.programs| ==> MainAt(c, schedule, at[|c.programs| + 2 + k]) == Stop(k)
  {
    InitialInv(c);
    at := MainSteps(c, schedule, 2 * |c.programs| + 3);
    hide Run, Inv, Enabled, Initial;
    forall r | 0 <= r < |at|
      ensures MainMoves(c, schedule, at[r]) && MainAt(c, schedule, at[r]) == MainOf(c, r)
    {
      assert LeavesAt(c, Initial(c), schedule, MainOf(c, r), at[r]);
    }
    forall m: nat | MainMoves(c, schedule, m)
      ensures m in at
    {
      MovesOnlyThere(c, schedule, at, m);
    }
    forall k | 0 <= k <= |c.programs|
      ensures MainAt(c, schedule, at[1 + k]) == Join(k) && MainAt(c, schedule, at[|c.programs| + 2 + k]) == Stop(k)
    {
      assert MainOf(c, 1 + k) == Join(k) && MainOf(c, |c.programs| + 2 + k) == Stop(k);
    }
  }

  lemma MovesOnlyThere(c: Config, schedule: seq<Actor>, at: seq<nat>, m: nat)
    requires Inv(c, Initial(c)) && |at| == 2 * c.Last() + 3 && MainMoves(c, schedule, m)
    requires forall r :: 0 <= r < |at| ==> LeavesAt(c, Initial(c), schedule, MainOf(c, r), at[r])
    ensures m in at
  {
    var main := MainAt(c, schedule, m);
    RunInv(c, Initial(c), schedule[..m]);
    var r := MainRank(c, main);
    assert MainOf(c, r) == main && LeavesAt(c, Initial(c), schedule, main, m);
    hide Inv, Run;
    if m < at[r] {
      LeavesOnce(c, Initial(c), schedule, main, main, m, at[r]);
    } else if at[r] < m {
      LeavesOnce(c, Initial(c), schedule, main, main, at[r], m);
    }
  }

  /** The state of the main thread with rank `r`. */
  function MainOf(c: Config, r: nat): MainPC {
    if r == 0 then Feed
    else if r <= c.Last() + 1 then Join(r - 1)
    else if r <= 2 * c.Last() + 2 then Stop(r - c.Last() - 2)
    else Finished
  }

  lemma {:induction false} MainSteps(c: Config, schedule: seq<Actor>, count: nat) returns (at: seq<nat>)
    requires Inv(c, Initial(c)) && Run(c, Initial(c), schedule).main.Finished? && count <= 2 * c.Last() + 3
    ensures |at| == count
    ensures forall r :: 0 <= r < count ==> LeavesAt(c, Initial(c), schedule, MainOf(c, r), at[r])
    ensures forall r :: 0 <= r < count - 1 ==> at[r] < at[r + 1]
  {
    if count == 0 {
      at := [];
    } else {
      var before := MainSteps(c, schedule, count - 1);
      var m := MainPassesThrough(c, Initial(c), schedule, MainOf(c, count - 1));
      at := before + [m];
      if count > 1 {
        var last := before[count - 2];
        if m < last { LeavesOnce(c, Initial(c), schedule, MainOf(c, count - 1), MainOf(c, count - 2), m, last); }
      }
    }
  }

  // ----- Termination -----

  /** The steps left in the current round of the loop of `run`. */
  function RoundRank(c: Config, k: nat, pc: PC): int {
    match pc
    case Produce(i, written) => 2 * (|c.nums| - i) + (if written then 1 else 2)
    case Call(_, ip) => (if 1 <= k <= c.Last() then |c.programs[k - 1]| else 0) - ip + 2
    case Forward(_) => 1
    case PassNull => 1
    case _ => 0
  }

  /** An upper bound on the steps of one round. */
  function RoundCost(c: Config, k: nat): nat {
    if k == 0 then 2 * |c.nums| + 3 else if k <= c.Last() then |c.programs[k - 1]| + 3 else 0
  }

  /** Three for each step left, and one for a thread that may still fall asleep. */
  function Weight(c: Config, k: nat, st: Stage): int {
    3 * ((|Stream(c, k)| - |st.taken|) * RoundCost(c, k) + RoundRank(c, k, st.pc)) + (if st.pc.Check? then 1 else 0)
  }

  function TotalWeight(c: Config, stages: seq<Stage>, count: nat): int
    requires count <= |stages|
  {
    if count == 0 then 0 else TotalWeight(c, stages, count - 1) + Weight(c, count - 1, stages[count - 1])
  }

  function MainWeight(c: Config, main: MainPC): int {
    match main
    case Feed => 4 * c.Last() + 8
    case Join(k) => 2 * (c.Last() + 1 - k) + 2 * (c.Last() + 1)
    case Stop(k) => 2 * (c.Last() + 1 - k)
    case Finished => 0
  }

  function Measure(c: Config, s: State): int
    requires WellFormed(c, s)
  {
    MainWeight(c, s.main) + TotalWeight(c, s.stages, |s.stages|)
  }

  lemma WeightNonNegative(c: Config, k: nat, st: Stage)
    requires k <= c.Last() && StageOK(c, k, st)
    ensures Weight(c, k, st) >= 0
  {
    MulMono(0, |Stream(c, k)| - |st.taken|, RoundCost(c, k));
  }

  lemma {:induction false} TotalNonNegative(c: Config, s: State, count: nat)
    requires Inv(c, s) && count <= |s.stages|
    ensures TotalWeight(c, s.stages, count) >= 0
  {
    if count > 0 {
      TotalNonNegative(c, s, count - 1);
      assert Orderly(c, s, count - 1);
      WeightNonNegative(c, count - 1, s.stages[count - 1]);
    }
  }

  lemma {:induction false} TotalUpdate(c: Config, stages: seq<Stage>, k: nat, st: Stage, count: nat)
    requires k < |stages| && count <= |stages|
    ensures TotalWeight(c, stages[k := st], count) ==
            TotalWeight(c, stages, count) + (if k < count then Weight(c, k, st) - Weight(c, k, stages[k]) else 0)
  {
    if count > 0 {
      TotalUpdate(c, stages, k, st, count - 1);
    }
  }

  lemma PushWeight(c: Config, k: nat, st: Stage, t: Task)
    ensures Weight(c, k, Push(st, t)) <= Weight(c, k, st) + 1
  {
  }

  lemma DequeueWeight(c: Config, k: nat, st: Stage)
    requires k <= c.Last() && st.pc.Check? && (st.queue == [] || st.queue[0] == Null || k > 0 || st.queue[0] == Args)
    ensures Weight(c, k, Dequeue(c, k, st)) < Weight(c, k, st)
  {
    if st.queue != [] {
      Distribute(|Stream(c, k)| - |st.taken|, -1, RoundCost(c, k));
    }
  }

  /** What stage `k` itself loses by moving to `pc`, before the wakeup it may cause. */
  lemma OwnWeight(c: Config, k: nat, st: Stage, pc: PC)
    requires RoundRank(c, k, pc) < RoundRank(c, k, st.pc)
    ensures Weight(c, k, st.(pc := pc)) <= Weight(c, k, st) - 2
  {
  }

  lemma HandDecreases(c: Config, s: State, k: nat, pc: PC, t: Task)
    requires WellFormed(c, s) && k < c.Last()
    requires RoundRank(c, k, pc) < RoundRank(c, k, s.stages[k].pc)
    ensures Measure(c, Hand(c, s, k, pc, t)) < Measure(c, s)
  {
    var st := s.stages[k].(pc := pc);
    OwnWeight(c, k, s.stages[k], pc);
    PushWeight(c, k + 1, s.stages[k + 1], t);
    TotalUpdate(c, s.stages, k, st, |s.stages|);
    TotalUpdate(c, s.stages[k := st], k + 1, Push(s.stages[k + 1], t), |s.stages|);
  }

  lemma LocalDecreases(c: Config, s: State, k: nat, st: Stage, s': State)
    requires WellFormed(c, s) && k <= c.Last()
    requires Weight(c, k, st) < Weight(c, k, s.stages[k])
    requires s'.stages == s.stages[k := st] && s'.main == s.main
    ensures Measure(c, s') < Measure(c, s)
  {
    TotalUpdate(c, s.stages, k, st, |s.stages|);
  }

  lemma ThreadStepDecreases(c: Config, s: State, k: nat)
    requires Inv(c, s) && ThreadReady(c, s, k)
    ensures Measure(c, ThreadStep(c, s, k)) < Measure(c, s)
  {
    var st, s' := s.stages[k], ThreadStep(c, s, k);
    assert Orderly(c, s, k);
    if st.pc.Forward? {
      HandDecreases(c, s, k, Check, st.pc.task);
    } else if st.pc.PassNull? {
      HandDecreases(c, s, k, Done, Null);
    } else if st.pc.Produce? && st.pc.written {
      HandDecreases(c, s, k, Produce(st.pc.i + 1, false), Num(st.pc.i));
    } else if st.pc.Check? {
      assert st.queue != [] ==> st.received[|st.taken|] == st.queue[0];
      DequeueWeight(c, k, st);
      LocalDecreases(c, s, k, Dequeue(c, k, st), s');
    } else if st.pc.Produce? && st.pc.i == |c.nums| {
      LocalDecreases(c, s, k, Push(st.(pc := Check), Null), s');
    } else {
      OwnWeight(c, k, st, s'.stages[k].pc);
      LocalDecreases(c, s, k, s'.stages[k], s');
    }
  }

  /** Every step but a spurious wakeup decreases the measure; a spurious wakeup costs one. */
  lemma StepDecreases(c: Config, s: State, a: Actor)
    requires Inv(c, s) && Enabled(c, s, a)
    ensures 0 <= Measure(c, Step(c, s, a))
    ensures !a.Spurious? ==> Measure(c, Step(c, s, a)) < Measure(c, s)
    ensures a.Spurious? ==> Measure(c, Step(c, s, a)) == Measure(c, s) + 1
  {
    StepInv(c, s, a);
    var s' := Step(c, s, a);
    TotalNonNegative(c, s', |s'.stages|);
    match a {
      case MainThread =>
        if s.main.Feed? {
          PushWeight(c, 0, s.stages[0], Args);
          TotalUpdate(c, s.stages, 0, Push(s.stages[0], Args), |s.stages|);
        }
      case Thread(k) => ThreadStepDecreases(c, s, k);
      case Spurious(k) => TotalUpdate(c, s.stages, k, s.stages[k].(pc := Check), |s.stages|);
    }
  }

  /** How many actors of the schedule moved, spurious wakeups not counted. */
  ghost function Moves(c: Config, s: State, schedule: seq<Actor>): nat
    requires WellFormed(c, s)
    decreases |schedule|
  {
    if schedule == [] then 0
    else (if Enabled(c, s, schedule[0]) && !schedule[0].Spurious? then 1 else 0)
         + Moves(c, Step(c, s, schedule[0]), schedule[1..])
  }

  /** How many spurious wakeups happened. */
  ghost function Wakeups(c: Config, s: State, schedule: seq<Actor>): nat
    requires WellFormed(c, s)
    decreases |schedule|
  {
    if schedule == [] then 0
    else (if Enabled(c, s, schedule[0]) && schedule[0].Spurious? then 1 else 0)
         + Wakeups(c, Step(c, s, schedule[0]), schedule[1..])
  }

  /** No run is longer than its initial measure and its spurious wakeups allow. */
  lemma {:induction false} RunIsBounded(c: Config, s: State, schedule: seq<Actor>)
    requires Inv(c, s)
    ensures Moves(c, s, schedule) <= Measure(c, s) + Wakeups(c, s, schedule)
    decreases |schedule|
  {
    if schedule == [] {
      TotalNonNegative(c, s, |s.stages|);
    } else {
      var a := schedule[0];
      StepInv(c, s, a);
      if Enabled(c, s, a) { StepDecreases(c, s, a); }
      RunIsBounded(c, Step(c, s, a), schedule[1..]);
    }
  }

  /** From every state a run can reach, the program can still run to its end without spurious wakeups. */
  lemma {:induction false} CanFinish(c: Config, s: State) returns (rest: seq<Actor>)
    requires Inv(c, s)
    ensures Run(c, s, rest).main.Finished?
    ensures forall a :: a in rest ==> !a.Spurious?
    ensures |rest| <= Measure(c, s)
    decreases Measure(c, s)
  {
    TotalNonNegative(c, s, |s.stages|);
    if s.main.Finished? {
      rest := [];
    } else {
      var a := DeadlockFree(c, s);
      StepDecreases(c, s, a);
      StepInv(c, s, a);
      var tail := CanFinish(c, Step(c, s, a));
      rest := [a] + tail;
      assert rest[1..] == tail;
    }
  }

}
