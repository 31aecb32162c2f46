/**
 * The program as written passes `&num`, the address of one local variable, for every number.
 * It shows what it should, whatever the numbers, if and only if every instruction of a stage
 * function works on the number that was stored last, and does so before the function that owns
 * the variable has returned. A generator that waits until the other stages are idle, which is
 * what its `sleep(1)` is for, ensures that.
 */
module SharedCell {
  import opened ActiveObject
  import opened ActiveObjectProtocol
  import opened ActiveObjectData
  import Progress = ActiveObjectProgress
  import Results = ActiveObjectResults

  function Shared(c: Config, leftover: int): Config { c.(memory := OneVariable(leftover)) }

  function Renumbered(c: Config, nums: seq<int>): Config { c.(nums := nums) }

  /** The thread of stage `k` is about to execute an instruction of its stage function. */
  predicate Executing(c: Config, s: State, k: nat)
    requires WellFormed(c, s)
  {
    ThreadReady(c, s, k) && s.stages[k].pc.Call? && s.stages[k].pc.ip < |c.programs[k - 1]|
  }

  /**
   * If the actor is about to execute an instruction, it works on the number that was stored last, and
   * the generator is still in the function that owns the variable.
   */
  predicate OnTime(c: Config, s: State, a: Actor)
    requires WellFormed(c, s)
  {
    a.Thread? && Executing(c, s, a.k) ==>
      s.stages[0].pc.Produce? && s.stages[a.k].pc.task.id + 1 == Stored(c, s.stages[0])
  }

  /** No stage is late: in the run of `schedule` every instruction works on the newest number, while it is there. */
  predicate Timely(c: Config, s: State, schedule: seq<Actor>)
    requires WellFormed(c, s)
    decreases |schedule|
  {
    schedule == [] || (OnTime(c, s, schedule[0]) && Timely(c, Step(c, s, schedule[0]), schedule[1..]))
  }

  // ----- In a timely run one variable is as good as a cell per number -----

  /**
   * `h`, with one variable, and `s`, with a cell per number, differ in memory only. While the generator is
   * in its function, the variable holds the value of the newest cell.
   */
  ghost predicate Simulates(c: Config, leftover: int, h: State, s: State) {
    && !c.Shared() && Inv(c, s) && Inv(Shared(c, leftover), h)
    && h.stages == s.stages && h.stdout == s.stdout && h.main == s.main
    && (!Closed(s.stages[0]) ==> h.cells == if s.cells == [] then [] else [s.cells[|s.cells| - 1]])
  }

  /** An instruction on the newest number does to the variable what it does to the number's own cell. */
  lemma ExecuteSame(c: Config, leftover: int, h: State, s: State, k: nat)
    requires Simulates(c, leftover, h, s) && k <= c.Last() && s.stages[k].pc.Call?
    requires OnTime(Shared(c, leftover), h, Thread(k))
    ensures Simulates(c, leftover, Step(Shared(c, leftover), h, Thread(k)), Step(c, s, Thread(k)))
  {
    StepInv(c, s, Thread(k));
    StepInv(Shared(c, leftover), h, Thread(k));
    Progress.CallReady(c, s, k);
    Progress.CallReady(Shared(c, leftover), h, k);
  }

  /** A step that neither runs a stage function nor is one of the generator on its variable does not look at memory. */
  lemma MemoryUnread(c: Config, leftover: int, h: State, s: State, k: nat)
    requires WellFormed(c, s) && ThreadReady(c, s, k)
    requires h.stages == s.stages && h.stdout == s.stdout && h.main == s.main
    requires !s.stages[k].pc.Call? && !(s.stages[k].pc.Produce? && !s.stages[k].pc.written)
    ensures WellFormed(Shared(c, leftover), h) && ThreadReady(Shared(c, leftover), h, k)
    ensures ThreadStep(Shared(c, leftover), h, k) == ThreadStep(c, s, k).(cells := h.cells)
    ensures ThreadStep(c, s, k).cells == s.cells
  {
    assert h == s.(cells := h.cells);
  }

  lemma StepSimulates(c: Config, leftover: int, h: State, s: State, a: Actor)
    requires Simulates(c, leftover, h, s) && OnTime(Shared(c, leftover), h, a)
    ensures Simulates(c, leftover, Step(Shared(c, leftover), h, a), Step(c, s, a))
  {
    StepInv(c, s, a);
    StepInv(Shared(c, leftover), h, a);
    if a.Thread? && a.k <= c.Last() && s.stages[a.k].pc.Call? {
      ExecuteSame(c, leftover, h, s, a.k);
    } else if a.Thread? && ThreadReady(c, s, a.k) && !(s.stages[a.k].pc.Produce? && !s.stages[a.k].pc.written) {
      MemoryUnread(c, leftover, h, s, a.k);
    } else if a.Thread? {
      assert a.k <= c.Last() ==> Orderly(c, s, a.k);
    }
    StaysClosed(c, s, a);
  }

  /** Once the generator has returned from its function, it does not call it again. */
  lemma StaysClosed(c: Config, s: State, a: Actor)
    requires Inv(c, s)
    ensures Closed(s.stages[0]) ==> Closed(Step(c, s, a).stages[0])
    ensures Stored(c, Step(c, s, a).stages[0]) >= Stored(c, s.stages[0])
  {
    var st := s.stages[0];
    assert Orderly(c, s, 0);
    assert st.queue != [] ==> st.received[|st.taken|] == st.queue[0];
  }

  lemma {:induction false} RunSimulates(c: Config, leftover: int, h: State, s: State, schedule: seq<Actor>)
    requires Simulates(c, leftover, h, s) && Timely(Shared(c, leftover), h, schedule)
    ensures Simulates(c, leftover, Run(Shared(c, leftover), h, schedule), Run(c, s, schedule))
    decreases |schedule|
  {
    if schedule != [] {
      StepSimulates(c, leftover, h, s, schedule[0]);
      RunSimulates(c, leftover, Step(Shared(c, leftover), h, schedule[0]), Step(c, s, schedule[0]), schedule[1..]);
    }
  }

  /** The program has ended, and every stage has shown its whole sequential output. */
  ghost predicate Complete(c: Config, h: State) {
    h.main.Finished? && forall k :: 1 <= k <= c.Last() ==> Shown(h.stdout, k) == Sequential(c, k, |c.nums|)
  }

  /** A timely run with one shared variable prints, step for step, what the run with a cell per number prints. */
  lemma SharedRefinesPrivate(c: Config, leftover: int, schedule: seq<Actor>)
    requires c.Valid() && !c.Shared() && Timely(Shared(c, leftover), Initial(Shared(c, leftover)), schedule)
    ensures var h, s := Run(Shared(c, leftover), Initial(Shared(c, leftover)), schedule), Run(c, Initial(c), schedule);
            && Simulates(c, leftover, h, s)
            && (forall k :: 1 <= k <= c.Last() ==> Shown(h.stdout, k) <= Sequential(c, k, |c.nums|))
            && (h.main.Finished? ==> Complete(c, h))
  {
    InitialInv(c);
    InitialInv(Shared(c, leftover));
    RunSimulates(c, leftover, Initial(Shared(c, leftover)), Initial(c), schedule);
    var h := Run(Shared(c, leftover), Initial(Shared(c, leftover)), schedule);
    forall k | 1 <= k <= c.Last()
      ensures Shown(h.stdout, k) <= Sequential(c, k, |c.nums|)
    {
      Results.ShownIsPrefix(c, schedule, k);
    }
    if h.main.Finished? {
      Results.FinishedRun(c, schedule);
    }
  }

  /** In a timely run with one variable, too, a stage has shown its lines for a number before the next one begins. */
  lemma SharedOutputInTurn(c: Config, leftover: int, schedule: seq<Actor>, m: nat, k: nat, i: nat)
    requires c.Valid() && !c.Shared() && 1 <= k < c.Last() && i < |c.nums|
    requires Timely(Shared(c, leftover), Initial(Shared(c, leftover)), schedule)
    requires m <= |Run(Shared(c, leftover), Initial(Shared(c, leftover)), schedule).stdout|
    ensures var shown := Run(Shared(c, leftover), Initial(Shared(c, leftover)), schedule).stdout[..m];
            |Shown(shown, k + 1)| > |Sequential(c, k + 1, i)| ==> |Shown(shown, k)| >= |Sequential(c, k, i + 1)|
  {
    SharedRefinesPrivate(c, leftover, schedule);
    Results.OutputInTurn(c, schedule, m, k, i);
  }

  // ----- What does not depend on the numbers -----

  /** Runs of the same chain on as many numbers agree on control, and on how many lines stage `k` has shown. */
  ghost predicate SameControl(c: Config, d: Config, s: State, u: State, k: nat) {
    && c.programs == d.programs && |c.nums| == |d.nums| && Inv(c, s) && Inv(d, u)
    && s.stages == u.stages && s.main == u.main && |Shown(s.stdout, k)| == |Shown(u.stdout, k)|
  }

  /** What an instruction shows, as far as stage `k` is concerned. */
  lemma ExecuteShows(c: Config, s: State, j: nat, k: nat)
    requires WellFormed(c, s) && Executing(c, s, j)
    ensures var st := s.stages[j];
            Shown(ThreadStep(c, s, j).stdout, k) ==
            Shown(s.stdout, k) +
            (if k == j then ApplyLines(c.programs[j - 1][st.pc.ip], s.cells[Address(c, st.pc.task)]) else [])
  {
    var st := s.stages[j];
    ShownTag(s.stdout, j, ApplyLines(c.programs[j - 1][st.pc.ip], s.cells[Address(c, st.pc.task)]), k);
  }

  lemma SameStep(c: Config, d: Config, s: State, u: State, k: nat, a: Actor)
    requires SameControl(c, d, s, u, k)
    ensures SameControl(c, d, Step(c, s, a), Step(d, u, a), k)
    ensures Enabled(c, s, a) == Enabled(d, u, a)
  {
    StepInv(c, s, a);
    StepInv(d, u, a);
    hide Inv, Shown;
    if a.Thread? && a.k <= c.Last() {
      SameReady(c, d, s, u, a.k);
      if ThreadReady(c, s, a.k) {
        hide ThreadStep, ThreadReady;
        SameThreadStep(c, d, s, u, a.k, k);
      }
    }
  }

  lemma SameThreadStep(c: Config, d: Config, s: State, u: State, j: nat, k: nat)
    requires c.programs == d.programs && |c.nums| == |d.nums| && s.stages == u.stages && s.main == u.main
    requires WellFormed(c, s) && ThreadReady(c, s, j) && ThreadReady(d, u, j)
    requires |Shown(s.stdout, k)| == |Shown(u.stdout, k)|
    ensures var s', u' := ThreadStep(c, s, j), ThreadStep(d, u, j);
            s'.stages == u'.stages && s'.main == u'.main && |Shown(s'.stdout, k)| == |Shown(u'.stdout, k)|
  {
    hide Shown;
    if Executing(c, s, j) {
      ExecuteShows(c, s, j, k);
      ExecuteShows(d, u, j, k);
    }
  }

  lemma SameReady(c: Config, d: Config, s: State, u: State, k: nat)
    requires c.programs == d.programs && |c.nums| == |d.nums| && Inv(c, s) && Inv(d, u)
    requires s.stages == u.stages && k <= c.Last()
    ensures ThreadReady(c, s, k) == ThreadReady(d, u, k)
  {
    if s.stages[k].pc.Call? {
      Progress.CallReady(c, s, k);
      Progress.CallReady(d, u, k);
    }
  }

  lemma {:induction false} SameRun(c: Config, d: Config, s: State, u: State, k: nat, schedule: seq<Actor>)
    requires SameControl(c, d, s, u, k)
    ensures SameControl(c, d, Run(c, s, schedule), Run(d, u, schedule), k)
    ensures c.Shared() == d.Shared() ==> Timely(c, s, schedule) == Timely(d, u, schedule)
    decreases |schedule|
  {
    if schedule != [] {
      SameStep(c, d, s, u, k, schedule[0]);
      SameRun(c, d, Step(c, s, schedule[0]), Step(d, u, schedule[0]), k, schedule[1..]);
    }
  }

  lemma SameFromStart(c: Config, d: Config, k: nat, schedule: seq<Actor>)
    requires c.Valid() && c.programs == d.programs && |c.nums| == |d.nums|
    ensures SameControl(c, d, Run(c, Initial(c), schedule), Run(d, Initial(d), schedule), k)
    ensures c.Shared() == d.Shared() ==> Timely(c, Initial(c), schedule) == Timely(d, Initial(d), schedule)
  {
    InitialInv(c);
    InitialInv(d);
    SameRun(c, d, Initial(c), Initial(d), k, schedule);
  }

  // ----- A late show cannot be right for every number -----

  /**
   * Once a number after number `i` is stored, or the generator has returned, nothing in the single
   * variable depends on number `i`.
   */
  ghost predicate Forgotten(c: Config, d: Config, h: State, g: State, i: nat) {
    && c.memory == d.memory && SameControl(c, d, h, g, 0)
    && (Stored(c, h.stages[0]) > i + 1 || Closed(h.stages[0]) ==> h.cells == g.cells)
  }

  lemma ForgottenStep(c: Config, d: Config, h: State, g: State, i: nat, a: Actor)
    requires c.Shared() && d.Shared() && Forgotten(c, d, h, g, i)
    requires forall j :: 0 <= j < |c.nums| && j != i ==> c.nums[j] == d.nums[j]
    ensures Forgotten(c, d, Step(c, h, a), Step(d, g, a), i)
  {
    SameStep(c, d, h, g, 0, a);
    if Enabled(c, h, a) && a.Thread? {
      assert Orderly(c, h, a.k) && Orderly(c, h, 0);
    }
  }

  lemma {:induction false} ForgottenRun(c: Config, d: Config, h: State, g: State, i: nat, schedule: seq<Actor>)
    requires c.Shared() && d.Shared() && Forgotten(c, d, h, g, i)
    requires forall j :: 0 <= j < |c.nums| && j != i ==> c.nums[j] == d.nums[j]
    ensures Forgotten(c, d, Run(c, h, schedule), Run(d, g, schedule), i)
    decreases |schedule|
  {
    if schedule != [] {
      ForgottenStep(c, d, h, g, i, schedule[0]);
      ForgottenRun(c, d, Step(c, h, schedule[0]), Step(d, g, schedule[0]), i, schedule[1..]);
    }
  }

  /**
   * Number `i` is in the hands of stage `k`, before one of its instructions, and a later number is stored
   * or the generator has returned.
   */
  predicate Late(c: Config, s: State, k: nat, i: nat)
    requires WellFormed(c, s)
  {
    1 <= k <= c.Last() && s.stages[k].pc.Call? && s.stages[k].pc.task == Num(i)
    && s.stages[k].pc.ip < |c.programs[k - 1]| && (Stored(c, s.stages[0]) > i + 1 || Closed(s.stages[0]))
  }

  /** Where a run first fails to be timely, some stage is late. */
  lemma {:induction false} FirstLate(c: Config, s: State, schedule: seq<Actor>) returns (m: nat, k: nat, i: nat)
    requires Inv(c, s) && !Timely(c, s, schedule)
    ensures m <= |schedule| && i < |c.nums| && Late(c, Run(c, s, schedule[..m]), k, i)
    decreases |schedule|
  {
    var a := schedule[0];
    if OnTime(c, s, a) {
      StepInv(c, s, a);
      m, k, i := FirstLate(c, Step(c, s, a), schedule[1..]);
      m := m + 1;
      assert schedule[..m][0] == a && schedule[..m][1..] == schedule[1..][..m - 1];
    } else {
      m, k, i := 0, a.k, s.stages[a.k].pc.task.id;
      assert Orderly(c, s, k);
      Progress.ReceivedIsStored(c, s, k, |s.stages[k].taken| - 1);
    }
  }

  lemma StaysLate(c: Config, s: State, a: Actor, k: nat, i: nat)
    requires Inv(c, s) && Late(c, s, k, i) && !(a == Thread(k) && s.stages[k].pc.ip == |c.programs[k - 1]| - 1)
    ensures Inv(c, Step(c, s, a)) && Late(c, Step(c, s, a), k, i)
  {
    StepInv(c, s, a);
    StaysClosed(c, s, a);
    hide Inv, Stored, Closed;
  }

  /** A stage that is late stays late until it executes the last instruction on its number. */
  lemma {:induction false} LastInstruction(c: Config, s: State, schedule: seq<Actor>, k: nat, i: nat) returns (m: nat)
    requires Inv(c, s) && Late(c, s, k, i) && Run(c, s, schedule).main.Finished?
    ensures m < |schedule| && schedule[m] == Thread(k) && Late(c, Run(c, s, schedule[..m]), k, i)
    ensures Run(c, s, schedule[..m]).stages[k].pc.ip == |c.programs[k - 1]| - 1
    decreases |schedule|
  {
    assert MainOK(c, s);
    var a := schedule[0];
    if a == Thread(k) && s.stages[k].pc.ip == |c.programs[k - 1]| - 1 {
      m := 0;
    } else {
      StaysLate(c, s, a, k, i);
      hide Inv, Step, Late;
      m := LastInstruction(c, Step(c, s, a), schedule[1..], k, i);
      m := m + 1;
      assert schedule[..m][0] == a && schedule[..m][1..] == schedule[1..][..m - 1];
    }
  }

  /** What stage `k` has shown is never taken back. */
  lemma {:induction false} ShownGrows(c: Config, s: State, schedule: seq<Actor>, k: nat)
    requires WellFormed(c, s)
    ensures Shown(s.stdout, k) <= Shown(Run(c, s, schedule).stdout, k)
    decreases |schedule|
  {
    if schedule != [] {
      var a := schedule[0];
      if a.Thread? && Executing(c, s, a.k) { ExecuteShows(c, s, a.k, k); }
      ShownGrows(c, Step(c, s, a), schedule[1..], k);
    }
  }

  /** With one variable the program shows what it should. */
  ghost predicate Right(c: Config, leftover: int, schedule: seq<Actor>) {
    forall k :: 1 <= k <= c.Last() ==>
      Shown(Run(Shared(c, leftover), Initial(Shared(c, leftover)), schedule).stdout, k) == Sequential(c, k, |c.nums|)
  }

  /** Every stage function ends by showing its number. */
  predicate EndsInShow(c: Config) {
    forall k :: 0 <= k < |c.programs| ==> |c.programs[k]| > 0 && !c.programs[k][|c.programs[k]| - 1].Add?
  }

  /** The lines that `show` prints for two different numbers differ. */
  lemma ShowsTell(show: Instr, v: int, w: int)
    requires !show.Add?
    ensures |ApplyLines(show, v)| == 1
    ensures ApplyLines(show, v) == ApplyLines(show, w) ==> v == w
  {
    if v != w {
      assert ApplyLines(show, v)[0] != ApplyLines(show, w)[0];
    }
  }

  /** A finished run that is right has shown the number's own value wherever it showed number `i`. */
  lemma RightShowsOwnValue(c: Config, leftover: int, schedule: seq<Actor>, m: nat, k: nat, i: nat)
    requires c.Valid() && !c.Shared() && EndsInShow(c) && Right(c, leftover, schedule)
    requires Run(Shared(c, leftover), Initial(Shared(c, leftover)), schedule).main.Finished?
    requires m < |schedule| && schedule[m] == Thread(k) && i < |c.nums|
    requires var h := Run(Shared(c, leftover), Initial(Shared(c, leftover)), schedule[..m]);
             Late(Shared(c, leftover), h, k, i) && h.stages[k].pc.ip == |c.programs[k - 1]| - 1
    ensures var h := Run(Shared(c, leftover), Initial(Shared(c, leftover)), schedule[..m]);
            |h.cells| > 0 && h.cells[0] == Handled(c, k, i)
  {
    var pre, b := schedule[..m], Shared(c, leftover);
    var h, s := Run(b, Initial(b), pre), Run(c, Initial(c), pre);
    var show := c.programs[k - 1][|c.programs[k - 1]| - 1];
    BothExecute(c, leftover, pre, k, i);
    SameFromStart(b, c, k, schedule);
    Results.FinishedRun(c, schedule);
    ShowStays(b, schedule, m, k);
    ShowStays(c, schedule, m, k);
    hide Run, Shown, Sequential, Inv, ThreadReady, Stored;
    ShowsTell(show, h.cells[0], s.cells[i]);
    LastOf(Shown(h.stdout, k), ApplyLines(show, h.cells[0]), Shown(s.stdout, k), ApplyLines(show, s.cells[i]),
           Shown(Run(b, Initial(b), schedule).stdout, k));
  }

  /** The run with one variable and the run with a cell per number are before the same instruction on number `i`. */
  lemma BothExecute(c: Config, leftover: int, pre: seq<Actor>, k: nat, i: nat)
    requires c.Valid() && !c.Shared() && i < |c.nums|
    requires var h := Run(Shared(c, leftover), Initial(Shared(c, leftover)), pre);
             Late(Shared(c, leftover), h, k, i) && h.stages[k].pc.ip == |c.programs[k - 1]| - 1
    ensures var h, s := Run(Shared(c, leftover), Initial(Shared(c, leftover)), pre), Run(c, Initial(c), pre);
            && Executing(Shared(c, leftover), h, k) && Executing(c, s, k) && h.stages == s.stages
            && |Shown(h.stdout, k)| == |Shown(s.stdout, k)|
            && |h.cells| > 0 && i < |s.cells| && s.cells[i] == Handled(c, k, i)
  {
    SameFromStart(Shared(c, leftover), c, k, pre);
    var h, s := Run(Shared(c, leftover), Initial(Shared(c, leftover)), pre), Run(c, Initial(c), pre);
    hide Run, Shown, Stored;
    Progress.CallReady(Shared(c, leftover), h, k);
    Progress.CallReady(c, s, k);
    hide Inv;
    OwnCellHandled(c, pre, k, i);
  }

  /** With a cell per number, number `i` has its due value in its cell when stage `k` is at its last instruction. */
  lemma OwnCellHandled(c: Config, pre: seq<Actor>, k: nat, i: nat)
    requires c.Valid() && !c.Shared() && i < |c.nums| && 1 <= k <= c.Last() && |c.programs[k - 1]| > 0
    requires var st := Run(c, Initial(c), pre).stages[k];
             st.pc == Call(Num(i), |c.programs[k - 1]| - 1)
    ensures var s := Run(c, Initial(c), pre);
            i < |s.cells| && s.cells[i] == Handled(c, k, i)
  {
    Results.ReachableData(c, pre);
    var s := Run(c, Initial(c), pre);
    hide Run, Shown, Sequential, Stored;
    assert CallOK(c, s, k) && Orderly(c, s, k);
  }

  /** The value of number `i` before the last instruction of stage `k`. */
  function Handled(c: Config, k: nat, i: nat): int
    requires 1 <= k <= c.Last() && i < |c.nums| && |c.programs[k - 1]| > 0
  {
    var program := c.programs[k - 1];
    RunValue(program[..|program| - 1], Arrival(c, k, i))
  }

  /** What step `m` of a run shows is still there at the end. */
  lemma ShowStays(c: Config, schedule: seq<Actor>, m: nat, k: nat)
    requires m < |schedule| && schedule[m] == Thread(k) && Executing(c, Run(c, Initial(c), schedule[..m]), k)
    ensures var s := Run(c, Initial(c), schedule[..m]);
            var pc := s.stages[k].pc;
            Shown(s.stdout, k) + ApplyLines(c.programs[k - 1][pc.ip], s.cells[Address(c, pc.task)]) <=
            Shown(Run(c, Initial(c), schedule).stdout, k)
  {
    var s, rest := Run(c, Initial(c), schedule[..m]), schedule[m..];
    assert schedule == schedule[..m] + rest && rest[0] == schedule[m];
    RunAppend(c, Initial(c), schedule[..m], rest);
    ShownGrows(c, Step(c, s, rest[0]), rest[1..], k);
    ExecuteShows(c, s, k, k);
  }

  lemma LastOf(a: seq<Line>, x: seq<Line>, b: seq<Line>, y: seq<Line>, all: seq<Line>)
    requires |a| == |b| && |x| == |y| == 1 && a + x <= all && b + y <= all
    ensures x == y
  {
    assert (a + x)[|a|] == all[|a|] && (b + y)[|a|] == all[|a|];
  }

  /** The same chain with another value for number `i`. */
  function OneOther(c: Config, i: nat, v: int): Config
    requires i < |c.nums|
  {
    Renumbered(c, c.nums[i := v])
  }

  // ----- Numbers keep their distance -----

  lemma {:induction false} RunValueShifts(program: seq<Instr>, v: int, w: int)
    ensures RunValue(program, v) - RunValue(program, w) == v - w
    decreases |program|
  {
    if program != [] { RunValueShifts(program[..|program| - 1], v, w); }
  }

  lemma {:induction false} ArrivalShifts(c: Config, d: Config, k: nat, i: nat)
    requires c.programs == d.programs && 1 <= k <= c.Last() + 1 && i < |c.nums| == |d.nums|
    ensures Arrival(c, k, i) - Arrival(d, k, i) == c.nums[i] - d.nums[i]
  {
    if k > 1 {
      ArrivalShifts(c, d, k - 1, i);
      RunValueShifts(c.programs[k - 2], Arrival(c, k - 1, i), Arrival(d, k - 1, i));
    }
  }

  lemma HandledShifts(c: Config, d: Config, k: nat, i: nat)
    requires c.programs == d.programs && 1 <= k <= c.Last() && i < |c.nums| == |d.nums| && |c.programs[k - 1]| > 0
    ensures Handled(c, k, i) - Handled(d, k, i) == c.nums[i] - d.nums[i]
  {
    var program := c.programs[k - 1];
    ArrivalShifts(c, d, k, i);
    RunValueShifts(program[..|program| - 1], Arrival(c, k, i), Arrival(d, k, i));
  }

  /** A finished run that is not timely is wrong for one of any two inputs that differ in one certain number only. */
  lemma UntimelyIsWrong(c: Config, leftover: int, schedule: seq<Actor>) returns (i: nat)
    requires c.Valid() && !c.Shared() && EndsInShow(c)
    requires Run(Shared(c, leftover), Initial(Shared(c, leftover)), schedule).main.Finished?
    requires !Timely(Shared(c, leftover), Initial(Shared(c, leftover)), schedule)
    ensures i < |c.nums|
    ensures forall v :: v != c.nums[i] ==>
              !Right(c, leftover, schedule) || !Right(OneOther(c, i, v), leftover, schedule)
  {
    var b := Shared(c, leftover);
    InitialInv(b);
    var n, k: nat;
    n, k, i := FirstLate(b, Initial(b), schedule);
    var h0 := Run(b, Initial(b), schedule[..n]);
    assert schedule == schedule[..n] + schedule[n..];
    RunAppend(b, Initial(b), schedule[..n], schedule[n..]);
    RunInv(b, Initial(b), schedule[..n]);
    var r := LastInstruction(b, h0, schedule[n..], k, i);
    var m := n + r;
    assert schedule[..m] == schedule[..n] + schedule[n..][..r];
    RunAppend(b, Initial(b), schedule[..n], schedule[n..][..r]);
    forall v | v != c.nums[i]
      ensures !Right(c, leftover, schedule) || !Right(OneOther(c, i, v), leftover, schedule)
    {
      if Right(c, leftover, schedule) && Right(OneOther(c, i, v), leftover, schedule) {
        TwoRights(c, leftover, OneOther(c, i, v), schedule, m, k, i);
      }
    }
  }

  /** `c` and `d` are the same chain on numbers that differ at most at `i`. */
  ghost predicate Twins(c: Config, d: Config, i: nat) {
    && c.Valid() && !c.Shared() && !d.Shared() && c.programs == d.programs
    && i < |c.nums| == |d.nums|
    && forall j :: 0 <= j < |c.nums| && j != i ==> c.nums[j] == d.nums[j]
  }

  lemma TwinsShow(c: Config, d: Config)
    requires c.programs == d.programs && EndsInShow(c)
    ensures EndsInShow(d)
  {
  }

  lemma TwoRights(c: Config, leftover: int, d: Config, schedule: seq<Actor>, m: nat, k: nat, i: nat)
    requires Twins(c, d, i) && EndsInShow(c)
    requires Run(Shared(c, leftover), Initial(Shared(c, leftover)), schedule).main.Finished?
    requires m < |schedule| && schedule[m] == Thread(k)
    requires var h := Run(Shared(c, leftover), Initial(Shared(c, leftover)), schedule[..m]);
             Late(Shared(c, leftover), h, k, i) && h.stages[k].pc.ip == |c.programs[k - 1]| - 1
    requires Right(c, leftover, schedule) && Right(d, leftover, schedule)
    ensures c.nums[i] == d.nums[i]
  {
    hide Run, Handled, Right, Late, EndsInShow;
    TwinsShow(c, d);
    SameFromStart(Shared(c, leftover), Shared(d, leftover), 0, schedule);
    TwinLate(c, leftover, d, schedule[..m], k, i);
    HandledShifts(c, d, k, i);
    RightShowsOwnValue(c, leftover, schedule, m, k, i);
    RightShowsOwnValue(d, leftover, schedule, m, k, i);
  }

  /** When stage `k` is late with number `i`, the single variable is the same for both values of number `i`. */
  lemma TwinLate(c: Config, leftover: int, d: Config, pre: seq<Actor>, k: nat, i: nat)
    requires Twins(c, d, i)
    requires Late(Shared(c, leftover), Run(Shared(c, leftover), Initial(Shared(c, leftover)), pre), k, i)
    ensures var b, e := Shared(c, leftover), Shared(d, leftover);
            var h, g := Run(b, Initial(b), pre), Run(e, Initial(e), pre);
            Late(Shared(d, leftover), g, k, i) && h.stages == g.stages && h.cells == g.cells
  {
    var b, e := Shared(c, leftover), Shared(d, leftover);
    InitialInv(b);
    InitialInv(e);
    ForgottenRun(b, e, Initial(b), Initial(e), i, pre);
  }

  /**
   * With one variable behind every pointer, a schedule that runs the program to its end shows the
   * right lines for all numbers if and only if it is timely. Timeliness does not depend on the numbers.
   */
  lemma SharedIsRightExactly(c: Config, leftover: int, schedule: seq<Actor>)
    requires c.Valid() && !c.Shared() && EndsInShow(c)
    requires Run(Shared(c, leftover), Initial(Shared(c, leftover)), schedule).main.Finished?
    ensures Timely(Shared(c, leftover), Initial(Shared(c, leftover)), schedule) <==>
            forall nums: seq<int> :: |nums| == |c.nums| ==> Right(Renumbered(c, nums), leftover, schedule)
  {
    if Timely(Shared(c, leftover), Initial(Shared(c, leftover)), schedule) {
      forall nums: seq<int> | |nums| == |c.nums|
        ensures Right(Renumbered(c, nums), leftover, schedule)
      {
        TimelyForAll(c, leftover, nums, schedule);
      }
    } else {
      var i := UntimelyIsWrong(c, leftover, schedule);
      assert Renumbered(c, c.nums) == c;
      assert OneOther(c, i, c.nums[i] + 1) == Renumbered(c, c.nums[i := c.nums[i] + 1]);
    }
  }

  lemma TimelyForAll(c: Config, leftover: int, nums: seq<int>, schedule: seq<Actor>)
    requires c.Valid() && !c.Shared() && |nums| == |c.nums|
    requires Run(Shared(c, leftover), Initial(Shared(c, leftover)), schedule).main.Finished?
    requires Timely(Shared(c, leftover), Initial(Shared(c, leftover)), schedule)
    ensures Right(Renumbered(c, nums), leftover, schedule)
  {
    var d := Renumbered(c, nums);
    SameFromStart(Shared(c, leftover), Shared(d, leftover), 0, schedule);
    SharedRefinesPrivate(d, leftover, schedule);
  }

  // ----- A generator that waits is timely -----

  /** Every stage but the generator has an empty queue and waits for its next task. */
  predicate Idle(c: Config, s: State)
    requires WellFormed(c, s)
  {
    forall k :: 1 <= k <= c.Last() ==>
      s.stages[k].queue == [] && (s.stages[k].pc.Check? || s.stages[k].pc.Asleep?)
  }

  /** The generator is about to overwrite its variable or to return from the function that owns it. */
  predicate TouchesVariable(c: Config, s: State, a: Actor)
    requires WellFormed(c, s)
  {
    a == Thread(0) && s.stages[0].pc.Produce? && !s.stages[0].pc.written
  }

  /** In the run of `schedule` the generator touches its variable only while the other stages are idle. */
  predicate Disciplined(c: Config, s: State, schedule: seq<Actor>)
    requires WellFormed(c, s)
    decreases |schedule|
  {
    schedule == [] ||
    ((TouchesVariable(c, s, schedule[0]) ==> Idle(c, s)) && Disciplined(c, Step(c, s, schedule[0]), schedule[1..]))
  }

  /** Stage `k` is at most one number behind, and works on nothing but the newest number. */
  ghost predicate Newest(c: Config, s: State, k: nat)
    requires WellFormed(c, s) && k <= c.Last()
  {
    var st, stored := s.stages[k], Stored(c, s.stages[0]);
    |st.taken| + 1 >= stored && (st.pc.Call? || st.pc.Forward? ==> |st.taken| == stored)
  }

  lemma {:induction false} IdleHasTakenAll(c: Config, s: State, k: nat)
    requires Inv(c, s) && Idle(c, s) && 1 <= k <= c.Last()
    requires s.stages[0].pc.Produce? && !s.stages[0].pc.written
    ensures |s.stages[k].taken| == Stored(c, s.stages[0])
  {
    assert Orderly(c, s, k) && Orderly(c, s, k - 1) && Linked(c, s, k - 1);
    if k > 1 {
      IdleHasTakenAll(c, s, k - 1);
    }
  }

  lemma NewestStep(c: Config, s: State, a: Actor, k: nat)
    requires Inv(c, s) && 1 <= k <= c.Last() && Newest(c, s, k)
    requires TouchesVariable(c, s, a) ==> Idle(c, s)
    ensures Newest(c, Step(c, s, a), k)
  {
    if TouchesVariable(c, s, a) {
      IdleHasTakenAll(c, s, k);
      assert Orderly(c, s, 0);
      hide Inv;
    } else {
      StoredKept(c, s, a);
      StepInv(c, s, a);
      if Step(c, s, a).stages[k].pc.Call? { CallIsStored(c, Step(c, s, a), k); }
      TakenGrows(c, s, k, a);
      hide Inv, Step, Stored, TouchesVariable, Idle;
    }
  }

  lemma CallIsStored(c: Config, s: State, k: nat)
    requires Inv(c, s) && 1 <= k <= c.Last() && s.stages[k].pc.Call?
    ensures |s.stages[k].taken| <= Stored(c, s.stages[0])
  {
    assert Orderly(c, s, k);
    Progress.ReceivedIsStored(c, s, k, |s.stages[k].taken| - 1);
  }

  lemma TakenGrows(c: Config, s: State, k: nat, a: Actor)
    requires WellFormed(c, s) && 1 <= k <= c.Last()
    ensures var st, st' := s.stages[k], Step(c, s, a).stages[k];
            && |st'.taken| >= |st.taken|
            && (st'.pc.Forward? ==> (st.pc.Call? || st.pc.Forward?) && st'.taken == st.taken)
            && (st'.pc.Call? ==> (st.pc.Call? && st'.taken == st.taken) || |st'.taken| == |st.taken| + 1)
  {
  }

  lemma StoredKept(c: Config, s: State, a: Actor)
    requires Inv(c, s) && !TouchesVariable(c, s, a)
    ensures Stored(c, Step(c, s, a).stages[0]) == Stored(c, s.stages[0])
  {
    assert Orderly(c, s, 0) && WellFormed(c, s);
    hide Inv;
    assert s.stages[0].queue != [] ==> s.stages[0].received[|s.stages[0].taken|] == s.stages[0].queue[0];
  }

  /** What discipline keeps of stage `k`: it works on nothing but the newest number, and on none once all are stored. */
  ghost predicate OnNewest(c: Config, s: State, k: nat)
    requires WellFormed(c, s) && k <= c.Last()
  {
    Newest(c, s, k) && (Closed(s.stages[0]) ==> Through(c, s.stages[k]))
  }

  lemma {:induction false} DisciplinedRun(c: Config, s: State, schedule: seq<Actor>)
    requires Inv(c, s) && Disciplined(c, s, schedule) && forall k :: 1 <= k <= c.Last() ==> OnNewest(c, s, k)
    ensures Timely(c, s, schedule)
    decreases |schedule|
  {
    if schedule != [] {
      var a := schedule[0];
      StepInv(c, s, a);
      forall k | 1 <= k <= c.Last()
        ensures OnNewest(c, Step(c, s, a), k)
      {
        assert OnNewest(c, s, k);
        NewestStep(c, s, a, k);
        ThroughStep(c, s, a, k);
      }
      if a.Thread? && Executing(c, s, a.k) {
        NewestIsOnTime(c, s, a.k);
      }
      DisciplinedRun(c, Step(c, s, a), schedule[1..]);
    }
  }

  lemma NewestIsOnTime(c: Config, s: State, k: nat)
    requires Inv(c, s) && Executing(c, s, k) && OnNewest(c, s, k)
    ensures OnTime(c, s, Thread(k))
  {
    assert Orderly(c, s, k);
    Progress.ReceivedIsStored(c, s, k, |s.stages[k].taken| - 1);
  }

  /** A generator that waits until the other stages are idle keeps every stage on time. */
  lemma DisciplinedIsTimely(c: Config, schedule: seq<Actor>)
    requires c.Valid() && Disciplined(c, Initial(c), schedule)
    ensures Timely(c, Initial(c), schedule)
  {
    InitialInv(c);
    DisciplinedRun(c, Initial(c), schedule);
  }

  // ----- The variable and the end of the generator's function -----

  /** All numbers are through stage `k`. */
  ghost predicate Through(c: Config, st: Stage) {
    |st.taken| >= |c.nums| && !st.pc.Call? && !st.pc.Forward?
  }

  /** In a disciplined run no stage holds a pointer to the variable once the generator has returned. */
  lemma NoDanglingPointer(c: Config, schedule: seq<Actor>, k: nat)
    requires c.Valid() && Disciplined(c, Initial(c), schedule)
    requires 1 <= k <= c.Last() && Closed(Run(c, Initial(c), schedule).stages[0])
    ensures var st := Run(c, Initial(c), schedule).stages[k];
            !st.pc.Call? && !st.pc.Forward? && forall j :: 0 <= j < |st.queue| ==> st.queue[j] == Null
  {
    InitialInv(c);
    IdleAfterReturn(c, Initial(c), schedule, k);
  }

  lemma ThroughHoldsNulls(c: Config, s: State, k: nat)
    requires Inv(c, s) && 1 <= k <= c.Last() && Through(c, s.stages[k])
    ensures forall j :: 0 <= j < |s.stages[k].queue| ==> s.stages[k].queue[j] == Null
  {
    var st := s.stages[k];
    assert Orderly(c, s, k);
    forall j | 0 <= j < |st.queue|
      ensures st.queue[j] == Null
    {
      assert st.queue[j] == st.received[|st.taken| + j];
    }
  }

  lemma {:induction false} IdleAfterReturn(c: Config, s: State, schedule: seq<Actor>, k: nat)
    requires Inv(c, s) && Disciplined(c, s, schedule) && 1 <= k <= c.Last()
    requires Closed(s.stages[0]) ==> Through(c, s.stages[k])
    ensures var s' := Run(c, s, schedule);
            Closed(s'.stages[0]) ==>
              var st := s'.stages[k];
              !st.pc.Call? && !st.pc.Forward? && forall j :: 0 <= j < |st.queue| ==> st.queue[j] == Null
    decreases |schedule|
  {
    if schedule == [] {
      if Through(c, s.stages[k]) { ThroughHoldsNulls(c, s, k); }
    } else {
      StepInv(c, s, schedule[0]);
      ThroughStep(c, s, schedule[0], k);
      IdleAfterReturn(c, Step(c, s, schedule[0]), schedule[1..], k);
    }
  }

  lemma ThroughStep(c: Config, s: State, a: Actor, k: nat)
    requires Inv(c, s) && 1 <= k <= c.Last() && (TouchesVariable(c, s, a) ==> Idle(c, s))
    requires Closed(s.stages[0]) ==> Through(c, s.stages[k])
    ensures Closed(Step(c, s, a).stages[0]) ==> Through(c, Step(c, s, a).stages[k])
  {
    if TouchesVariable(c, s, a) {
      assert Orderly(c, s, 0);
      IdleHasTakenAll(c, s, k);
    } else if Closed(s.stages[0]) {
      StaysThrough(c, s, a, k);
    } else {
      StaysOpen(c, s, a);
    }
  }

  lemma StaysThrough(c: Config, s: State, a: Actor, k: nat)
    requires Inv(c, s) && 1 <= k <= c.Last() && Through(c, s.stages[k])
    ensures Through(c, Step(c, s, a).stages[k])
  {
    var st := s.stages[k];
    assert Orderly(c, s, k);
    assert st.queue != [] ==> st.received[|st.taken|] == st.queue[0];
    hide Inv;
  }

  lemma StaysOpen(c: Config, s: State, a: Actor)
    requires Inv(c, s) && !Closed(s.stages[0]) && !TouchesVariable(c, s, a)
    ensures !Closed(Step(c, s, a).stages[0])
  {
    var st := s.stages[0];
    assert Orderly(c, s, 0);
    assert st.queue != [] ==> st.received[|st.taken|] == st.queue[0];
  }

  // ----- The discipline can always be kept -----

  /** While the generator is in its loop, no thread behind it has ended. */
  lemma {:induction false} NoneDone(c: Config, s: State, k: nat)
    requires Inv(c, s) && s.stages[0].pc.Produce? && k <= c.Last()
    ensures !s.stages[k].pc.Done?
    decreases k
  {
    assert Orderly(c, s, k);
    if k > 0 {
      assert Orderly(c, s, k - 1) && Linked(c, s, k - 1);
      NoneDone(c, s, k - 1);
    }
  }

  /** A thread that keeps the generator waiting can move. */
  lemma BusyCanMove(c: Config, s: State, k: nat)
    requires Inv(c, s) && s.stages[0].pc.Produce? && 1 <= k <= c.Last()
    requires !(s.stages[k].queue == [] && (s.stages[k].pc.Check? || s.stages[k].pc.Asleep?))
    ensures ThreadReady(c, s, k)
  {
    assert Orderly(c, s, k);
    NoneDone(c, s, k);
    if s.stages[k].pc.Call? {
      Progress.CallReady(c, s, k);
    }
  }

  lemma DisciplinedMove(c: Config, s: State) returns (a: Actor)
    requires Inv(c, s) && !s.main.Finished?
    ensures !a.Spurious? && Enabled(c, s, a) && (TouchesVariable(c, s, a) ==> Idle(c, s))
  {
    if Idle(c, s) || !TouchesVariable(c, s, Thread(0)) {
      a := Progress.DeadlockFree(c, s);
    } else {
      var k: nat :| 1 <= k <= c.Last() &&
                    !(s.stages[k].queue == [] && (s.stages[k].pc.Check? || s.stages[k].pc.Asleep?));
      BusyCanMove(c, s, k);
      a := Thread(k);
    }
  }

  /** From every reachable state, a generator that waits for the others lets the program run to its end. */
  lemma {:induction false} DisciplinedFinish(c: Config, s: State) returns (rest: seq<Actor>)
    requires Inv(c, s)
    ensures Disciplined(c, s, rest) && Run(c, s, rest).main.Finished?
    decreases Progress.Measure(c, s)
  {
    Progress.TotalNonNegative(c, s, |s.stages|);
    if s.main.Finished? {
      rest := [];
    } else {
      var a := DisciplinedMove(c, s);
      Progress.StepDecreases(c, s, a);
      StepInv(c, s, a);
      var tail := DisciplinedFinish(c, Step(c, s, a));
      rest := [a] + tail;
      assert rest[1..] == tail;
    }
  }

  lemma {:induction false} DisciplineAppends(c: Config, s: State, first: seq<Actor>, second: seq<Actor>)
    requires WellFormed(c, s)
    requires Disciplined(c, s, first) && Disciplined(c, Run(c, s, first), second)
    ensures Disciplined(c, s, first + second)
    decreases |first|
  {
    if first == [] {
      assert first + second == second;
    } else {
      assert (first + second)[1..] == first[1..] + second;
      DisciplineAppends(c, Step(c, s, first[0]), first[1..], second);
    }
  }

  /**
   * Every disciplined run of the program with one shared variable can be carried on, disciplined,
   * to its end, and there every stage has shown exactly the sequential output.
   */
  lemma SharedCanFinish(c: Config, leftover: int, schedule: seq<Actor>) returns (rest: seq<Actor>)
    requires c.Valid() && !c.Shared() && Disciplined(Shared(c, leftover), Initial(Shared(c, leftover)), schedule)
    ensures Disciplined(Shared(c, leftover), Initial(Shared(c, leftover)), schedule + rest)
    ensures Complete(c, Run(Shared(c, leftover), Initial(Shared(c, leftover)), schedule + rest))
  {
    var h := Shared(c, leftover);
    Results.ReachableInv(h, schedule);
    rest := DisciplinedFinish(h, Run(h, Initial(h), schedule));
    DisciplineAppends(h, Initial(h), schedule, rest);
    RunAppend(h, Initial(h), schedule, rest);
    DisciplinedIsTimely(h, schedule + rest);
    SharedRefinesPrivate(c, leftover, schedule + rest);
  }

}
