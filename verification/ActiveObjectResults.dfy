/** The outcome of the chain: it does not depend on the schedule, and NULL closes every queue. */
module ActiveObjectResults {
  import opened ActiveObject
  import opened ActiveObjectProtocol
  import opened ActiveObjectData

  lemma {:induction false} SequentialPrefix(c: Config, k: nat, a: nat, b: nat)
    requires 1 <= k <= c.Last() && a <= b <= |c.nums|
    ensures Sequential(c, k, a) <= Sequential(c, k, b)
    decreases b - a
  {
    if a < b {
      SequentialPrefix(c, k, a, b - 1);
    }
  }

  lemma {:induction false} LinesPrefix(program: seq<Instr>, ip: nat, v: int)
    requires ip <= |program|
    ensures RunLines(program[..ip], v) <= RunLines(program, v)
    decreases |program|
  {
    if ip == |program| {
      assert program[..ip] == program;
    } else {
      var init := program[..|program| - 1];
      LinesPrefix(init, ip, v);
      assert init[..ip] == program[..ip];
    }
  }

  lemma SequentialStep(c: Config, k: nat, i: nat)
    requires 1 <= k <= c.Last() && i < |c.nums|
    ensures Sequential(c, k, i + 1) == Sequential(c, k, i) + RunLines(c.programs[k - 1], Arrival(c, k, i))
  {
  }

  lemma ProgressPrefix(c: Config, k: nat, st: Stage)
    requires 1 <= k <= c.Last() && InHand(c, k, st)
    ensures Progress(c, k, st) <= Sequential(c, k, |c.nums|)
  {
    hide RunLines, Sequential, Arrival;
    if st.pc.Call? {
      CallPrefix(c, k, |st.taken| - 1, st.pc.ip);
    } else {
      SequentialPrefix(c, k, if |st.taken| <= |c.nums| then |st.taken| else |c.nums|, |c.nums|);
    }
  }

  lemma CallPrefix(c: Config, k: nat, i: nat, ip: nat)
    requires 1 <= k <= c.Last() && i < |c.nums| && ip <= |c.programs[k - 1]|
    ensures Sequential(c, k, i) + RunLines(c.programs[k - 1][..ip], Arrival(c, k, i)) <= Sequential(c, k, |c.nums|)
  {
    hide RunLines, Sequential, Arrival;
    var program, v := c.programs[k - 1], Arrival(c, k, i);
    SequentialStep(c, k, i);
    LinesPrefix(program, ip, v);
    SequentialPrefix(c, k, i + 1, |c.nums|);
    PrefixThrough(Sequential(c, k, i), RunLines(program[..ip], v), RunLines(program, v), Sequential(c, k, |c.nums|));
  }

  lemma PrefixThrough(done: seq<Line>, part: seq<Line>, whole: seq<Line>, all: seq<Line>)
    requires part <= whole && done + whole <= all
    ensures done + part <= all
  {
    assert done + part == (done + whole)[..|done| + |part|];
  }

  lemma ReachableData(c: Config, schedule: seq<Actor>)
    requires c.Valid() && !c.Shared()
    ensures DataInv(c, Run(c, Initial(c), schedule))
  {
    InitialData(c);
    RunData(c, Initial(c), schedule);
  }

  lemma ReachableInv(c: Config, schedule: seq<Actor>)
    requires c.Valid()
    ensures Inv(c, Run(c, Initial(c), schedule))
  {
    InitialInv(c);
    RunInv(c, Initial(c), schedule);
  }

  /** At every moment of every interleaving, each stage has shown a prefix of the sequential output. */
  lemma ShownIsPrefix(c: Config, schedule: seq<Actor>, k: nat)
    requires c.Valid() && !c.Shared() && 1 <= k <= c.Last()
    ensures Shown(Run(c, Initial(c), schedule).stdout, k) <= Sequential(c, k, |c.nums|)
  {
    ReachableData(c, schedule);
    var s := Run(c, Initial(c), schedule);
    assert LogOK(c, s, k);
    ProgressPrefix(c, k, s.stages[k]);
  }

  /** Every finished run has shown exactly the sequential output and left every number at its final value. */
  lemma FinishedRun(c: Config, schedule: seq<Actor>)
    requires c.Valid() && !c.Shared() && Run(c, Initial(c), schedule).main.Finished?
    ensures forall k :: 1 <= k <= c.Last() ==>
              Shown(Run(c, Initial(c), schedule).stdout, k) == Sequential(c, k, |c.nums|)
    ensures Run(c, Initial(c), schedule).cells ==
            seq(|c.nums|, i requires 0 <= i < |c.nums| => Arrival(c, c.Last() + 1, i))
  {
    ReachableData(c, schedule);
    var s := Run(c, Initial(c), schedule);
    forall k | 1 <= k <= c.Last()
      ensures Shown(s.stdout, k) == Sequential(c, k, |c.nums|)
    {
      assert LogOK(c, s, k) && Orderly(c, s, k);
    }
    assert Orderly(c, s, 0) && Orderly(c, s, c.Last());
    forall i | 0 <= i < |c.nums|
      ensures s.cells[i] == Arrival(c, c.Last() + 1, i)
    {
      assert RestOK(c, s, c.Last(), i);
    }
  }

  /** Two interleavings that both finish agree on the output of every stage and on memory. */
  lemma ScheduleIndependence(c: Config, one: seq<Actor>, two: seq<Actor>, k: nat)
    requires c.Valid() && !c.Shared() && 1 <= k <= c.Last()
    requires Run(c, Initial(c), one).main.Finished? && Run(c, Initial(c), two).main.Finished?
    ensures Shown(Run(c, Initial(c), one).stdout, k) == Shown(Run(c, Initial(c), two).stdout, k)
    ensures Run(c, Initial(c), one).cells == Run(c, Initial(c), two).cells
  {
    FinishedRun(c, one);
    FinishedRun(c, two);
  }

  /**
   * In every run NULL is the last thing a queue ever receives, it is received at most once,
   * and no stage function is ever called with it; a thread that is done has read its whole queue.
   */
  lemma SentinelDiscipline(c: Config, schedule: seq<Actor>, k: nat)
    requires c.Valid() && k <= c.Last()
    ensures var st := Run(c, Initial(c), schedule).stages[k];
            && (forall j :: 0 <= j < |st.received| && st.received[j] == Null ==>
                  j == |st.received| - 1 && |st.received| == |Stream(c, k)|)
            && (st.pc.Call? ==> st.pc.task.Num?)
            && (st.pc.Forward? ==> st.pc.task.Num?)
            && (st.pc.Done? ==> st.queue == [] && st.received == Stream(c, k) && st.taken == Stream(c, k))
  {
    ReachableInv(c, schedule);
    assert Orderly(c, Run(c, Initial(c), schedule), k);
  }

  /**
   * When the main thread deletes a queue, the queue is empty and every thread has ended:
   * nothing is lost and nobody can touch the queue afterwards.
   */
  lemma DeleteOnlyIdleQueues(c: Config, schedule: seq<Actor>, k: nat)
    requires c.Valid()
    requires Run(c, Initial(c), schedule).main == Stop(k)
    ensures MainReady(c, Run(c, Initial(c), schedule))
    ensures forall j :: 0 <= j <= c.Last() ==>
              var s := Run(c, Initial(c), schedule);
              s.stages[j].queue == [] && !ThreadReady(c, s, j) && !Enabled(c, s, Spurious(j))
  {
    ReachableInv(c, schedule);
    var s := Run(c, Initial(c), schedule);
    forall j | 0 <= j <= c.Last()
      ensures s.stages[j].queue == [] && !ThreadReady(c, s, j) && !Enabled(c, s, Spurious(j))
    {
      assert Orderly(c, s, j);
    }
  }

  // ----- The common stream -----

  lemma {:induction false} SequentialGrows(c: Config, k: nat, a: nat, b: nat)
    requires 1 <= k <= c.Last() && a <= b <= |c.nums|
    ensures |Sequential(c, k, a)| <= |Sequential(c, k, b)|
  {
    SequentialPrefix(c, k, a, b);
  }

  /** How many numbers a stage has taken from its queue. */
  function TakenNumbers(c: Config, st: Stage): nat {
    if |st.taken| <= |c.nums| then |st.taken| else |c.nums|
  }

  /** How many numbers a stage has worked through. */
  function ReturnedNumbers(c: Config, st: Stage): nat {
    if st.pc.Call? && |st.taken| > 0 then |st.taken| - 1 else TakenNumbers(c, st)
  }

  /** A stage has shown its lines for the numbers it has worked through, and none for numbers it has not taken. */
  lemma ShownWithin(c: Config, s: State, k: nat) returns (taken: nat, done: nat)
    requires DataInv(c, s) && 1 <= k <= c.Last()
    ensures k < |s.stages| && taken == TakenNumbers(c, s.stages[k]) && done == ReturnedNumbers(c, s.stages[k])
    ensures taken <= |c.nums| && done <= |c.nums|
    ensures |Sequential(c, k, done)| <= |Shown(s.stdout, k)| <= |Sequential(c, k, taken)|
  {
    taken := TakenNumbers(c, s.stages[k]);
    done := ReturnedNumbers(c, s.stages[k]);
    assert LogOK(c, s, k);
    if s.stages[k].pc.Call? { ProgressWithin(c, k, s.stages[k]); }
  }

  /** A stage takes only numbers that the stage before it has worked through. */
  lemma TakenInTurn(c: Config, s: State, k: nat)
    requires DataInv(c, s) && 1 <= k < c.Last()
    ensures k + 1 < |s.stages| && TakenNumbers(c, s.stages[k + 1]) <= ReturnedNumbers(c, s.stages[k])
  {
    assert Linked(c, s, k) && Orderly(c, s, k) && Orderly(c, s, k + 1);
  }

  /** Once stage `k + 1` has begun to show number `i`, stage `k` has shown all it shows for it. */
  lemma ShownInTurn(c: Config, s: State, k: nat, i: nat)
    requires DataInv(c, s) && 1 <= k < c.Last() && i < |c.nums|
    requires |Shown(s.stdout, k + 1)| > |Sequential(c, k + 1, i)|
    ensures |Shown(s.stdout, k)| >= |Sequential(c, k, i + 1)|
  {
    hide *;
    var _, done := ShownWithin(c, s, k);
    var taken, _ := ShownWithin(c, s, k + 1);
    TakenInTurn(c, s, k);
    if taken <= i {
      SequentialGrows(c, k + 1, taken, i);
    } else {
      SequentialGrows(c, k, i + 1, done);
    }
  }

  lemma ProgressWithin(c: Config, k: nat, st: Stage)
    requires 1 <= k <= c.Last() && InHand(c, k, st) && st.pc.Call?
    ensures |Progress(c, k, st)| <= |Sequential(c, k, |st.taken|)|
  {
    hide RunLines, Arrival;
    LinesPrefix(c.programs[k - 1], st.pc.ip, Arrival(c, k, |st.taken| - 1));
  }

  /**
   * On the stream that all stages print on, every line of stage `k` for number `i` comes before every
   * line of stage `k + 1` for it: in each part of the stream from its beginning, if stage `k + 1` has
   * shown more than its lines for the first `i` numbers, stage `k` has shown its lines for `i + 1`.
   */
  lemma {:induction false} StagesInTurn(c: Config, s: State, schedule: seq<Actor>, m: nat, k: nat, i: nat)
    requires DataInv(c, s) && 1 <= k < c.Last() && i < |c.nums|
    requires |s.stdout| <= m <= |Run(c, s, schedule).stdout|
    requires |Shown(Run(c, s, schedule).stdout[..m], k + 1)| > |Sequential(c, k + 1, i)|
    ensures |Shown(Run(c, s, schedule).stdout[..m], k)| >= |Sequential(c, k, i + 1)|
    decreases |schedule|
  {
    var out := Run(c, s, schedule).stdout;
    StreamGrows(c, s, schedule);
    if m == |s.stdout| {
      assert out[..m] == s.stdout;
      ShownInTurn(c, s, k, i);
    } else {
      StepData(c, s, schedule[0]);
      OneLineAtATime(c, s, schedule[0]);
      StagesInTurn(c, Step(c, s, schedule[0]), schedule[1..], m, k, i);
    }
  }

  lemma OneLineAtATime(c: Config, s: State, a: Actor)
    requires WellFormed(c, s)
    ensures s.stdout <= Step(c, s, a).stdout && |Step(c, s, a).stdout| <= |s.stdout| + 1
  {
  }

  lemma {:induction false} StreamGrows(c: Config, s: State, schedule: seq<Actor>)
    requires WellFormed(c, s)
    ensures s.stdout <= Run(c, s, schedule).stdout
    decreases |schedule|
  {
    if schedule != [] {
      OneLineAtATime(c, s, schedule[0]);
      StreamGrows(c, Step(c, s, schedule[0]), schedule[1..]);
    }
  }

  lemma OutputInTurn(c: Config, schedule: seq<Actor>, m: nat, k: nat, i: nat)
    requires c.Valid() && !c.Shared() && 1 <= k < c.Last() && i < |c.nums|
    requires m <= |Run(c, Initial(c), schedule).stdout|
    ensures var shown := Run(c, Initial(c), schedule).stdout[..m];
            |Shown(shown, k + 1)| > |Sequential(c, k + 1, i)| ==> |Shown(shown, k)| >= |Sequential(c, k, i + 1)|
  {
    InitialData(c);
    if |Shown(Run(c, Initial(c), schedule).stdout[..m], k + 1)| > |Sequential(c, k + 1, i)| {
      StagesInTurn(c, Initial(c), schedule, m, k, i);
    }
  }

}
