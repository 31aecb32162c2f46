/** The pipeline program: a generator and the three stages `partD_b`, `partD_c` and `partD_d`. */
module StPipeline {
  import opened Limits
  import Prime
  import opened ActiveObject
  import opened ActiveObjectProtocol
  import opened ActiveObjectData
  import Results = ActiveObjectResults
  import Progress = ActiveObjectProgress
  import SharedCell

  const PART_B: seq<Instr> := [Add(11), ShowVerdict]
  const PART_C: seq<Instr> := [Add(-13), ShowVerdict]
  const PART_D: seq<Instr> := [ShowVerdict, Add(2), ShowValue]

  /** The numbers of the generator, from the successive values of `rand()`. */
  function Generated(size: int, rand: nat -> nat): (nums: seq<int>)
    ensures forall i :: 0 <= i < |nums| ==> 100000 <= nums[i] <= 999999
    ensures |nums| == if size > 0 then size else 0
    ensures forall i :: 0 <= i < |nums| ==> nums[i] == rand(i) % 900000 + 100000
  {
    seq(if size > 0 then size else 0, (i: nat) => rand(i) % 900000 + 100000)
  }

  function Program(size: int, rand: nat -> nat): (c: Config)
    ensures c.Valid() && !c.Shared() && c.Last() == 3
  {
    Config([PART_B, PART_C, PART_D], Generated(size, rand), OwnCells)
  }

  /**
   * The program as written: the one variable `num` of the generator is behind every task pointer, and
   * holds `leftover` once `partD_a` has returned.
   */
  function Written(size: int, rand: nat -> nat, leftover: int): (c: Config)
    ensures c.Valid() && c.Shared() && c.Last() == 3
  {
    SharedCell.Shared(Program(size, rand), leftover)
  }

  // ----- What each stage function does to its number -----

  lemma PartB(v: int)
    ensures RunValue(PART_B, v) == v + 11 && RunLines(PART_B, v) == [Judge(v + 11)]
  {
    Two(PART_B, v);
  }

  lemma PartC(v: int)
    ensures RunValue(PART_C, v) == v - 13 && RunLines(PART_C, v) == [Judge(v - 13)]
  {
    Two(PART_C, v);
  }

  lemma PartD(v: int)
    ensures RunValue(PART_D, v) == v + 2 && RunLines(PART_D, v) == [Judge(v), Value(v + 2)]
  {
    Two([ShowVerdict, Add(2)], v);
    assert PART_D[..2] == [ShowVerdict, Add(2)];
  }

  lemma Two(program: seq<Instr>, v: int)
    requires |program| == 2
    ensures RunValue(program, v) == ApplyValue(program[1], ApplyValue(program[0], v))
    ensures RunLines(program, v) == ApplyLines(program[0], v) + ApplyLines(program[1], ApplyValue(program[0], v))
  {
    PrefixStep(program, 0, v);
    PrefixStep(program, 1, v);
    assert program[..2] == program;
  }

  /** Number `n` arrives at the stages as n, n + 11 and n - 2, and ends as n. */
  lemma Arrivals(c: Config, i: nat)
    requires c.programs == [PART_B, PART_C, PART_D] && i < |c.nums|
    ensures Arrival(c, 1, i) == c.nums[i]
    ensures Arrival(c, 2, i) == c.nums[i] + 11
    ensures Arrival(c, 3, i) == c.nums[i] - 2
    ensures Arrival(c, 4, i) == c.nums[i]
  {
    PartB(c.nums[i]);
    PartC(c.nums[i] + 11);
    PartD(c.nums[i] - 2);
  }

  /** What stage `k` shows for a number that was generated as `n`. */
  function Lines(k: nat, n: int): seq<Line>
    requires 1 <= k <= 3
  {
    if k == 1 then [Judge(n + 11)] else if k == 2 then [Judge(n - 2)] else [Judge(n - 2), Value(n)]
  }

  /** What stage `k` shows for the numbers `nums`. */
  function Expected(k: nat, nums: seq<int>): seq<Line>
    requires 1 <= k <= 3
    decreases |nums|
  {
    if nums == [] then []
    else Expected(k, nums[..|nums| - 1]) + Lines(k, nums[|nums| - 1])
  }

  /** The line shows `n` and whether it is prime. */
  predicate Verdicts(line: Line, n: int) {
    line.Verdict? && line.value == n && (line.prime <==> n >= 2 && forall d :: 2 <= d < n ==> n % d != 0)
  }

  /** The lines that stage `k` shows for a number generated as `n` are those of the source. */
  lemma LinesAre(k: nat, n: int)
    requires 1 <= k <= 3 && 100000 <= n <= 999999
    ensures |Lines(k, n)| == if k == 3 then 2 else 1
    ensures Verdicts(Lines(k, n)[0], if k == 1 then n + 11 else n - 2)
    ensures k == 3 ==> Lines(k, n)[1] == Value(n)
  {
    assert Prime.ToUnsigned(n + 11) == n + 11 && Prime.ToUnsigned(n - 2) == n - 2;
  }

  lemma {:induction false} ExpectedLength(k: nat, nums: seq<int>)
    requires 1 <= k <= 3
    ensures |Expected(k, nums)| == (if k == 3 then 2 else 1) * |nums|
    decreases |nums|
  {
    if nums != [] { ExpectedLength(k, nums[..|nums| - 1]); }
  }

  /** Number `i` is shown at its place. */
  lemma {:induction false} ExpectedAt(k: nat, nums: seq<int>, i: nat)
    requires 1 <= k <= 3 && i < |nums|
    ensures var m := if k == 3 then 2 else 1;
            && |Expected(k, nums)| == m * |nums| && |Lines(k, nums[i])| == m
            && Expected(k, nums)[m * i] == Lines(k, nums[i])[0]
            && (k == 3 ==> Expected(k, nums)[2 * i + 1] == Lines(k, nums[i])[1])
    decreases |nums|
  {
    ExpectedLength(k, nums);
    ExpectedLength(k, nums[..|nums| - 1]);
    if i < |nums| - 1 { ExpectedAt(k, nums[..|nums| - 1], i); }
  }

  lemma LinesShown(c: Config, k: nat, i: nat)
    requires c.programs == [PART_B, PART_C, PART_D] && 1 <= k <= 3 && i < |c.nums|
    ensures RunLines(c.programs[k - 1], Arrival(c, k, i)) == Lines(k, c.nums[i])
  {
    Arrivals(c, i);
    PartB(c.nums[i]);
    PartC(c.nums[i] + 11);
    PartD(c.nums[i] - 2);
  }

  lemma ExpectedStep(k: nat, nums: seq<int>, i: nat)
    requires 1 <= k <= 3 && i < |nums|
    ensures Expected(k, nums[..i + 1]) == Expected(k, nums[..i]) + Lines(k, nums[i])
  {
    assert nums[..i + 1][..i] == nums[..i];
  }

  lemma {:induction false} SequentialIsExpected(c: Config, k: nat, count: nat)
    requires c.programs == [PART_B, PART_C, PART_D] && 1 <= k <= 3 && count <= |c.nums|
    ensures Sequential(c, k, count) == Expected(k, c.nums[..count])
  {
    hide Lines, RunLines, Arrival;
    if count > 0 {
      ExpectedStep(k, c.nums, count - 1);
      LinesShown(c, k, count - 1);
      SequentialIsExpected(c, k, count - 1);
    }
  }

  /** In every interleaving the stages show n + 11; n - 2; n - 2 and n, in the order of generation. */
  lemma PipelineOutput(size: int, rand: nat -> nat, schedule: seq<Actor>, k: nat)
    requires 1 <= k <= 3
    ensures var c := Program(size, rand);
            var s := Run(c, Initial(c), schedule);
            && Shown(s.stdout, k) <= Expected(k, c.nums)
            && (s.main.Finished? ==> Shown(s.stdout, k) == Expected(k, c.nums) && s.cells == c.nums)
  {
    var c := Program(size, rand);
    SequentialIsExpected(c, k, |c.nums|);
    assert c.nums[..|c.nums|] == c.nums;
    Results.ShownIsPrefix(c, schedule, k);
    if Run(c, Initial(c), schedule).main.Finished? {
      Results.FinishedRun(c, schedule);
      forall i | 0 <= i < |c.nums|
        ensures Arrival(c, 4, i) == c.nums[i]
      {
        Arrivals(c, i);
      }
    }
  }

  /**
   * The program as written, with one variable behind every task pointer, shows the same as long as
   * every instruction works on the number stored last, before `partD_a` returns.
   */
  lemma SharedPipelineOutput(size: int, rand: nat -> nat, leftover: int, schedule: seq<Actor>, k: nat)
    requires 1 <= k <= 3
    requires SharedCell.Timely(Written(size, rand, leftover), Initial(Written(size, rand, leftover)), schedule)
    ensures var h := Written(size, rand, leftover);
            var s := Run(h, Initial(h), schedule);
            && Shown(s.stdout, k) <= Expected(k, h.nums)
            && (s.main.Finished? ==> Shown(s.stdout, k) == Expected(k, h.nums))
  {
    SharedCell.SharedRefinesPrivate(Program(size, rand), leftover, schedule);
    PipelineOutput(size, rand, schedule, k);
  }

  /** On the numbers that `rand` yields, the program as written shows the expected lines of all three stages. */
  ghost predicate ShowsExpected(size: int, rand: nat -> nat, leftover: int, schedule: seq<Actor>) {
    var h := Written(size, rand, leftover);
    forall k :: 1 <= k <= 3 ==> Shown(Run(h, Initial(h), schedule).stdout, k) == Expected(k, h.nums)
  }

  /**
   * A schedule that runs the program as written to its end shows the expected lines for whatever
   * `rand` yields if and only if every instruction it executes works on the number stored last, and
   * does so before `partD_a` returns.
   */
  lemma SharedOutputExactly(size: int, rand: nat -> nat, leftover: int, schedule: seq<Actor>)
    requires Run(Written(size, rand, leftover), Initial(Written(size, rand, leftover)), schedule).main.Finished?
    ensures SharedCell.Timely(Written(size, rand, leftover), Initial(Written(size, rand, leftover)), schedule) <==>
            forall other: nat -> nat :: ShowsExpected(size, other, leftover, schedule)
  {
    var c, h := Program(size, rand), Written(size, rand, leftover);
    if SharedCell.Timely(h, Initial(h), schedule) {
      forall other: nat -> nat
        ensures ShowsExpected(size, other, leftover, schedule)
      {
        SharedCell.TimelyForAll(c, leftover, Generated(size, other), schedule);
        ExpectedIsRight(size, other, leftover, schedule);
      }
    } else {
      var i := SharedCell.UntimelyIsWrong(c, leftover, schedule);
      var v := if c.nums[i] == 100000 then 100001 else 100000;
      var other := (j: nat) => if j == i then v - 100000 else rand(j);
      assert Generated(size, other) == c.nums[i := v];
      ExpectedIsRight(size, rand, leftover, schedule);
      ExpectedIsRight(size, other, leftover, schedule);
      assert SharedCell.OneOther(c, i, v) == Program(size, other);
    }
  }

  lemma ExpectedIsRight(size: int, rand: nat -> nat, leftover: int, schedule: seq<Actor>)
    ensures ShowsExpected(size, rand, leftover, schedule) <==> SharedCell.Right(Program(size, rand), leftover, schedule)
  {
    var c := Program(size, rand);
    assert c.nums[..|c.nums|] == c.nums;
    forall k | 1 <= k <= 3
      ensures Sequential(c, k, |c.nums|) == Expected(k, c.nums)
    {
      SequentialIsExpected(c, k, |c.nums|);
    }
    hide Run, Shown, Sequential, Expected, Generated;
    assert SharedCell.Right(c, leftover, schedule) ==> ShowsExpected(size, rand, leftover, schedule);
    assert ShowsExpected(size, rand, leftover, schedule) ==> SharedCell.Right(c, leftover, schedule);
  }

  /** The program always can end, and does so after a bounded number of steps that are not spurious wakeups. */
  lemma PipelineEnds(size: int, rand: nat -> nat, schedule: seq<Actor>) returns (rest: seq<Actor>)
    ensures var c := Program(size, rand);
            && Run(c, Initial(c), schedule + rest).main.Finished?
            && Progress.Moves(c, Initial(c), schedule) <=
               Progress.Measure(c, Initial(c)) + Progress.Wakeups(c, Initial(c), schedule)
  {
    var c := Program(size, rand);
    Results.ReachableInv(c, schedule);
    InitialInv(c);
    Progress.RunIsBounded(c, Initial(c), schedule);
    rest := Progress.CanFinish(c, Run(c, Initial(c), schedule));
    RunAppend(c, Initial(c), schedule, rest);
  }

  /** Every actor of the schedule makes a step, and none is a spurious wakeup. */
  ghost predicate AllMove(c: Config, s: State, schedule: seq<Actor>)
    requires WellFormed(c, s)
  {
    forall m :: 0 <= m < |schedule| ==>
      !schedule[m].Spurious? && Enabled(c, Run(c, s, schedule[..m]), schedule[m])
  }

  lemma {:induction false} AllMoveCounts(c: Config, s: State, schedule: seq<Actor>)
    requires WellFormed(c, s) && AllMove(c, s, schedule)
    ensures Progress.Moves(c, s, schedule) == |schedule| && Progress.Wakeups(c, s, schedule) == 0
    decreases |schedule|
  {
    if schedule != [] {
      var a, rest := schedule[0], schedule[1..];
      assert Run(c, s, schedule[..0]) == s;
      forall m | 0 <= m < |rest|
        ensures !rest[m].Spurious? && Enabled(c, Run(c, Step(c, s, a), rest[..m]), rest[m])
      {
        assert schedule[..m + 1][0] == a && schedule[..m + 1][1..] == rest[..m] && schedule[m + 1] == rest[m];
        assert Run(c, s, schedule[..m + 1]) == Run(c, Step(c, s, a), rest[..m]);
      }
      AllMoveCounts(c, Step(c, s, a), rest);
    }
  }

  /** A run of the program without spurious wakeups has at most 60 steps for each number and 90 besides. */
  lemma RunIsShort(size: int, rand: nat -> nat, schedule: seq<Actor>)
    requires var c := Program(size, rand);
             forall m :: 0 <= m < |schedule| ==>
               !schedule[m].Spurious? && Enabled(c, Run(c, Initial(c), schedule[..m]), schedule[m])
    ensures |schedule| <= 60 * (if size > 0 then size else 0) + 90
  {
    var c := Program(size, rand);
    assert AllMove(c, Initial(c), schedule);
    AllMoveCounts(c, Initial(c), schedule);
    InitialInv(c);
    Progress.RunIsBounded(c, Initial(c), schedule);
    InitialMeasure(size, rand);
  }

  lemma InitialMeasure(size: int, rand: nat -> nat)
    ensures var c := Program(size, rand);
            Progress.Measure(c, Initial(c)) == 60 * |c.nums| + 90
  {
    var c := Program(size, rand);
    var s, n := Initial(c).stages, |c.nums|;
    assert Progress.TotalWeight(c, s, 1) == Progress.Weight(c, 0, s[0]) == 3 * (2 * (2 * n + 3)) + 1;
    assert Progress.TotalWeight(c, s, 2) == Progress.TotalWeight(c, s, 1) + 3 * ((n + 1) * 5) + 1;
    assert Progress.TotalWeight(c, s, 3) == Progress.TotalWeight(c, s, 2) + 3 * ((n + 1) * 5) + 1;
    assert Progress.TotalWeight(c, s, 4) == Progress.TotalWeight(c, s, 3) + 3 * ((n + 1) * 6) + 1;
  }

  // ----- No number leaves the range of `int` -----

  /** Every stored number is at exactly one place: resting between two stages or in the hands of one. */
  lemma {:induction false} EveryNumberIsSomewhere(c: Config, s: State, i: nat, k: nat) returns (at: nat)
    requires Inv(c, s) && !c.Shared() && i < |s.cells| && k <= c.Last() && i < Reached(c, s, k)
    ensures k <= at <= c.Last() && (Resting(c, s, at, i) || Working(s, at, i))
    ensures forall j :: 0 <= j <= c.Last() && j != at ==> !Resting(c, s, j, i)
    decreases c.Last() - k
  {
    ReachedStep(c, s, k);
    if k < c.Last() && i < Reached(c, s, k + 1) {
      at := EveryNumberIsSomewhere(c, s, i, k + 1);
    } else {
      at := k;
      forall j | 0 <= j <= c.Last() && j != at
        ensures !Resting(c, s, j, i)
      {
        if j < at { ReachedMonotone(c, s, j + 1, at); } else { ReachedMonotone(c, s, at + 1, j); }
      }
    }
  }

  /** No instruction of the three stage functions moves a number by more than 13. */
  lemma {:induction false} PartialValue(program: seq<Instr>, ip: nat, v: int)
    requires ip <= |program| && forall i :: 0 <= i < |program| && program[i].Add? ==> -13 <= program[i].delta <= 13
    ensures v - 13 * ip <= RunValue(program[..ip], v) <= v + 13 * ip
  {
    if ip > 0 {
      PartialValue(program, ip - 1, v);
      PrefixStep(program, ip - 1, v);
    }
  }

  /** At every moment of every interleaving each number fits the C type that holds it. */
  lemma NumbersStayInRange(size: int, rand: nat -> nat, schedule: seq<Actor>, i: nat)
    requires var c := Program(size, rand); i < |Run(c, Initial(c), schedule).cells|
    ensures var c := Program(size, rand);
            INT_MIN < 99900 <= Run(c, Initial(c), schedule).cells[i] <= 1000100 < INT_MAX
  {
    var c := Program(size, rand);
    var s := Run(c, Initial(c), schedule);
    Results.ReachableData(c, schedule);
    assert Orderly(c, s, 0);
    var k := EveryNumberIsSomewhere(c, s, i, 0);
    Arrivals(c, i);
    if Resting(c, s, k, i) {
      assert RestOK(c, s, k, i);
    } else {
      assert Orderly(c, s, k) && CallOK(c, s, k);
      PartialValue(c.programs[k - 1], s.stages[k].pc.ip, Arrival(c, k, i));
    }
  }

  /** The same for the single variable of the program as written, for as long as it is there and no stage is late. */
  lemma SharedNumberStaysInRange(size: int, rand: nat -> nat, leftover: int, schedule: seq<Actor>)
    requires SharedCell.Timely(Written(size, rand, leftover), Initial(Written(size, rand, leftover)), schedule)
    ensures var h := Written(size, rand, leftover);
            var s := Run(h, Initial(h), schedule);
            !Closed(s.stages[0]) ==> forall v :: v in s.cells ==> INT_MIN < 99900 <= v <= 1000100 < INT_MAX
  {
    var c := Program(size, rand);
    SharedCell.SharedRefinesPrivate(c, leftover, schedule);
    var s := Run(c, Initial(c), schedule);
    if s.cells != [] {
      NumbersStayInRange(size, rand, schedule, |s.cells| - 1);
    }
  }

}
