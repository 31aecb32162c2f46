/**
 * What the pipeline program prints, line by line, on the one stream that all its threads share.
 */
module PipelinePrints {
  import Prime
  import opened ActiveObject
  import opened ActiveObjectProtocol
  import opened ActiveObjectData
  import opened StPipeline
  import Results = ActiveObjectResults
  import SharedCell

  // ----- Where the lines of a stage are on the stream -----

  /** Strictly increasing positions on the stream. */
  predicate Places(out: seq<Event>, at: seq<nat>) {
    && (forall i :: 0 <= i < |at| ==> at[i] < |out|)
    && (forall i, j :: 0 <= i < j < |at| ==> at[i] < at[j])
  }

  /** Line `i` of stage `k` is at place `p`. */
  ghost predicate PlaceOf(out: seq<Event>, k: nat, i: nat, p: nat) {
    p < |out| && i < |Shown(out, k)| && out[p] == Event(k, Shown(out, k)[i]) && |Shown(out[..p], k)| == i
  }

  /** The lines of stage `k` and no others are at the places `at`, in the order in which it showed them. */
  ghost predicate PlacesOf(out: seq<Event>, k: nat, at: seq<nat>) {
    Places(out, at) && |at| == |Shown(out, k)| && forall i :: 0 <= i < |at| ==> PlaceOf(out, k, i, at[i])
  }

  lemma {:induction false} FindPlaces(out: seq<Event>, k: nat) returns (at: seq<nat>)
    ensures PlacesOf(out, k, at)
    decreases |out|
  {
    if out == [] {
      at := [];
    } else {
      var n := |out| - 1;
      var before := FindPlaces(out[..n], k);
      at := if out[n].stage == k then before + [n] else before;
      PlacesGrow(out, k, before, at);
    }
  }

  lemma PlacesGrow(out: seq<Event>, k: nat, before: seq<nat>, at: seq<nat>)
    requires |out| > 0 && PlacesOf(out[..|out| - 1], k, before)
    requires at == if out[|out| - 1].stage == k then before + [|out| - 1] else before
    ensures PlacesOf(out, k, at)
  {
    var n := |out| - 1;
    assert Shown(out, k) == Shown(out[..n], k) + (if out[n].stage == k then [out[n].line] else []);
    hide Shown;
    forall i | 0 <= i < |at|
      ensures PlaceOf(out, k, i, at[i])
    {
      if i < |before| {
        assert PlaceOf(out[..n], k, i, before[i]);
        PlaceKept(out, k, i, before[i]);
      }
    }
    hide PlaceOf;
  }

  lemma PlaceKept(out: seq<Event>, k: nat, i: nat, p: nat)
    requires |out| > 0 && PlaceOf(out[..|out| - 1], k, i, p)
    ensures PlaceOf(out, k, i, p)
  {
    assert out[..|out| - 1][..p] == out[..p];
  }

  lemma {:induction false} ShownMonotone(out: seq<Event>, k: nat, m: nat, n: nat)
    requires m <= n <= |out|
    ensures |Shown(out[..m], k)| <= |Shown(out[..n], k)|
    decreases n
  {
    if m < n {
      assert out[..n][..n - 1] == out[..n - 1];
      ShownMonotone(out, k, m, n - 1);
    }
  }

  /** Only the stages after the generator print. */
  ghost predicate FromStages(c: Config, out: seq<Event>) {
    forall m :: 0 <= m < |out| ==> 1 <= out[m].stage <= c.Last()
  }

  lemma {:induction false} RunPrints(c: Config, s: State, schedule: seq<Actor>)
    requires WellFormed(c, s) && FromStages(c, s.stdout)
    ensures FromStages(c, Run(c, s, schedule).stdout)
    decreases |schedule|
  {
    if schedule != [] {
      RunPrints(c, Step(c, s, schedule[0]), schedule[1..]);
    }
  }

  lemma {:induction false} AllShown(out: seq<Event>)
    requires forall m :: 0 <= m < |out| ==> 1 <= out[m].stage <= 3
    ensures |out| == |Shown(out, 1)| + |Shown(out, 2)| + |Shown(out, 3)|
    decreases |out|
  {
    if out != [] {
      AllShown(out[..|out| - 1]);
    }
  }

  // ----- The order of the stages -----

  /** Line `j` of the next stage comes after line `i` of this stage, when that is the line for the same number. */
  lemma InTurn(c: Config, schedule: seq<Actor>, k: nat, i: nat, j: nat, p: seq<nat>, q: seq<nat>)
    requires c.Valid() && !c.Shared() && 1 <= k < c.Last() && i < |c.nums|
    requires |Sequential(c, k + 1, i)| <= j && i < |Sequential(c, k, i + 1)|
    requires PlacesOf(Run(c, Initial(c), schedule).stdout, k, p)
    requires PlacesOf(Run(c, Initial(c), schedule).stdout, k + 1, q) && j < |q|
    ensures i < |p| && p[i] < q[j]
  {
    var out, m := Run(c, Initial(c), schedule).stdout, q[j] + 1;
    assert PlaceOf(out, k + 1, j, q[j]);
    assert out[..m][..q[j]] == out[..q[j]];
    assert |Shown(out[..m], k + 1)| == j + 1;
    Results.OutputInTurn(c, schedule, m, k, i);
    hide Run, Sequential, Shown;
    Earlier(out, k, p, i, m, k + 1, j, q[j]);
  }

  lemma Earlier(out: seq<Event>, k: nat, p: seq<nat>, i: nat, m: nat, l: nat, j: nat, at: nat)
    requires PlacesOf(out, k, p) && m <= |out| && |Shown(out[..m], k)| > i
    requires PlaceOf(out, l, j, at) && m == at + 1 && k != l
    ensures i < |p| && p[i] < at
  {
    assert out[..|out|] == out;
    ShownMonotone(out, k, m, |out|);
    assert PlaceOf(out, k, i, p[i]);
    if p[i] >= m { ShownMonotone(out, k, m, p[i]); }
  }

  lemma SequentialLength(c: Config, k: nat, i: nat)
    requires c.programs == [PART_B, PART_C, PART_D] && 1 <= k <= 3 && i <= |c.nums|
    ensures |Sequential(c, k, i)| == (if k == 3 then 2 else 1) * i
  {
    SequentialIsExpected(c, k, i);
    ExpectedLength(k, c.nums[..i]);
  }

  // ----- The whole stream -----

  /** Line `i` of stage `k`: n + 11 for stage 1, n - 2 for the others, with its verdict, and for stage 3 then n. */
  predicate LineIs(line: Line, k: nat, i: nat, n: int) {
    if k == 3 && i % 2 == 1 then line == Value(n) else Verdicts(line, if k == 1 then n + 11 else n - 2)
  }

  /** How many lines stage `k` shows for a number. */
  function PerNumber(k: nat): nat { if k == 3 then 2 else 1 }

  /** The number that the generator made of its `i`-th random value. */
  function Made(rand: nat -> nat, i: nat): int { rand(i) % 900000 + 100000 }

  /** Each `m` places of `q` come after one of `p`. */
  predicate Follow(p: seq<nat>, q: seq<nat>, m: nat)
    requires m > 0
  {
    forall j :: 0 <= j < |q| ==> j / m < |p| && p[j / m] < q[j]
  }

  /** The places `at` hold lines of stage `k` for the successive numbers. */
  ghost predicate Printed(out: seq<Event>, at: seq<nat>, k: nat, rand: nat -> nat)
    requires 1 <= k <= 3
  {
    Places(out, at) &&
    forall i :: 0 <= i < |at| ==> out[at[i]].stage == k && LineIs(out[at[i]].line, k, i, Made(rand, i / PerNumber(k)))
  }

  /**
   * In every interleaving the stream consists of the lines at the places `b`, `c` and `d`, which `partD_b`,
   * `partD_c` and `partD_d` have printed in this order: for each number n in turn n + 11 with its verdict;
   * n - 2 with its verdict; n - 2 with its verdict, and then n. What a stage prints for a number comes after
   * what the stage before printed for it, and a finished run has printed all of it and left n in memory.
   */
  lemma PrintedExactly(size: int, rand: nat -> nat, schedule: seq<Actor>)
    returns (b: seq<nat>, c: seq<nat>, d: seq<nat>)
    ensures var s := Run(Program(size, rand), Initial(Program(size, rand)), schedule);
            var out, n := s.stdout, if size > 0 then size else 0;
            && |out| == |b| + |c| + |d| && |b| <= n && |c| <= n && |d| <= 2 * n
            && Printed(out, b, 1, rand) && Printed(out, c, 2, rand) && Printed(out, d, 3, rand)
            && Follow(b, c, 1) && Follow(c, d, 2)
            && (s.main.Finished? ==> |b| == n && |c| == n && |d| == 2 * n)
            && (s.main.Finished? ==> |s.cells| == n && forall i :: 0 <= i < n ==> s.cells[i] == Made(rand, i))
  {
    hide Run, Shown, Generated, Printed, PlacesOf, Follow;
    var p := Program(size, rand);
    var s := Run(p, Initial(p), schedule);
    b := FindPlaces(s.stdout, 1);
    c := FindPlaces(s.stdout, 2);
    d := FindPlaces(s.stdout, 3);
    AsMany(s.stdout, 1, b);
    AsMany(s.stdout, 2, c);
    AsMany(s.stdout, 3, d);
    StageLines(size, rand, schedule, 1, b);
    StageLines(size, rand, schedule, 2, c);
    StageLines(size, rand, schedule, 3, d);
    TotalLines(p, schedule);
    StageFollows(size, rand, schedule, 1, b, c);
    StageFollows(size, rand, schedule, 2, c, d);
  }

  lemma AsMany(out: seq<Event>, k: nat, at: seq<nat>)
    requires PlacesOf(out, k, at)
    ensures |at| == |Shown(out, k)|
  {
  }

  lemma StageFollows(size: int, rand: nat -> nat, schedule: seq<Actor>, k: nat, p: seq<nat>, q: seq<nat>)
    requires var c := Program(size, rand);
             var out := Run(c, Initial(c), schedule).stdout;
             1 <= k <= 2 && PlacesOf(out, k, p) && PlacesOf(out, k + 1, q)
    ensures Follow(p, q, PerNumber(k + 1))
  {
    hide Run, Shown, PlacesOf, Program;
    var m := PerNumber(k + 1);
    forall j | 0 <= j < |q|
      ensures j / m < |p| && p[j / m] < q[j]
    {
      StageInTurn(size, rand, schedule, k, p, q, j);
    }
    assert Follow(p, q, m);
  }

  /** So does the program as written, with its one variable behind every pointer, in every timely run. */
  lemma WrittenPrints(size: int, rand: nat -> nat, leftover: int, schedule: seq<Actor>)
    returns (b: seq<nat>, c: seq<nat>, d: seq<nat>)
    requires SharedCell.Timely(Written(size, rand, leftover), Initial(Written(size, rand, leftover)), schedule)
    ensures var s := Run(Written(size, rand, leftover), Initial(Written(size, rand, leftover)), schedule);
            var out, n := s.stdout, if size > 0 then size else 0;
            && |out| == |b| + |c| + |d| && |b| <= n && |c| <= n && |d| <= 2 * n
            && Printed(out, b, 1, rand) && Printed(out, c, 2, rand) && Printed(out, d, 3, rand)
            && Follow(b, c, 1) && Follow(c, d, 2)
            && (s.main.Finished? ==> |b| == n && |c| == n && |d| == 2 * n)
  {
    hide Run, Printed, Follow;
    SharedCell.SharedRefinesPrivate(Program(size, rand), leftover, schedule);
    b, c, d := PrintedExactly(size, rand, schedule);
  }

  /** `lines` are all that stage `k` shows for the first `n` numbers. */
  ghost predicate Shows(lines: seq<Line>, k: nat, n: nat, rand: nat -> nat)
    requires 1 <= k <= 3
  {
    && |lines| == PerNumber(k) * n
    && forall i :: 0 <= i < |lines| ==> LineIs(lines[i], k, i, Made(rand, i / PerNumber(k)))
  }

  lemma ExpectedShows(size: int, rand: nat -> nat, k: nat)
    requires 1 <= k <= 3
    ensures Shows(Expected(k, Generated(size, rand)), k, if size > 0 then size else 0, rand)
  {
    var nums := Generated(size, rand);
    hide Expected, LineIs;
    ExpectedLength(k, nums);
    forall i | 0 <= i < |Expected(k, nums)|
      ensures LineIs(Expected(k, nums)[i], k, i, Made(rand, i / PerNumber(k)))
    {
      ExpectedLine(k, nums, i);
    }
  }

  lemma TotalLines(c: Config, schedule: seq<Actor>)
    requires c.Last() == 3
    ensures var out := Run(c, Initial(c), schedule).stdout;
            |out| == |Shown(out, 1)| + |Shown(out, 2)| + |Shown(out, 3)|
  {
    RunPrints(c, Initial(c), schedule);
    AllShown(Run(c, Initial(c), schedule).stdout);
  }

  lemma StageInTurn(size: int, rand: nat -> nat, schedule: seq<Actor>, k: nat, p: seq<nat>, q: seq<nat>, j: nat)
    requires var c := Program(size, rand);
             var out := Run(c, Initial(c), schedule).stdout;
             1 <= k <= 2 && PlacesOf(out, k, p) && PlacesOf(out, k + 1, q) && j < |q|
    ensures var i := j / PerNumber(k + 1); i < |p| && p[i] < q[j]
  {
    hide Run, Shown, Sequential, Places, PlaceOf;
    var c, i := Program(size, rand), j / PerNumber(k + 1);
    ShownBound(size, rand, schedule, k + 1);
    SequentialLength(c, k + 1, i);
    SequentialLength(c, k, i + 1);
    InTurn(c, schedule, k, i, j, p, q);
  }

  lemma ShownBound(size: int, rand: nat -> nat, schedule: seq<Actor>, k: nat)
    requires 1 <= k <= 3
    ensures var c := Program(size, rand);
            |Shown(Run(c, Initial(c), schedule).stdout, k)| <= PerNumber(k) * |c.nums|
  {
    hide Run, Shown, Expected;
    PipelineOutput(size, rand, schedule, k);
    ExpectedLength(k, Program(size, rand).nums);
  }

  /** What stage `k` has printed so far. */
  lemma StageLines(size: int, rand: nat -> nat, schedule: seq<Actor>, k: nat, at: seq<nat>)
    requires 1 <= k <= 3 && PlacesOf(Run(Program(size, rand), Initial(Program(size, rand)), schedule).stdout, k, at)
    ensures var s := Run(Program(size, rand), Initial(Program(size, rand)), schedule);
            var n := if size > 0 then size else 0;
            && Printed(s.stdout, at, k, rand) && |at| <= PerNumber(k) * n
            && (s.main.Finished? ==> |at| == PerNumber(k) * n)
            && (s.main.Finished? ==> |s.cells| == n && forall i :: 0 <= i < n ==> s.cells[i] == Made(rand, i))
  {
    hide Run, Shown, Expected, LineIs;
    var nums := Generated(size, rand);
    var s := Run(Program(size, rand), Initial(Program(size, rand)), schedule);
    PipelineOutput(size, rand, schedule, k);
    ExpectedLength(k, nums);
    forall i | 0 <= i < |at|
      ensures s.stdout[at[i]].stage == k && LineIs(s.stdout[at[i]].line, k, i, Made(rand, i / PerNumber(k)))
    {
      assert PlaceOf(s.stdout, k, i, at[i]);
      assert Shown(s.stdout, k)[i] == Expected(k, nums)[i];
      ExpectedLine(k, nums, i);
    }
  }

  lemma ExpectedLine(k: nat, nums: seq<int>, i: nat)
    requires 1 <= k <= 3 && i < |Expected(k, nums)|
    requires forall j :: 0 <= j < |nums| ==> 100000 <= nums[j] <= 999999
    ensures i / PerNumber(k) < |nums| && LineIs(Expected(k, nums)[i], k, i, nums[i / PerNumber(k)])
  {
    ExpectedLength(k, nums);
    var j := i / PerNumber(k);
    ExpectedAt(k, nums, j);
    LinesAre(k, nums[j]);
    hide Expected, Lines, Verdicts;
  }
}
