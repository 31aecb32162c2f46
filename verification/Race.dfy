/**
 * What happens to the program as written when its generator does not wait: two numbers, and the
 * second is stored before the first stage has looked at the first.
 */
module Race {
  import opened ActiveObject
  import opened ActiveObjectProtocol
  import opened ActiveObjectData
  import opened StPipeline
  import opened SharedCell

  /** The values of `rand()` for the numbers 100000 and 200000. */
  const RAND: nat -> nat := (i: nat) => if i == 0 then 0 else 100000

  const RACE := Config([PART_B, PART_C, PART_D], [100000, 200000], OneVariable(0))

  const HASTY: seq<Actor> :=
    [MainThread, Thread(0), Thread(0), Thread(0), Thread(0), Thread(1), Thread(1), Thread(1)]

  /** The four stages, of which the last two have not received anything. */
  function Stages(first: Stage, second: Stage): seq<Stage> {
    [first, second, Stage(Check, [], [], []), Stage(Check, [], [], [])]
  }

  /** The states of the hasty run: the generator overwrites its variable before stage 1 has read it. */
  function HastyState(i: nat): State
    requires i <= 8
  {
    var none: seq<Task>, args, num := [], [Args], [Num(0)];
    var empty := Stage(Check, none, none, none);
    match i
    case 0 => State(Stages(empty, empty), [], [], Feed)
    case 1 => State(Stages(Stage(Check, args, args, none), empty), [], [], Join(0))
    case 2 => State(Stages(Stage(Produce(0, false), none, args, args), empty), [], [], Join(0))
    case 3 => State(Stages(Stage(Produce(0, true), none, args, args), empty), [100000], [], Join(0))
    case 4 =>
      State(Stages(Stage(Produce(1, false), none, args, args), Stage(Check, num, num, none)), [100000], [], Join(0))
    case _ =>
      var generator := Stage(Produce(1, true), none, args, args);
      if i == 5 then
        State(Stages(generator, Stage(Check, num, num, none)), [200000], [], Join(0))
      else
        State(Stages(generator, Stage(Call(Num(0), i - 6), none, num, num)),
              [if i == 6 then 200000 else 200011], if i == 8 then [Event(1, Judge(200011))] else [], Join(0))
  }

  /** The main thread and the generator get going. */
  lemma GeneratorStarts(i: nat)
    requires i < 3
    ensures WellFormed(RACE, HastyState(i)) && Step(RACE, HastyState(i), HASTY[i]) == HastyState(i + 1)
  {
    var s, s' := HastyState(i), HastyState(i + 1);
    var none: seq<Task>, args := [], [Args];
    assert none + args == args && args[1..] == none;
    assert Step(RACE, s, HASTY[i]).stages == s'.stages;
  }

  /** The generator queues its first number and stores the second. */
  lemma GeneratorHurries(i: nat)
    requires 3 <= i < 5
    ensures WellFormed(RACE, HastyState(i)) && Step(RACE, HastyState(i), HASTY[i]) == HastyState(i + 1)
  {
    var s, s' := HastyState(i), HastyState(i + 1);
    var none: seq<Task>, num := [], [Num(0)];
    assert none + num == num;
    assert Step(RACE, s, HASTY[i]).stages == s'.stages;
    assert Step(RACE, s, HASTY[i]).cells == s'.cells;
  }

  /** Stage 1 takes the pointer to the first number, and finds the second. */
  lemma StageIsLate(i: nat)
    requires 5 <= i < 8
    ensures WellFormed(RACE, HastyState(i)) && Step(RACE, HastyState(i), HASTY[i]) == HastyState(i + 1)
  {
    var s, s' := HastyState(i), HastyState(i + 1);
    var none: seq<Task>, num := [], [Num(0)];
    assert none + num == num && num[1..] == none;
    assert Step(RACE, s, HASTY[i]).stages == s'.stages;
    assert Step(RACE, s, HASTY[i]).cells == s'.cells;
    assert Step(RACE, s, HASTY[i]).stdout == s'.stdout;
  }

  lemma HastyStep(i: nat)
    requires i < 8
    ensures WellFormed(RACE, HastyState(i)) && Step(RACE, HastyState(i), HASTY[i]) == HastyState(i + 1)
  {
    hide Step, HastyState;
    if i < 3 {
      GeneratorStarts(i);
    } else if i < 5 {
      GeneratorHurries(i);
    } else {
      StageIsLate(i);
    }
  }

  lemma {:induction false} HastyRun(i: nat)
    requires i <= 8
    ensures WellFormed(RACE, HastyState(i)) && Run(RACE, HastyState(i), HASTY[i..]) == HastyState(8)
    ensures i <= 6 ==> !Timely(RACE, HastyState(i), HASTY[i..])
    decreases 8 - i
  {
    if i < 8 {
      HastyStep(i);
      HastyRun(i + 1);
      assert HASTY[i..][1..] == HASTY[i + 1..];
    }
  }

  /** The race is one of the program as written. */
  lemma RaceIsWritten()
    ensures Written(2, RAND, 0) == RACE
  {
    assert Generated(2, RAND) == [100000, 200000];
  }

  lemma HastyEnds()
    ensures HASTY[0..] == HASTY && Initial(RACE) == HastyState(0)
    ensures HastyState(8).stdout == [Event(1, Judge(200011))] && Judge(200011).Verdict? && Judge(200011).value == 200011
    ensures Shown(HastyState(8).stdout, 1) == [Judge(200011)]
  {
    assert HastyState(8).stdout[..0] == [];
  }

  /** The first line that stage 1 is expected to show. */
  lemma FirstExpected()
    ensures |Expected(1, Generated(2, RAND))| == 2 && Expected(1, Generated(2, RAND))[0] == Judge(100011)
    ensures Judge(200011) != Judge(100011)
  {
    var nums := Generated(2, RAND);
    ExpectedStep(1, nums, 0);
    ExpectedStep(1, nums, 1);
    assert nums[..2] == nums;
  }

  /**
   * When the generator stores its second number before the next stage has read the first,
   * the first number is never shown: the output is no prefix of the expected one.
   */
  lemma RaceLosesANumber()
    ensures var h := Written(2, RAND, 0);
            && !Timely(h, Initial(h), HASTY)
            && Shown(Run(h, Initial(h), HASTY).stdout, 1) == [Judge(200011)]
            && |Run(h, Initial(h), HASTY).stdout| == 1
            && Run(h, Initial(h), HASTY).stdout[0].stage == 1
            && Run(h, Initial(h), HASTY).stdout[0].line.Verdict?
            && Run(h, Initial(h), HASTY).stdout[0].line.value == 200011
            && !(Shown(Run(h, Initial(h), HASTY).stdout, 1) <= Expected(1, h.nums))
  {
    RaceIsWritten();
    HastyRun(0);
    HastyEnds();
    FirstExpected();
    hide *;
  }
}
