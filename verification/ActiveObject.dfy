/**
 * A chain of active objects: one thread per stage, each running the same loop over its own
 * blocking queue and handing every task on to the next stage.
 *
 * Each critical section of the queue is one step. The stage functions are broken into the
 * single reads and writes of `*num`, so that the steps of different threads interleave freely.
 */
module ActiveObject {
  import Prime

  /** What a queue carries: the NULL sentinel, the argument block of stage 0, or a pointer to a number. */
  datatype Task = Null | Args | Num(id: nat)

  /** One access to `*num` in a stage function. */
  datatype Instr = Add(delta: int) | ShowVerdict | ShowValue

  /** One `printf`: the number with the outcome of `isPrime`, or the number alone. */
  datatype Line = Verdict(value: int, prime: bool) | Value(value: int)

  datatype Event = Event(stage: nat, line: Line)

  /** Where a stage thread is. */
  datatype PC =
    | Check                            // about to take the lock and test `head == NULL`
    | Asleep                           // inside `pthread_cond_wait`
    | Produce(i: nat, written: bool)   // stage 0 in its loop; `written`: the number is stored, not yet queued
    | Call(task: Task, ip: nat)        // inside `func(temp)`, before instruction `ip`
    | Forward(task: Task)              // about to queue `temp` at the next stage
    | PassNull                         // past the loop, about to queue NULL at the next stage
    | Done

  /** A stage: its thread, its queue, and the history of what was ever queued there and taken from it. */
  datatype Stage = Stage(pc: PC, queue: seq<Task>, received: seq<Task>, taken: seq<Task>)

  /** The main thread: hand out the argument block, join the threads, then stop the objects one by one. */
  datatype MainPC = Feed | Join(k: nat) | Stop(k: nat) | Finished

  /** `cells` is the memory that task pointers lead to; `stdout` is the one stream all stages print on. */
  datatype State = State(stages: seq<Stage>, cells: seq<int>, stdout: seq<Event>, main: MainPC)

  /** Where the numbers are kept. */
  datatype Memory = OwnCells | OneVariable(leftover: int)

  /**
   * `programs[k - 1]` is the stage function of stage `k`, `nums` the numbers stage 0 generates.
   * With `OneVariable`, every task pointer leads to the generator's single local variable, which holds
   * `leftover`, whatever that is, once the generator has returned from its function; with `OwnCells`,
   * each number has a cell of its own.
   */
  datatype Config = Config(programs: seq<seq<Instr>>, nums: seq<int>, memory: Memory) {
    function Last(): nat { |programs| }
    predicate Shared() { memory.OneVariable? }
    ghost predicate Valid() { |programs| >= 1 }
  }

  datatype Actor = MainThread | Thread(k: nat) | Spurious(k: nat)

  // ----- Values and output of a stage function -----

  function ApplyValue(instr: Instr, v: int): int {
    match instr
    case Add(delta) => v + delta
    case _ => v
  }

  /** The line that shows a number and whether it is prime; `isPrime` takes the number as unsigned. */
  function Judge(v: int): Line {
    Verdict(v, Prime.IsPrimeNumber(Prime.ToUnsigned(v)))
  }

  function ApplyLines(instr: Instr, v: int): seq<Line> {
    match instr
    case Add(_) => []
    case ShowVerdict => [Judge(v)]
    case ShowValue => [Value(v)]
  }

  // ----- Steps -----

  /** `enqueue`: link the node and signal, which wakes the consumer if it sleeps. */
  function Push(st: Stage, t: Task): Stage {
    Stage(if st.pc.Asleep? then Check else st.pc, st.queue + [t], st.received + [t], st.taken)
  }

  /** Where the loop of `run` goes with what `dequeue` returned. */
  function AfterDequeue(c: Config, k: nat, t: Task): PC {
    if t == Null then (if k < c.Last() then PassNull else Done)
    else if k == 0 then Produce(0, false)
    else Call(t, 0)
  }

  /** `dequeue`: wait while the queue is empty, otherwise unlink the head. */
  function Dequeue(c: Config, k: nat, st: Stage): Stage {
    if st.queue == [] then
      st.(pc := Asleep)
    else
      Stage(AfterDequeue(c, k, st.queue[0]), st.queue[1..], st.received, st.taken + [st.queue[0]])
  }

  function Address(c: Config, t: Task): nat
    requires t.Num?
  {
    if c.Shared() then 0 else t.id
  }

  /** What the memory holds when the function that owns the shared variable has returned. */
  function Release(c: Config, cells: seq<int>): seq<int> {
    if c.Shared() && cells != [] then [c.memory.leftover] else cells
  }

  /** The generator stores its next number: in the shared variable, or in a new cell. */
  function Store(c: Config, cells: seq<int>, v: int): seq<int> {
    if c.Shared() then [v] else cells + [v]
  }

  predicate WellFormed(c: Config, s: State) {
    |s.stages| == c.Last() + 1
  }

  predicate ThreadReady(c: Config, s: State, k: nat)
    requires WellFormed(c, s)
  {
    k <= c.Last() &&
    match s.stages[k].pc
    case Asleep => false
    case Done => false
    case Produce(i, written) => k < c.Last() && (written ==> i < |c.nums|)
    case Call(t, ip) => k >= 1 && ip <= |c.programs[k - 1]| && t.Num? && Address(c, t) < |s.cells|
    case Forward(_) => k < c.Last()
    case PassNull => k < c.Last()
    case Check => true
  }

  /** Queue `t` at stage `k + 1` while stage `k` moves on to `pc`. */
  function Hand(c: Config, s: State, k: nat, pc: PC, t: Task): State
    requires WellFormed(c, s) && k < c.Last()
  {
    s.(stages := s.stages[k := s.stages[k].(pc := pc)][k + 1 := Push(s.stages[k + 1], t)])
  }

  function Execute(c: Config, s: State, k: nat, t: Task, ip: nat): State
    requires WellFormed(c, s) && ThreadReady(c, s, k)
    requires s.stages[k].pc == Call(t, ip) && ip < |c.programs[k - 1]|
  {
    var a, instr := Address(c, t), c.programs[k - 1][ip];
    State(s.stages[k := s.stages[k].(pc := Call(t, ip + 1))],
          s.cells[a := ApplyValue(instr, s.cells[a])],
          s.stdout + Tag(k, ApplyLines(instr, s.cells[a])),
          s.main)
  }

  function Tag(k: nat, lines: seq<Line>): seq<Event> {
    seq(|lines|, i requires 0 <= i < |lines| => Event(k, lines[i]))
  }

  function ThreadStep(c: Config, s: State, k: nat): State
    requires WellFormed(c, s) && ThreadReady(c, s, k)
  {
    var st := s.stages[k];
    match st.pc
    case Check => s.(stages := s.stages[k := Dequeue(c, k, st)])
    case Produce(i, true) => Hand(c, s, k, Produce(i + 1, false), Num(i))
    case Produce(i, false) =>
      if i < |c.nums| then
        s.(stages := s.stages[k := st.(pc := Produce(i, true))], cells := Store(c, s.cells, c.nums[i]))
      else
        // The generator queues NULL at its own stage and returns; `flag` keeps `run` from forwarding.
        s.(stages := s.stages[k := Push(st.(pc := Check), Null)], cells := Release(c, s.cells))
    case Call(t, ip) =>
      if ip < |c.programs[k - 1]| then
        Execute(c, s, k, t, ip)
      else
        s.(stages := s.stages[k := st.(pc := if k < c.Last() then Forward(t) else Check)])
    case Forward(t) => Hand(c, s, k, Check, t)
    case PassNull => Hand(c, s, k, Done, Null)
  }

  predicate MainReady(c: Config, s: State)
    requires WellFormed(c, s)
  {
    match s.main
    case Feed => true
    case Join(k) => k <= c.Last() && s.stages[k].pc.Done?
    case Stop(k) => k <= c.Last() && s.stages[k].pc.Done?
    case Finished => false
  }

  function MainStep(c: Config, s: State): State
    requires WellFormed(c, s) && MainReady(c, s)
  {
    match s.main
    case Feed => s.(stages := s.stages[0 := Push(s.stages[0], Args)], main := Join(0))
    case Join(k) => s.(main := if k < c.Last() then Join(k + 1) else Stop(0))
    case Stop(k) => s.(main := if k < c.Last() then Stop(k + 1) else Finished)
  }

  predicate Enabled(c: Config, s: State, a: Actor)
    requires WellFormed(c, s)
  {
    match a
    case MainThread => MainReady(c, s)
    case Thread(k) => ThreadReady(c, s, k)
    case Spurious(k) => k <= c.Last() && s.stages[k].pc.Asleep?
  }

  /** The step of one actor; an actor that cannot move leaves the state as it is. */
  function Step(c: Config, s: State, a: Actor): (s': State)
    requires WellFormed(c, s)
    ensures WellFormed(c, s')
  {
    if !Enabled(c, s, a) then s else
    match a
    case MainThread => MainStep(c, s)
    case Thread(k) => ThreadStep(c, s, k)
    case Spurious(k) => s.(stages := s.stages[k := s.stages[k].(pc := Check)])
  }

  function Initial(c: Config): (s: State)
    ensures WellFormed(c, s)
  {
    State(seq(c.Last() + 1, _ => Stage(Check, [], [], [])), [], [], Feed)
  }

  /** The state after the actors have moved in the order of `schedule`. */
  function Run(c: Config, s: State, schedule: seq<Actor>): (s': State)
    requires WellFormed(c, s)
    ensures WellFormed(c, s')
    decreases |schedule|
  {
    if schedule == [] then s else Run(c, Step(c, s, schedule[0]), schedule[1..])
  }

  lemma {:induction false} RunAppend(c: Config, s: State, first: seq<Actor>, second: seq<Actor>)
    requires WellFormed(c, s)
    ensures Run(c, s, first + second) == Run(c, Run(c, s, first), second)
    decreases |first|
  {
    if first == [] {
      assert first + second == second;
    } else {
      assert (first + second)[1..] == first[1..] + second;
      RunAppend(c, Step(c, s, first[0]), first[1..], second);
    }
  }

}
