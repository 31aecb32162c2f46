/**
 * The code of the threads on queues in memory: the generator, the three stage functions and the
 * loop of `run`, each against its sequential meaning. The queue of the loop of `run`
 * may be empty at first, and is filled while the loop runs.
 */
module StageLoop {
  import Prime
  import opened TaskQueue
  import opened ActiveObject
  import opened ActiveObjectProtocol
  import opened ActiveObjectData
  import opened StPipeline
  import opened PipelinePrints

  const PROGRAMS: seq<seq<Instr>> := [PART_B, PART_C, PART_D]

  /** Print a number and whether it is prime. */
  method Show(v: int) returns (line: Line)
    ensures line == Judge(v)
  {
    var prime := Prime.IsPrime(Prime.ToUnsigned(v));
    line := Verdict(v, prime);
  }

  method PartDB(num: array<int>, a: nat) returns (out: seq<Line>)
    requires a < num.Length
    modifies num
    ensures num[..] == old(num[..])[a := RunValue(PART_B, old(num[..])[a])]
    ensures out == RunLines(PART_B, old(num[a]))
  {
    PartB(num[a]);
    num[a] := num[a] + 11;
    var line := Show(num[a]);
    out := [line];
  }

  method PartDC(num: array<int>, a: nat) returns (out: seq<Line>)
    requires a < num.Length
    modifies num
    ensures num[..] == old(num[..])[a := RunValue(PART_C, old(num[..])[a])]
    ensures out == RunLines(PART_C, old(num[a]))
  {
    PartC(num[a]);
    num[a] := num[a] - 13;
    var line := Show(num[a]);
    out := [line];
  }

  method PartDD(num: array<int>, a: nat) returns (out: seq<Line>)
    requires a < num.Length
    modifies num
    ensures num[..] == old(num[..])[a := RunValue(PART_D, old(num[..])[a])]
    ensures out == RunLines(PART_D, old(num[a]))
  {
    PartD(num[a]);
    var line := Show(num[a]);
    num[a] := num[a] + 2;
    out := [line, Value(num[a])];
  }

  method Func(k: nat, num: array<int>, a: nat) returns (out: seq<Line>)
    requires 1 <= k <= 3 && a < num.Length
    modifies num
    ensures num[..] == old(num[..])[a := RunValue(PROGRAMS[k - 1], old(num[..])[a])]
    ensures out == RunLines(PROGRAMS[k - 1], old(num[..])[a])
  {
    if k == 1 {
      out := PartDB(num, a);
    } else if k == 2 {
      out := PartDC(num, a);
    } else {
      out := PartDD(num, a);
    }
  }

  /** A stream of numbers closed by NULL, whose pointers lead into a memory of `size` cells. */
  predicate NullEnded(tasks: seq<Task>, size: nat) {
    && |tasks| > 0 && tasks[|tasks| - 1] == Null
    && forall i :: 0 <= i < |tasks| - 1 ==> tasks[i].Num? && tasks[i].id < size
  }

  /** Memory and output after a stage function has run on every number of a closed stream, in order. */
  function Memory(program: seq<Instr>, tasks: seq<Task>, mem: seq<int>): (r: seq<int>)
    requires NullEnded(tasks, |mem|)
    ensures |r| == |mem|
    decreases |tasks|
  {
    if |tasks| == 1 then mem
    else Memory(program, tasks[1..], mem[tasks[0].id := RunValue(program, mem[tasks[0].id])])
  }

  function Output(program: seq<Instr>, tasks: seq<Task>, mem: seq<int>): seq<Line>
    requires NullEnded(tasks, |mem|)
    decreases |tasks|
  {
    if |tasks| == 1 then []
    else RunLines(program, mem[tasks[0].id]) +
         Output(program, tasks[1..], mem[tasks[0].id := RunValue(program, mem[tasks[0].id])])
  }

  lemma OneRound(program: seq<Instr>, t: Task, rest: seq<Task>, mem: seq<int>)
    requires NullEnded([t] + rest, |mem|) && t != Null
    ensures t.Num? && t.id < |mem| && NullEnded(rest, |mem|)
    ensures Memory(program, [t] + rest, mem) == Memory(program, rest, mem[t.id := RunValue(program, mem[t.id])])
    ensures Output(program, [t] + rest, mem) ==
            RunLines(program, mem[t.id]) + Output(program, rest, mem[t.id := RunValue(program, mem[t.id])])
  {
    var tasks := [t] + rest;
    assert tasks[0] == t && tasks[1..] == rest;
    assert |rest| > 0 && rest[|rest| - 1] == tasks[|tasks| - 1];
    forall i | 0 <= i < |rest| - 1
      ensures rest[i].Num? && rest[i].id < |mem|
    {
      assert rest[i] == tasks[i + 1];
    }
  }

  /** `left` is what remains to be done; it leads from memory `now` to `mem` and completes `shown` to `out`. */
  ghost predicate Remaining(program: seq<Instr>, left: seq<Task>, now: seq<int>, shown: seq<Line>,
                            mem: seq<int>, out: seq<Line>) {
    NullEnded(left, |now|) && Memory(program, left, now) == mem && shown + Output(program, left, now) == out
  }

  lemma RemainingAll(program: seq<Instr>, tasks: seq<Task>, mem: seq<int>)
    requires NullEnded(tasks, |mem|)
    ensures tasks != [] && Remaining(program, tasks, mem, [], Memory(program, tasks, mem), Output(program, tasks, mem))
  {
    assert [] + Output(program, tasks, mem) == Output(program, tasks, mem);
  }

  lemma RemainingStep(program: seq<Instr>, t: Task, rest: seq<Task>, now: seq<int>, shown: seq<Line>,
                      mem: seq<int>, out: seq<Line>)
    requires Remaining(program, [t] + rest, now, shown, mem, out) && t != Null
    ensures t.Num? && t.id < |now| && rest != []
    ensures Remaining(program, rest, now[t.id := RunValue(program, now[t.id])],
                      shown + RunLines(program, now[t.id]), mem, out)
  {
    OneRound(program, t, rest, now);
    var after := now[t.id := RunValue(program, now[t.id])];
    assert shown + (RunLines(program, now[t.id]) + Output(program, rest, after)) ==
           shown + RunLines(program, now[t.id]) + Output(program, rest, after);
  }

  lemma RemainingEnd(program: seq<Instr>, rest: seq<Task>, now: seq<int>, shown: seq<Line>,
                     mem: seq<int>, out: seq<Line>)
    requires Remaining(program, [Null] + rest, now, shown, mem, out)
    ensures rest == [] && now == mem && shown == out
  {
    assert ([Null] + rest)[0] == Null;
  }

  /** Queue what was taken at the next stage, if there is one. */
  method Hand(next: Queue?<Task>, temp: Task)
    requires next != null ==> next.Valid()
    modifies next, (if next == null then {} else next.nodes)
    ensures next != null ==> next.Valid() && fresh(next.nodes - old(next.nodes))
    ensures next != null ==> next.contents == old(next.contents) + [temp]
  {
    if next != null {
      next.Enqueue(temp);
    }
  }

  /** `dequeue` on a queue that holds a task. */
  method Next(queue: Queue<Task>) returns (temp: Task)
    requires queue.Valid() && queue.contents != []
    modifies queue
    ensures queue.Valid() && queue.nodes == old(queue.nodes) && old(queue.contents) == [temp] + queue.contents
  {
    var r := queue.TryDequeue();
    temp := r.value;
  }

  /**
   * What the stage before does before a `dequeue` of this thread returns: it queues `burst` of the tasks
   * that are still to come, as far as there are so many, and at least one if the queue is empty.
   */
  method Arrive(queue: Queue<Task>, coming: seq<Task>, burst: nat) returns (later: seq<Task>)
    requires queue.Valid() && queue.contents + coming != []
    modifies queue, queue.nodes
    ensures queue.Valid() && fresh(queue.nodes - old(queue.nodes))
    ensures queue.contents != [] && queue.contents + later == old(queue.contents) + coming
  {
    var waiting := queue.IsEmpty();
    hide *;
    var n := burst;
    later := coming;
    while later != [] && (n > 0 || waiting)
      invariant queue.Valid() && fresh(queue.nodes - old(queue.nodes))
      invariant waiting == (queue.contents == []) && queue.contents + later == old(queue.contents) + coming
      decreases |later|
    {
      Regroup(queue.contents, later[0], later[1..]);
      assert later == [later[0]] + later[1..];
      queue.Enqueue(later[0]);
      later := later[1..];
      n := if n > 0 then n - 1 else 0;
      waiting := false;
    }
  }

  /** `dequeue` while tasks may still arrive. */
  method Await(queue: Queue<Task>, coming: seq<Task>, burst: nat) returns (temp: Task, later: seq<Task>)
    requires queue.Valid() && queue.contents + coming != []
    modifies queue, queue.nodes
    ensures queue.Valid() && fresh(queue.nodes - old(queue.nodes))
    ensures old(queue.contents) + coming == [temp] + (queue.contents + later)
  {
    hide *;
    later := Arrive(queue, coming, burst);
    ghost var tasks := queue.contents;
    temp := Next(queue);
    Front(temp, queue.contents, later, tasks);
  }

  lemma Front(t: Task, a: seq<Task>, b: seq<Task>, tasks: seq<Task>)
    requires tasks == [t] + a
    ensures tasks + b == [t] + (a + b)
  {
  }

  /** The stage function on the first of the tasks that remain. */
  method Apply(k: nat, num: array<int>, temp: Task, ghost rest: seq<Task>, shown: seq<Line>,
               ghost mem: seq<int>, ghost out: seq<Line>)
    returns (lines: seq<Line>)
    requires 1 <= k <= 3 && temp != Null
    requires Remaining(PROGRAMS[k - 1], [temp] + rest, num[..], shown, mem, out)
    modifies num
    ensures rest != [] && Remaining(PROGRAMS[k - 1], rest, num[..], lines, mem, out)
  {
    RemainingStep(PROGRAMS[k - 1], temp, rest, num[..], shown, mem, out);
    var more := Func(k, num, temp.id);
    lines := shown + more;
  }

  /** One round of the loop of `run`, up to the return of the next `dequeue`. */
  method Round(k: nat, queue: Queue<Task>, coming: seq<Task>, burst: nat, next: Queue?<Task>, num: array<int>,
               temp: Task, shown: seq<Line>, ghost mem: seq<int>, ghost out: seq<Line>)
    returns (lines: seq<Line>, succ: Task, later: seq<Task>)
    requires 1 <= k <= 3 && queue.Valid() && temp != Null
    requires next != null ==> next.Valid() && next != queue && next.nodes !! queue.nodes
    requires Remaining(PROGRAMS[k - 1], [temp] + (queue.contents + coming), num[..], shown, mem, out)
    modifies queue, queue.nodes, next, (if next == null then {} else next.nodes), num
    ensures queue.Valid() && fresh(queue.nodes - old(queue.nodes))
    ensures old(queue.contents) + coming == [succ] + (queue.contents + later)
    ensures next != null ==> next.Valid() && fresh(next.nodes - old(next.nodes)) && next.nodes !! queue.nodes
    ensures next != null ==> next.contents == old(next.contents) + [temp]
    ensures Remaining(PROGRAMS[k - 1], old(queue.contents) + coming, num[..], lines, mem, out)
  {
    hide *;
    lines := Apply(k, num, temp, queue.contents + coming, shown, mem, out);
    Hand(next, temp);
    succ, later := Await(queue, coming, burst);
  }

  /**
   * `run` with `flag != 1`: apply the stage function to every task and hand it on, NULL last. The queue
   * may be empty at first; `coming` are the tasks that the stage before has still to queue, and `burst`
   * says how many of them it queues before each `dequeue` returns.
   */
  method RunLoop(k: nat, queue: Queue<Task>, coming: seq<Task>, burst: nat -> nat, next: Queue?<Task>, num: array<int>)
    returns (out: seq<Line>)
    requires 1 <= k <= 3 && queue.Valid() && NullEnded(queue.contents + coming, num.Length)
    requires next != null ==> next.Valid() && next != queue && next.nodes !! queue.nodes
    modifies queue, queue.nodes, next, (if next == null then {} else next.nodes), num
    ensures queue.Valid() && fresh(queue.nodes - old(queue.nodes)) && queue.contents == []
    ensures next != null ==> next.Valid() && fresh(next.nodes - old(next.nodes)) && next.nodes !! queue.nodes
    ensures next != null ==> next.contents == old(next.contents) + (old(queue.contents) + coming)
    ensures num[..] == Memory(PROGRAMS[k - 1], old(queue.contents) + coming, old(num[..]))
    ensures out == Output(PROGRAMS[k - 1], old(queue.contents) + coming, old(num[..]))
  {
    hide Queue.Valid, Remaining, NullEnded, Memory, Output;
    out := [];
    ghost var left := queue.contents + coming;
    ghost var all := if next == null then [] else next.contents + left;
    ghost var mem, shown := Memory(PROGRAMS[k - 1], left, num[..]), Output(PROGRAMS[k - 1], left, num[..]);
    RemainingAll(PROGRAMS[k - 1], left, num[..]);
    hide *;
    var temp, later := Await(queue, coming, burst(0));
    var calls := 1;
    while temp != Null
      invariant queue.Valid() && fresh(queue.nodes - old(queue.nodes)) && left == [temp] + (queue.contents + later)
      invariant next != null ==> next.Valid() && fresh(next.nodes - old(next.nodes)) && next.nodes !! queue.nodes
      invariant next != null ==> next.contents + left == all
      invariant Remaining(PROGRAMS[k - 1], left, num[..], out, mem, shown)
      decreases |left|
    {
      Regroup(if next == null then [] else next.contents, temp, queue.contents + later);
      left := queue.contents + later;
      out, temp, later := Round(k, queue, later, burst(calls), next, num, temp, out, mem, shown);
      calls := calls + 1;
    }
    RemainingEnd(PROGRAMS[k - 1], queue.contents + later, num[..], out, mem, shown);
    Hand(next, temp);
  }

  lemma Regroup(a: seq<Task>, t: Task, b: seq<Task>)
    ensures a + ([t] + b) == a + [t] + b
  {
  }

  // ----- The whole program, one thread after the other -----

  /** The loop of `partD_a`: store and queue `size` numbers. */
  method Produce(size: int, rand: nat -> nat, next: Queue<Task>) returns (num: array<int>)
    requires next.Valid() && next.contents == []
    modifies next, next.nodes
    ensures next.Valid() && fresh(next.nodes - old(next.nodes))
    ensures fresh(num) && num[..] == Generated(size, rand)
    ensures |next.contents| == num.Length && forall j :: 0 <= j < num.Length ==> next.contents[j] == Num(j)
  {
    hide Queue.Valid;
    num := new int[if size > 0 then size else 0];
    var i := 0;
    while i < size
      invariant 0 <= i <= num.Length
      invariant forall j: nat :: j < i ==> num[j] == rand(j) % 900000 + 100000
      invariant next.Valid() && fresh(next.nodes - old(next.nodes))
      invariant |next.contents| == i && forall j :: 0 <= j < i ==> next.contents[j] == Num(j)
    {
      num[i] := rand(i) % 900000 + 100000;
      next.Enqueue(Num(i));
      i := i + 1;
    }
  }

  /** `run` with `flag == 1` around `partD_a`: NULL goes through the generator's own queue, then to the next one. */
  method Generate(size: int, rand: nat -> nat, own: Queue<Task>, next: Queue<Task>) returns (num: array<int>)
    requires own.Valid() && own.contents == [Args]
    requires next.Valid() && own != next && own.nodes !! next.nodes && next.contents == []
    modifies own, own.nodes, next, next.nodes
    ensures own.Valid() && own.contents == []
    ensures next.Valid() && fresh(next.nodes - old(next.nodes))
    ensures fresh(num) && num[..] == Generated(size, rand)
    ensures next.contents == Stream(Program(size, rand), 1)
    ensures |next.contents| == num.Length + 1 && next.contents[num.Length] == Null
    ensures forall j :: 0 <= j < num.Length ==> next.contents[j] == Num(j)
  {
    hide Queue.Valid;
    var temp := Next(own);
    num := Produce(size, rand, next);
    own.Enqueue(Null);
    temp := Next(own);
    next.Enqueue(temp);
  }

  lemma StreamTail(c: Config, j: nat)
    requires j <= |c.nums|
    ensures NullEnded(Stream(c, 1)[j..], |c.nums|)
    ensures j < |c.nums| ==> Stream(c, 1)[j..][0] == Num(j) && Stream(c, 1)[j..][1..] == Stream(c, 1)[j + 1..]
  {
  }

  /** The numbers from `j` on are worked off in order, each in its own cell. */
  lemma {:induction false} WorkOff(c: Config, k: nat, j: nat, mem: seq<int>)
    requires 1 <= k <= c.Last() && |mem| == |c.nums| && j <= |mem|
    requires forall i :: j <= i < |mem| ==> mem[i] == Arrival(c, k, i)
    ensures NullEnded(Stream(c, 1)[j..], |mem|)
    ensures var after := Memory(c.programs[k - 1], Stream(c, 1)[j..], mem);
            && (forall i :: 0 <= i < j ==> after[i] == mem[i])
            && (forall i :: j <= i < |mem| ==> after[i] == Arrival(c, k + 1, i))
    ensures Sequential(c, k, |mem|) == Sequential(c, k, j) + Output(c.programs[k - 1], Stream(c, 1)[j..], mem)
    decreases |mem| - j
  {
    hide Memory, Output, NullEnded, RunLines, RunValue;
    var tasks, program := Stream(c, 1)[j..], c.programs[k - 1];
    StreamTail(c, j);
    if j < |mem| {
      var v, rest := RunValue(program, mem[j]), Stream(c, 1)[j + 1..];
      var step := mem[j := v];
      assert v == Arrival(c, k + 1, j);
      assert Sequential(c, k, j + 1) == Sequential(c, k, j) + RunLines(program, mem[j]);
      assert tasks == [Num(j)] + rest;
      hide Stream, Sequential, Arrival;
      OneRound(program, Num(j), rest, mem);
      WorkOff(c, k, j + 1, step);
    } else {
      assert tasks == [Null];
      NothingLeft(program, mem);
    }
  }

  lemma NothingLeft(program: seq<Instr>, mem: seq<int>)
    ensures NullEnded([Null], |mem|) && Memory(program, [Null], mem) == mem && Output(program, [Null], mem) == []
  {
  }

  /** One stage of the program on its full queue. */
  lemma WholeStage(c: Config, k: nat, mem: seq<int>)
    requires 1 <= k <= c.Last() && |mem| == |c.nums|
    requires forall i :: 0 <= i < |mem| ==> mem[i] == Arrival(c, k, i)
    ensures NullEnded(Stream(c, 1), |mem|)
    ensures var after := Memory(c.programs[k - 1], Stream(c, 1), mem);
            forall i :: 0 <= i < |mem| ==> after[i] == Arrival(c, k + 1, i)
    ensures Output(c.programs[k - 1], Stream(c, 1), mem) == Sequential(c, k, |mem|)
  {
    WorkOff(c, k, 0, mem);
    assert Stream(c, 1)[0..] == Stream(c, 1);
  }

  /** Stage `k` of the program, into the empty queue of the next stage. */
  method Stage(ghost c: Config, k: nat, queue: Queue<Task>, coming: seq<Task>, burst: nat -> nat, next: Queue?<Task>,
               num: array<int>)
    returns (out: seq<Line>)
    requires 1 <= k <= 3 && c.programs == PROGRAMS && num.Length == |c.nums|
    requires forall i :: 0 <= i < num.Length ==> num[i] == Arrival(c, k, i)
    requires queue.Valid() && queue.contents + coming == Stream(c, 1)
    requires next != null ==> next.Valid() && next != queue && next.nodes !! queue.nodes && next.contents == []
    modifies queue, queue.nodes, next, (if next == null then {} else next.nodes), num
    ensures queue.Valid() && queue.contents == []
    ensures next != null ==> next.Valid() && fresh(next.nodes - old(next.nodes)) && next.contents == Stream(c, 1)
    ensures forall i :: 0 <= i < num.Length ==> num[i] == Arrival(c, k + 1, i)
    ensures out == Sequential(c, k, num.Length)
  {
    WholeStage(c, k, num[..]);
    out := RunLoop(k, queue, coming, burst, next, num);
    assert next != null ==> next.contents == [] + Stream(c, 1);
    assert forall i :: 0 <= i < num.Length ==> num[i] == num[..][i];
  }

  /** The three stages one after the other, from the full queue of the first. */
  method RunStages(ghost config: Config, q2: Queue<Task>, num: array<int>)
    returns (b: seq<Line>, c: seq<Line>, d: seq<Line>)
    requires config.programs == PROGRAMS && num[..] == config.nums
    requires q2.Valid() && q2.contents == Stream(config, 1)
    modifies q2, q2.nodes, num
    ensures b == Sequential(config, 1, num.Length)
    ensures c == Sequential(config, 2, num.Length)
    ensures d == Sequential(config, 3, num.Length)
    ensures forall i :: 0 <= i < num.Length ==> num[i] == Arrival(config, 4, i)
  {
    hide Queue.Valid, Stream, Sequential;
    var burst: nat -> nat := _ => 0;
    assert q2.contents + [] == q2.contents;
    assert forall i :: 0 <= i < num.Length ==> num[i] == num[..][i];
    var q3 := new Queue<Task>();
    b := Stage(config, 1, q2, [], burst, q3, num);
    var q4 := new Queue<Task>();
    c := Stage(config, 2, q3, [], burst, q4, num);
    d := Stage(config, 3, q4, [], burst, null, num);
  }

  lemma ProgramMeaning(size: int, rand: nat -> nat, values: seq<int>)
    requires var config := Program(size, rand);
             |values| == |config.nums| && forall i :: 0 <= i < |values| ==> values[i] == Arrival(config, 4, i)
    ensures values == Generated(size, rand)
    ensures forall k :: 1 <= k <= 3 ==>
              Sequential(Program(size, rand), k, |values|) == Expected(k, Generated(size, rand))
  {
    var config := Program(size, rand);
    assert config.nums[..|values|] == config.nums;
    forall k | 1 <= k <= 3
      ensures Sequential(config, k, |values|) == Expected(k, config.nums)
    {
      SequentialIsExpected(config, k, |values|);
    }
    forall i | 0 <= i < |values|
      ensures values[i] == config.nums[i]
    {
      Arrivals(config, i);
    }
  }

  /**
   * The program with its threads run one after the other: the stages show what the specification
   * of the pipeline says, and every number ends as it began.
   */
  method RunPipeline(size: int, rand: nat -> nat)
    returns (b: seq<Line>, c: seq<Line>, d: seq<Line>, values: seq<int>)
    ensures var nums := Generated(size, rand);
            b == Expected(1, nums) && c == Expected(2, nums) && d == Expected(3, nums) && values == nums
    ensures var n := if size > 0 then size else 0;
            && Shows(b, 1, n, rand) && Shows(c, 2, n, rand) && Shows(d, 3, n, rand)
            && |values| == n && forall i :: 0 <= i < n ==> values[i] == Made(rand, i)
  {
    hide Queue.Valid, Stream, Expected, Shows;
    var q1 := new Queue<Task>();
    q1.Enqueue(Args);
    var q2 := new Queue<Task>();
    var num := Generate(size, rand, q1, q2);
    b, c, d := RunStages(Program(size, rand), q2, num);
    values := num[..];
    ProgramMeaning(size, rand, values);
    ExpectedShows(size, rand, 1);
    ExpectedShows(size, rand, 2);
    ExpectedShows(size, rand, 3);
  }

}
