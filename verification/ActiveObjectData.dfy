/**
 * What every interleaving computes when each number has a cell of its own: each stage
 * shows a prefix of what a single thread, taking the numbers one after the other, would show.
 */
module ActiveObjectData {
  import opened ActiveObject
  import opened ActiveObjectProtocol

  // ----- The sequential meaning of the chain -----

  /** The value that `program` leaves behind. */
  function RunValue(program: seq<Instr>, v: int): int
    decreases |program|
  {
    if program == [] then v
    else ApplyValue(program[|program| - 1], RunValue(program[..|program| - 1], v))
  }

  /** What `program` shows. */
  function RunLines(program: seq<Instr>, v: int): seq<Line>
    decreases |program|
  {
    if program == [] then []
    else var init := program[..|program| - 1];
         RunLines(init, v) + ApplyLines(program[|program| - 1], RunValue(init, v))
  }

  /** The value with which number `i` arrives at stage `k`; past the last stage, its final value. */
  function Arrival(c: Config, k: nat, i: nat): int
    requires 1 <= k <= c.Last() + 1 && i < |c.nums|
  {
    if k == 1 then c.nums[i] else RunValue(c.programs[k - 2], Arrival(c, k - 1, i))
  }

  /** What stage `k` shows for the first `count` numbers. */
  function Sequential(c: Config, k: nat, count: nat): seq<Line>
    requires 1 <= k <= c.Last() && count <= |c.nums|
  {
    if count == 0 then []
    else Sequential(c, k, count - 1) + RunLines(c.programs[k - 1], Arrival(c, k, count - 1))
  }

  /** The lines that stage `k` has put on the stream. */
  function Shown(out: seq<Event>, k: nat): seq<Line>
    decreases |out|
  {
    if out == [] then []
    else var e := out[|out| - 1];
         Shown(out[..|out| - 1], k) + (if e.stage == k then [e.line] else [])
  }

  // ----- The invariant -----

  /** A stage inside its function holds one of the numbers and stands at one of the instructions. */
  ghost predicate InHand(c: Config, k: nat, st: Stage)
    requires 1 <= k <= c.Last()
  {
    st.pc.Call? ==> 1 <= |st.taken| <= |c.nums| && st.pc.ip <= |c.programs[k - 1]|
  }

  /** What stage `k` has shown so far, according to where its thread is. */
  ghost function Progress(c: Config, k: nat, st: Stage): seq<Line>
    requires 1 <= k <= c.Last() && InHand(c, k, st)
  {
    if st.pc.Call? then
      Sequential(c, k, |st.taken| - 1) + RunLines(c.programs[k - 1][..st.pc.ip], Arrival(c, k, |st.taken| - 1))
    else
      Sequential(c, k, if |st.taken| <= |c.nums| then |st.taken| else |c.nums|)
  }

  /** How many numbers have come as far as the thread of stage `k`. */
  ghost function Reached(c: Config, s: State, k: nat): nat
    requires WellFormed(c, s) && k <= c.Last() + 1
  {
    if k == 0 then |s.cells|
    else if k == c.Last() + 1 then 0
    else if |s.stages[k].taken| <= |c.nums| then |s.stages[k].taken| else |c.nums|
  }

  /** Stage `k` is inside its stage function, working on number `i`. */
  ghost predicate Working(s: State, k: nat, i: nat)
    requires k < |s.stages|
  {
    s.stages[k].pc.Call? && i == |s.stages[k].taken| - 1
  }

  /** Number `i` has left the function of stage `k` and not yet entered that of stage `k + 1`. */
  ghost predicate Resting(c: Config, s: State, k: nat, i: nat)
    requires WellFormed(c, s) && k <= c.Last()
  {
    Reached(c, s, k + 1) <= i < Reached(c, s, k) && !Working(s, k, i)
  }

  ghost predicate RestOK(c: Config, s: State, k: nat, i: nat)
    requires WellFormed(c, s) && k <= c.Last() && i < |c.nums|
  {
    Resting(c, s, k, i) ==> i < |s.cells| && s.cells[i] == Arrival(c, k + 1, i)
  }

  ghost predicate CallOK(c: Config, s: State, k: nat)
    requires WellFormed(c, s) && 1 <= k <= c.Last()
  {
    var st := s.stages[k];
    InHand(c, k, st) &&
    (st.pc.Call? ==>
      var i := |st.taken| - 1;
      && i < |s.cells|
      && s.cells[i] == RunValue(c.programs[k - 1][..st.pc.ip], Arrival(c, k, i)))
  }

  ghost predicate LogOK(c: Config, s: State, k: nat)
    requires WellFormed(c, s) && 1 <= k <= c.Last()
  {
    InHand(c, k, s.stages[k]) && Shown(s.stdout, k) == Progress(c, k, s.stages[k])
  }

  ghost predicate DataInv(c: Config, s: State) {
    && !c.Shared() && Inv(c, s)
    && (forall k :: 1 <= k <= c.Last() ==> LogOK(c, s, k))
    && (forall k :: 1 <= k <= c.Last() ==> CallOK(c, s, k))
    && (forall k, i :: 0 <= k <= c.Last() && 0 <= i < |c.nums| ==> RestOK(c, s, k, i))
  }

  // ----- Numbers pass the stages in order -----

  lemma {:induction false} ReachedMonotone(c: Config, s: State, a: nat, b: nat)
    requires Inv(c, s) && !c.Shared() && a <= b <= c.Last() + 1
    ensures Reached(c, s, b) <= Reached(c, s, a)
    decreases b - a
  {
    if a < b {
      ReachedStep(c, s, a);
      ReachedMonotone(c, s, a + 1, b);
    }
  }

  lemma ReachedStep(c: Config, s: State, k: nat)
    requires Inv(c, s) && !c.Shared() && k <= c.Last()
    ensures Reached(c, s, k + 1) <= Reached(c, s, k)
    ensures s.stages[k].pc.Call? ==> Reached(c, s, k) == |s.stages[k].taken| && Reached(c, s, k + 1) < Reached(c, s, k)
  {
    assert Orderly(c, s, k);
    if k < c.Last() {
      assert Linked(c, s, k) && Orderly(c, s, k + 1);
    }
  }

  /** The number a stage works on is beyond the reach of every other stage. */
  lemma WorkingAlone(c: Config, s: State, k: nat, j: nat, i: nat)
    requires Inv(c, s) && !c.Shared() && 1 <= k <= c.Last() && Working(s, k, i)
    requires j <= c.Last() && j != k
    ensures !Resting(c, s, j, i) && !Working(s, j, i)
  {
    ReachedStep(c, s, k);
    ReachedStep(c, s, j);
    if j < k {
      ReachedMonotone(c, s, j + 1, k);
    } else {
      ReachedMonotone(c, s, k + 1, j);
    }
  }

  // ----- Preservation -----

  lemma {:induction false} ShownTag(out: seq<Event>, k: nat, lines: seq<Line>, j: nat)
    ensures Shown(out + Tag(k, lines), j) == Shown(out, j) + (if j == k then lines else [])
    decreases |lines|
  {
    if lines == [] {
      assert out + Tag(k, lines) == out;
    } else {
      var init := lines[..|lines| - 1];
      ShownTag(out, k, init, j);
      var all := out + Tag(k, lines);
      assert all[..|all| - 1] == out + Tag(k, init);
      assert init + [lines[|lines| - 1]] == lines;
    }
  }

  lemma PrefixStep(program: seq<Instr>, ip: nat, v: int)
    requires ip < |program|
    ensures RunValue(program[..ip + 1], v) == ApplyValue(program[ip], RunValue(program[..ip], v))
    ensures RunLines(program[..ip + 1], v) ==
            RunLines(program[..ip], v) + ApplyLines(program[ip], RunValue(program[..ip], v))
  {
    assert program[..ip + 1][..ip] == program[..ip];
  }

  lemma InitialData(c: Config)
    requires c.Valid() && !c.Shared()
    ensures DataInv(c, Initial(c))
  {
    InitialInv(c);
  }

  /** The thread of a stage has taken no further number and is not inside its stage function. */
  ghost predicate SamePlace(c: Config, st: Stage, st': Stage) {
    if st.pc.Call? || st'.pc.Call? then st'.pc == st.pc && st'.taken == st.taken
    else |st'.taken| == |st.taken| || (|st.taken| == |c.nums| && |st'.taken| == |c.nums| + 1)
  }

  /** A step that neither prints nor writes memory, and moves no number from one place to another. */
  lemma QuietStep(c: Config, s: State, s': State)
    requires DataInv(c, s) && Inv(c, s')
    requires s'.cells == s.cells && s'.stdout == s.stdout
    requires forall k :: 1 <= k <= c.Last() ==> SamePlace(c, s.stages[k], s'.stages[k])
    ensures DataInv(c, s')
  {
    forall k | 1 <= k <= c.Last()
      ensures LogOK(c, s', k) && CallOK(c, s', k)
    {
      assert LogOK(c, s, k) && CallOK(c, s, k);
      QuietHere(c, s, s', k);
    }
    forall k, i | 0 <= k <= c.Last() && 0 <= i < |c.nums|
      ensures RestOK(c, s', k, i)
    {
      assert RestOK(c, s, k, i);
      QuietRest(c, s, s', k, i);
    }
  }

  lemma QuietHere(c: Config, s: State, s': State, k: nat)
    requires WellFormed(c, s) && WellFormed(c, s') && 1 <= k <= c.Last() && LogOK(c, s, k) && CallOK(c, s, k)
    requires s'.cells == s.cells && s'.stdout == s.stdout && SamePlace(c, s.stages[k], s'.stages[k])
    ensures LogOK(c, s', k) && CallOK(c, s', k)
  {
  }

  lemma QuietRest(c: Config, s: State, s': State, k: nat, i: nat)
    requires Inv(c, s) && Inv(c, s') && k <= c.Last() && i < |c.nums| && RestOK(c, s, k, i)
    requires s'.cells == s.cells
    requires forall k :: 1 <= k <= c.Last() ==> SamePlace(c, s.stages[k], s'.stages[k])
    ensures RestOK(c, s', k, i)
  {
    assert Reached(c, s', k + 1) == Reached(c, s, k + 1) && Reached(c, s', k) == Reached(c, s, k);
    assert Orderly(c, s, 0) && Orderly(c, s', 0);
    assert Working(s, k, i) == Working(s', k, i);
  }

  /** Stage `k` takes its next number from the queue. */
  lemma TakeStep(c: Config, s: State, k: nat, s': State)
    requires DataInv(c, s) && 1 <= k <= c.Last() && s.stages[k].pc.Check?
    requires s.stages[k].queue != [] && s.stages[k].queue[0].Num?
    requires s' == ThreadStep(c, s, k) && Inv(c, s')
    ensures DataInv(c, s')
  {
    forall j | 1 <= j <= c.Last()
      ensures LogOK(c, s', j) && CallOK(c, s', j)
    {
      assert LogOK(c, s, j) && CallOK(c, s, j);
      if j == k {
        TakeCall(c, s, k, s');
      } else {
        assert s'.stages[j] == s.stages[j];
      }
    }
    forall j, n | 0 <= j <= c.Last() && 0 <= n < |c.nums|
      ensures RestOK(c, s', j, n)
    {
      assert RestOK(c, s, j, n);
      TakeRest(c, s, k, s', j, n);
    }
  }

  lemma TakeCall(c: Config, s: State, k: nat, s': State)
    requires DataInv(c, s) && 1 <= k <= c.Last() && s.stages[k].pc.Check?
    requires s.stages[k].queue != [] && s.stages[k].queue[0].Num?
    requires s' == ThreadStep(c, s, k) && Inv(c, s')
    ensures CallOK(c, s', k) && LogOK(c, s', k)
  {
    assert LogOK(c, s, k);
    assert Orderly(c, s, k) && Orderly(c, s', k);
    TakeHand(c, s, k, s');
    assert RunLines(c.programs[k - 1][..0], Arrival(c, k, |s.stages[k].taken|)) == [];
    hide Inv, DataInv, CallOK, Sequential, RunLines, Arrival, RestOK, Linked, Shown;
  }

  lemma TakeHand(c: Config, s: State, k: nat, s': State)
    requires DataInv(c, s) && 1 <= k <= c.Last() && s.stages[k].pc.Check?
    requires s.stages[k].queue != [] && s.stages[k].queue[0].Num?
    requires s' == ThreadStep(c, s, k) && Inv(c, s')
    ensures CallOK(c, s', k)
  {
    NextArrives(c, s, k);
    assert Orderly(c, s', k);
    assert RunValue(c.programs[k - 1][..0], Arrival(c, k, |s.stages[k].taken|)) == Arrival(c, k, |s.stages[k].taken|);
    hide Inv, DataInv, LogOK, Arrival, RunValue, RunLines, Sequential;
  }

  /** The number at the head of a queue rests before the stage, with the value it arrives with. */
  lemma NextArrives(c: Config, s: State, k: nat)
    requires DataInv(c, s) && 1 <= k <= c.Last() && s.stages[k].pc.Check?
    requires s.stages[k].queue != [] && s.stages[k].queue[0].Num?
    ensures var i := |s.stages[k].taken|;
            i < |c.nums| && s.stages[k].queue[0] == Num(i) && i < |s.cells| && s.cells[i] == Arrival(c, k, i)
  {
    var i := |s.stages[k].taken|;
    assert Orderly(c, s, k);
    assert s.stages[k].queue[0] == s.stages[k].received[i];
    assert Linked(c, s, k - 1) && Orderly(c, s, k - 1);
    assert RestOK(c, s, k - 1, i);
    hide Inv, DataInv, LogOK, Arrival;
  }

  lemma TakeRest(c: Config, s: State, k: nat, s': State, j: nat, n: nat)
    requires Inv(c, s) && 1 <= k <= c.Last() && s.stages[k].pc.Check?
    requires s.stages[k].queue != [] && s.stages[k].queue[0].Num?
    requires s' == ThreadStep(c, s, k) && Inv(c, s')
    requires j <= c.Last() && n < |c.nums| && RestOK(c, s, j, n)
    ensures RestOK(c, s', j, n)
  {
    assert Orderly(c, s', k);
    assert Resting(c, s', j, n) ==> Resting(c, s, j, n);
  }

  /** The generator stores its next number. */
  lemma StoreStep(c: Config, s: State, s': State)
    requires DataInv(c, s) && s.stages[0].pc.Produce? && !s.stages[0].pc.written && s.stages[0].pc.i < |c.nums|
    requires s' == ThreadStep(c, s, 0) && Inv(c, s')
    ensures DataInv(c, s')
  {
    forall j | 1 <= j <= c.Last()
      ensures LogOK(c, s', j) && CallOK(c, s', j)
    {
      assert LogOK(c, s, j) && CallOK(c, s, j);
    }
    forall j, n | 0 <= j <= c.Last() && 0 <= n < |c.nums|
      ensures RestOK(c, s', j, n)
    {
      assert RestOK(c, s, j, n);
      assert Resting(c, s', j, n) && (n != s.stages[0].pc.i || j != 0) ==> Resting(c, s, j, n);
    }
  }

  /** Stage `k` executes one instruction on the number it works on. */
  lemma ExecuteStep(c: Config, s: State, k: nat, s': State)
    requires DataInv(c, s) && 1 <= k <= c.Last() && s.stages[k].pc.Call?
    requires s.stages[k].pc.ip < |c.programs[k - 1]| && ThreadReady(c, s, k)
    requires s' == ThreadStep(c, s, k) && Inv(c, s')
    ensures DataInv(c, s')
  {
    assert Orderly(c, s, k);
    var i := |s.stages[k].taken| - 1;
    forall j | 1 <= j <= c.Last()
      ensures LogOK(c, s', j) && CallOK(c, s', j)
    {
      assert LogOK(c, s, j) && CallOK(c, s, j);
      ExecuteEffect(c, s, k, i, j);
      if j == k {
        ExecuteHere(c, s, k, i, s');
      } else {
        WorkingAlone(c, s, k, j, i);
        ExecuteElsewhere(c, s, k, i, s', j);
      }
    }
    forall j, n | 0 <= j <= c.Last() && 0 <= n < |c.nums|
      ensures RestOK(c, s', j, n)
    {
      assert RestOK(c, s, j, n);
      if j != k { WorkingAlone(c, s, k, j, i); }
      assert Resting(c, s', j, n) ==> Resting(c, s, j, n) && n != i;
    }
  }

  /** Stage `k` has executed one instruction on number `i`; `j` is any stage. */
  ghost predicate Executed(c: Config, s: State, k: nat, i: nat, s': State, j: nat)
    requires WellFormed(c, s) && 1 <= k <= c.Last()
  {
    var st := s.stages[k];
    && st.pc.Call? && st.pc.ip < |c.programs[k - 1]| && i < |s.cells|
    && s'.stages == s.stages[k := st.(pc := Call(Num(i), st.pc.ip + 1))]
    && s'.cells == s.cells[i := ApplyValue(c.programs[k - 1][st.pc.ip], s.cells[i])]
    && Shown(s'.stdout, j) ==
       Shown(s.stdout, j) + (if j == k then ApplyLines(c.programs[k - 1][st.pc.ip], s.cells[i]) else [])
  }

  lemma ExecuteEffect(c: Config, s: State, k: nat, i: nat, j: nat)
    requires WellFormed(c, s) && !c.Shared() && 1 <= k <= c.Last() && ThreadReady(c, s, k)
    requires s.stages[k].pc.Call? && s.stages[k].pc.task == Num(i) && s.stages[k].pc.ip < |c.programs[k - 1]|
    ensures Executed(c, s, k, i, ThreadStep(c, s, k), j)
  {
    ShownTag(s.stdout, k, ApplyLines(c.programs[k - 1][s.stages[k].pc.ip], s.cells[i]), j);
  }

  lemma ExecuteHere(c: Config, s: State, k: nat, i: nat, s': State)
    requires WellFormed(c, s) && 1 <= k <= c.Last() && Working(s, k, i)
    requires Executed(c, s, k, i, s', k)
    requires LogOK(c, s, k) && CallOK(c, s, k)
    ensures WellFormed(c, s') && LogOK(c, s', k) && CallOK(c, s', k)
  {
    var st := s.stages[k];
    PrefixStep(c.programs[k - 1], st.pc.ip, Arrival(c, k, i));
    ProgressStep(c, k, st, s'.stages[k], s.cells[i], ApplyLines(c.programs[k - 1][st.pc.ip], s.cells[i]));
  }

  lemma ExecuteElsewhere(c: Config, s: State, k: nat, i: nat, s': State, j: nat)
    requires WellFormed(c, s) && 1 <= k <= c.Last() && Executed(c, s, k, i, s', j)
    requires 1 <= j <= c.Last() && j != k && LogOK(c, s, j) && CallOK(c, s, j)
    requires !Working(s, j, i)
    ensures WellFormed(c, s') && LogOK(c, s', j) && CallOK(c, s', j)
  {
    assert s'.stages[j] == s.stages[j];
  }

  lemma ProgressStep(c: Config, k: nat, st: Stage, st': Stage, v: int, lines: seq<Line>)
    requires 1 <= k <= c.Last() && InHand(c, k, st) && InHand(c, k, st')
    requires st.pc.Call? && st'.pc.Call? && st'.taken == st.taken
    requires st'.pc.ip == st.pc.ip + 1 <= |c.programs[k - 1]|
    requires v == RunValue(c.programs[k - 1][..st.pc.ip], Arrival(c, k, |st.taken| - 1))
    requires lines == ApplyLines(c.programs[k - 1][st.pc.ip], v)
    ensures Progress(c, k, st') == Progress(c, k, st) + lines
  {
    hide RunValue, RunLines, Sequential, Arrival, ApplyLines;
    var i, program := |st.taken| - 1, c.programs[k - 1];
    var done, part := Sequential(c, k, i), RunLines(program[..st.pc.ip], Arrival(c, k, i));
    PrefixStep(program, st.pc.ip, Arrival(c, k, i));
    assert done + (part + lines) == done + part + lines;
  }

  /** Stage `k` returns from its stage function. */
  lemma ReturnStep(c: Config, s: State, k: nat, s': State)
    requires DataInv(c, s) && 1 <= k <= c.Last() && s.stages[k].pc.Call?
    requires s.stages[k].pc.ip == |c.programs[k - 1]| && ThreadReady(c, s, k)
    requires s' == ThreadStep(c, s, k) && Inv(c, s')
    ensures DataInv(c, s')
  {
    hide RunValue, RunLines, Sequential, Arrival, Shown;
    forall j | 1 <= j <= c.Last()
      ensures LogOK(c, s', j) && CallOK(c, s', j)
    {
      assert LogOK(c, s, j) && CallOK(c, s, j) && Orderly(c, s', j);
      if j == k {
        ReturnProgress(c, k, s.stages[k], s'.stages[k]);
      } else {
        assert s'.stages[j] == s.stages[j];
      }
    }
    forall j, n | 0 <= j <= c.Last() && 0 <= n < |c.nums|
      ensures RestOK(c, s', j, n)
    {
      assert RestOK(c, s, j, n) && CallOK(c, s, k);
      ReturnRest(c, s, k, s', j, n);
    }
  }

  lemma ReturnProgress(c: Config, k: nat, st: Stage, st': Stage)
    requires 1 <= k <= c.Last() && InHand(c, k, st) && InHand(c, k, st')
    requires st.pc.Call? && st.pc.ip == |c.programs[k - 1]| && !st'.pc.Call? && st'.taken == st.taken
    ensures Progress(c, k, st') == Progress(c, k, st)
  {
    assert c.programs[k - 1][..st.pc.ip] == c.programs[k - 1];
  }

  lemma ReturnRest(c: Config, s: State, k: nat, s': State, j: nat, n: nat)
    requires Inv(c, s) && !c.Shared() && 1 <= k <= c.Last() && s.stages[k].pc.Call? && CallOK(c, s, k)
    requires s.stages[k].pc.ip == |c.programs[k - 1]| && ThreadReady(c, s, k)
    requires s' == ThreadStep(c, s, k) && Inv(c, s')
    requires j <= c.Last() && n < |c.nums| && RestOK(c, s, j, n)
    ensures RestOK(c, s', j, n)
  {
    var program := c.programs[k - 1];
    assert program[..|program|] == program;
    assert Resting(c, s', j, n) && (j != k || n != |s.stages[k].taken| - 1) ==> Resting(c, s, j, n);
  }

  lemma ThreadStepData(c: Config, s: State, k: nat, s': State)
    requires DataInv(c, s) && ThreadReady(c, s, k)
    requires s' == ThreadStep(c, s, k) && Inv(c, s')
    ensures DataInv(c, s')
  {
    var st := s.stages[k];
    assert Orderly(c, s, k);
    if st.pc.Call? {
      if st.pc.ip < |c.programs[k - 1]| {
        ExecuteStep(c, s, k, s');
      } else {
        ReturnStep(c, s, k, s');
      }
    } else if st.pc.Produce? && !st.pc.written && st.pc.i < |c.nums| {
      StoreStep(c, s, s');
    } else if k >= 1 && st.pc.Check? && st.queue != [] && st.queue[0].Num? {
      TakeStep(c, s, k, s');
    } else {
      OtherStepsQuiet(c, s, k, s');
      QuietStep(c, s, s');
    }
  }

  lemma OtherStepsQuiet(c: Config, s: State, k: nat, s': State)
    requires Inv(c, s) && !c.Shared() && ThreadReady(c, s, k)
    requires s' == ThreadStep(c, s, k) && Inv(c, s')
    requires var st := s.stages[k];
             && !st.pc.Call?
             && !(st.pc.Produce? && !st.pc.written && st.pc.i < |c.nums|)
             && !(k >= 1 && st.pc.Check? && st.queue != [] && st.queue[0].Num?)
    ensures s'.cells == s.cells && s'.stdout == s.stdout
    ensures forall j :: 1 <= j <= c.Last() ==> SamePlace(c, s.stages[j], s'.stages[j])
  {
    var st := s.stages[k];
    assert Orderly(c, s, k);
    assert st.pc.Check? && st.queue != [] ==> st.received[|st.taken|] == st.queue[0];
  }

  lemma StepData(c: Config, s: State, a: Actor)
    requires DataInv(c, s)
    ensures DataInv(c, Step(c, s, a))
  {
    StepInv(c, s, a);
    if Enabled(c, s, a) {
      if a.Thread? {
        ThreadStepData(c, s, a.k, Step(c, s, a));
      } else {
        QuietStep(c, s, Step(c, s, a));
      }
    }
  }

  lemma {:induction false} RunData(c: Config, s: State, schedule: seq<Actor>)
    requires DataInv(c, s)
    ensures DataInv(c, Run(c, s, schedule))
    decreases |schedule|
  {
    if schedule != [] {
      StepData(c, s, schedule[0]);
      RunData(c, Step(c, s, schedule[0]), schedule[1..]);
    }
  }

}
