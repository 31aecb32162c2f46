/**
 * What every interleaving keeps about the queues: each holds the unread part of one fixed
 * stream of tasks. Nothing here depends on where the pointers lead.
 */
module ActiveObjectProtocol {
  import opened ActiveObject

  /** Everything that is ever queued at stage `k`, in order. */
  function Stream(c: Config, k: nat): (r: seq<Task>)
    ensures |r| >= 1
  {
    if k == 0 then [Args, Null] else seq(|c.nums|, (i: nat) => Num(i)) + [Null]
  }

  ghost predicate StageOK(c: Config, k: nat, st: Stage) {
    var stream := Stream(c, k);
    && st.received == st.taken + st.queue
    && |st.received| <= |stream| && st.received == stream[..|st.received|]
    && match st.pc
       case Check => |st.taken| < |stream|
       case Asleep => |st.taken| < |stream| && st.queue == []
       case Produce(i, written) => k == 0 && |st.taken| == 1 && i <= |c.nums| && (written ==> i < |c.nums|)
       case Call(t, ip) => 1 <= k <= c.Last() && Current(c, st, t) && ip <= |c.programs[k - 1]|
       case Forward(t) => 1 <= k < c.Last() && Current(c, st, t)
       case PassNull => k < c.Last() && |st.taken| == |stream|
       case Done => |st.taken| == |stream|
  }

  /** What is in hand is the number taken last. */
  ghost predicate Current(c: Config, st: Stage, t: Task) {
    1 <= |st.taken| <= |c.nums| && t == Num(|st.taken| - 1)
  }

  /** How many tasks the thread of stage `k` has queued at the next stage. */
  function Sent(c: Config, k: nat, st: Stage): int {
    match st.pc
    case Produce(i, _) => i
    case Call(_, _) => |st.taken| - 1
    case Forward(_) => |st.taken| - 1
    case PassNull => |Stream(c, k + 1)| - 1
    case Done => |Stream(c, k + 1)|
    case _ => if k == 0 then (if st.taken == [] then 0 else |c.nums|) else |st.taken|
  }

  /** The generator has returned from its stage function. */
  predicate Closed(st: Stage) {
    |st.taken| >= 1 && !st.pc.Produce?
  }

  /** How many numbers the generator has stored. */
  function Stored(c: Config, st: Stage): nat {
    match st.pc
    case Produce(i, written) => if written then i + 1 else i
    case _ => if st.taken == [] then 0 else |c.nums|
  }

  ghost predicate MainOK(c: Config, s: State)
    requires WellFormed(c, s)
  {
    match s.main
    case Feed => true
    case Join(k) => k <= c.Last() && forall j :: 0 <= j < k ==> s.stages[j].pc.Done?
    case Stop(k) => k <= c.Last() && forall j :: 0 <= j <= c.Last() ==> s.stages[j].pc.Done?
    case Finished => forall j :: 0 <= j <= c.Last() ==> s.stages[j].pc.Done?
  }

  ghost predicate Orderly(c: Config, s: State, k: nat)
    requires WellFormed(c, s) && k <= c.Last()
  {
    StageOK(c, k, s.stages[k])
  }

  ghost predicate Linked(c: Config, s: State, k: nat)
    requires WellFormed(c, s) && k < c.Last()
  {
    |s.stages[k + 1].received| == Sent(c, k, s.stages[k])
  }

  ghost predicate Inv(c: Config, s: State) {
    && c.Valid() && WellFormed(c, s)
    && (forall k :: 0 <= k <= c.Last() ==> Orderly(c, s, k))
    && (forall k :: 0 <= k < c.Last() ==> Linked(c, s, k))
    && |s.stages[0].received| == (if s.main.Feed? then 0 else 1) + (if Closed(s.stages[0]) then 1 else 0)
    && (s.main.Feed? ==> s.stages[0].received == [])
    && MainOK(c, s)
    && |s.cells| == (if c.Shared() && Stored(c, s.stages[0]) > 1 then 1 else Stored(c, s.stages[0]))
  }

  // ----- Preservation -----

  lemma InitialInv(c: Config)
    requires c.Valid()
    ensures Inv(c, Initial(c))
  {
  }

  /** Queueing a task changes nothing about what the stage has sent, whatever is queued. */
  lemma PushSent(c: Config, k: nat, st: Stage, t: Task)
    ensures Sent(c, k, Push(st, t)) == Sent(c, k, st)
    ensures Closed(Push(st, t)) == Closed(st) && Stored(c, Push(st, t)) == Stored(c, st)
    ensures |Push(st, t).received| == |st.received| + 1
  {
  }

  /** Queueing the next task of the stream keeps a stage in order. */
  lemma PushOK(c: Config, k: nat, st: Stage, t: Task)
    requires StageOK(c, k, st)
    requires |st.received| < |Stream(c, k)| && t == Stream(c, k)[|st.received|]
    ensures StageOK(c, k, Push(st, t))
  {
    var stream, st' := Stream(c, k), Push(st, t);
    assert stream[..|st.received| + 1] == stream[..|st.received|] + [t];
    assert st'.received == st.taken + (st.queue + [t]);
  }

  /** A step that changes one stage and neither what it received nor what it sent. */
  lemma LocalStep(c: Config, s: State, k: nat, st: Stage, s': State)
    requires Inv(c, s) && k <= c.Last()
    requires StageOK(c, k, st) && st.received == s.stages[k].received
    requires k < c.Last() ==> Sent(c, k, st) == Sent(c, k, s.stages[k])
    requires s.stages[k].pc.Done? ==> st.pc.Done?
    requires k == 0 ==> Closed(st) == Closed(s.stages[0])
    requires k == 0 ==> |s'.cells| == if c.Shared() && Stored(c, st) > 1 then 1 else Stored(c, st)
    requires k > 0 ==> |s'.cells| == |s.cells|
    requires s'.stages == s.stages[k := st] && s'.main == s.main
    ensures Inv(c, s')
  {
    forall j | 0 <= j <= c.Last()
      ensures Orderly(c, s', j)
    {
      assert Orderly(c, s, j);
    }
    forall j | 0 <= j < c.Last()
      ensures Linked(c, s', j)
    {
      assert Linked(c, s, j);
    }
  }

  /** Stage `k` moves to `pc` by sending one more task, and stays in order. */
  ghost predicate Sends(c: Config, k: nat, st: Stage, pc: PC) {
    var st' := st.(pc := pc);
    && StageOK(c, k, st')
    && Sent(c, k, st') == Sent(c, k, st) + 1
    && (k == 0 ==> Closed(st') == Closed(st) && Stored(c, st') == Stored(c, st))
  }

  /** A step in which stage `k` hands the next task of the stream to stage `k + 1`. */
  lemma HandStep(c: Config, s: State, k: nat, pc: PC, t: Task)
    requires Inv(c, s) && k < c.Last() && !s.stages[k].pc.Done?
    requires Sends(c, k, s.stages[k], pc)
    requires |s.stages[k + 1].received| < |Stream(c, k + 1)|
    requires t == Stream(c, k + 1)[|s.stages[k + 1].received|]
    ensures Inv(c, Hand(c, s, k, pc, t))
  {
    var s' := Hand(c, s, k, pc, t);
    assert Orderly(c, s, k + 1);
    PushOK(c, k + 1, s.stages[k + 1], t);
    PushSent(c, k + 1, s.stages[k + 1], t);
    forall j | 0 <= j < c.Last()
      ensures Linked(c, s', j)
    {
      HandLinked(c, s, k, pc, t, j);
    }
    forall j | 0 <= j <= c.Last()
      ensures Orderly(c, s', j)
    {
      assert Orderly(c, s, j);
      HandOrderly(c, s, k, pc, t, j);
    }
    HandMain(c, s, k, pc, t);
  }

  lemma HandOrderly(c: Config, s: State, k: nat, pc: PC, t: Task, j: nat)
    requires WellFormed(c, s) && k < c.Last() && j <= c.Last() && Orderly(c, s, j)
    requires StageOK(c, k, s.stages[k].(pc := pc)) && StageOK(c, k + 1, Push(s.stages[k + 1], t))
    ensures Orderly(c, Hand(c, s, k, pc, t), j)
  {
    var s' := Hand(c, s, k, pc, t);
    if j == k {
      assert s'.stages[j] == s.stages[k].(pc := pc);
    } else if j == k + 1 {
      assert s'.stages[j] == Push(s.stages[k + 1], t);
    } else {
      assert s'.stages[j] == s.stages[j];
    }
  }

  lemma HandLinked(c: Config, s: State, k: nat, pc: PC, t: Task, j: nat)
    requires WellFormed(c, s) && k < c.Last() && j < c.Last() && Linked(c, s, j)
    requires Sent(c, k, s.stages[k].(pc := pc)) == Sent(c, k, s.stages[k]) + 1
    ensures Linked(c, Hand(c, s, k, pc, t), j)
  {
    PushSent(c, k + 1, s.stages[k + 1], t);
  }

  lemma HandMain(c: Config, s: State, k: nat, pc: PC, t: Task)
    requires WellFormed(c, s) && k < c.Last() && MainOK(c, s) && !s.stages[k].pc.Done?
    ensures MainOK(c, Hand(c, s, k, pc, t))
  {
  }

  lemma DequeueOK(c: Config, k: nat, st: Stage)
    requires c.Valid() && k <= c.Last() && StageOK(c, k, st) && st.pc.Check?
    ensures StageOK(c, k, Dequeue(c, k, st))
    ensures k < c.Last() ==> Sent(c, k, Dequeue(c, k, st)) == Sent(c, k, st)
    ensures Dequeue(c, k, st).received == st.received
    ensures k == 0 ==> Stored(c, Dequeue(c, k, st)) == Stored(c, st)
    ensures k == 0 ==> Closed(Dequeue(c, k, st)) == Closed(st)
  {
    if st.queue != [] {
      var t, stream := st.queue[0], Stream(c, k);
      assert st.taken + st.queue == st.taken + [t] + st.queue[1..];
      assert t == st.received[|st.taken|] == stream[|st.taken|];
    }
  }

  lemma ThreadStepInv(c: Config, s: State, k: nat)
    requires Inv(c, s) && ThreadReady(c, s, k)
    ensures Inv(c, ThreadStep(c, s, k))
  {
    var st, s' := s.stages[k], ThreadStep(c, s, k);
    assert Orderly(c, s, k) && (k < c.Last() ==> Linked(c, s, k));
    if st.pc.Check? {
      DequeueOK(c, k, st);
      LocalStep(c, s, k, Dequeue(c, k, st), s');
    } else if st.pc.Call? || (st.pc.Produce? && !st.pc.written && st.pc.i < |c.nums|) {
      assert s'.stages == s.stages[k := s'.stages[k]];
      LocalStep(c, s, k, s'.stages[k], s');
    } else if st.pc.Produce? && !st.pc.written {
      CloseStep(c, s, s');
    } else {
      HandsInv(c, s, k);
    }
  }

  /** The three kinds of step that queue a task at the next stage. */
  lemma HandsInv(c: Config, s: State, k: nat)
    requires Inv(c, s) && ThreadReady(c, s, k)
    requires var pc := s.stages[k].pc; pc.Forward? || pc.PassNull? || (pc.Produce? && pc.written)
    ensures Inv(c, ThreadStep(c, s, k))
  {
    assert Linked(c, s, k) && Orderly(c, s, k) && Orderly(c, s, k + 1);
    match s.stages[k].pc {
      case Produce(i, _) => HandStep(c, s, k, Produce(i + 1, false), Num(i));
      case Forward(t) => HandStep(c, s, k, Check, t);
      case PassNull => HandStep(c, s, k, Done, Null);
    }
  }

  /** The generator's last act: NULL on its own queue. */
  lemma CloseStep(c: Config, s: State, s': State)
    requires Inv(c, s) && s.stages[0].pc == Produce(|c.nums|, false)
    requires s'.stages == s.stages[0 := Push(s.stages[0].(pc := Check), Null)] && s'.main == s.main
    requires |s'.cells| == |s.cells|
    ensures Inv(c, s')
  {
    assert Orderly(c, s, 0);
    PushOK(c, 0, s.stages[0].(pc := Check), Null);
    PushSent(c, 0, s.stages[0].(pc := Check), Null);
    forall j | 0 <= j <= c.Last()
      ensures Orderly(c, s', j)
    {
      assert Orderly(c, s, j);
    }
    forall j | 0 <= j < c.Last()
      ensures Linked(c, s', j)
    {
      assert Linked(c, s, j);
    }
  }

  lemma MainStepInv(c: Config, s: State)
    requires Inv(c, s) && MainReady(c, s)
    ensures Inv(c, MainStep(c, s))
  {
    var s' := MainStep(c, s);
    assert Orderly(c, s, 0);
    if s.main.Feed? {
      PushOK(c, 0, s.stages[0], Args);
      PushSent(c, 0, s.stages[0], Args);
    }
    forall j | 0 <= j <= c.Last()
      ensures Orderly(c, s', j)
    {
      assert Orderly(c, s, j);
    }
    forall j | 0 <= j < c.Last()
      ensures Linked(c, s', j)
    {
      assert Linked(c, s, j);
    }
  }

  lemma StepInv(c: Config, s: State, a: Actor)
    requires Inv(c, s)
    ensures Inv(c, Step(c, s, a))
  {
    if Enabled(c, s, a) {
      assert a.Spurious? ==> Orderly(c, s, a.k);
      match a {
        case MainThread => MainStepInv(c, s);
        case Thread(k) => ThreadStepInv(c, s, k);
        case Spurious(k) => LocalStep(c, s, k, s.stages[k].(pc := Check), Step(c, s, a));
      }
    }
  }

  lemma {:induction false} RunInv(c: Config, s: State, schedule: seq<Actor>)
    requires Inv(c, s)
    ensures Inv(c, Run(c, s, schedule))
    decreases |schedule|
  {
    if schedule != [] {
      StepInv(c, s, schedule[0]);
      RunInv(c, Step(c, s, schedule[0]), schedule[1..]);
    }
  }

}
