/**
 * The steps of the chain on a queue, `Push`, `Dequeue` and the spurious wakeup, are what the accesses to
 * mutex and condition variable come to when one thread dequeues and any number of threads enqueue.
 */
module MonitorStage {
  import M = Monitor
  import opened ActiveObject

  type Micro = M.State<Task>

  /** The thread is in a call of `dequeue` and has not yet unlinked its task. */
  predicate Wants(pc: M.PC<Task>) {
    pc.LockToTake? || pc.Test? || pc.Asleep? || pc.Relock? || pc.Unlink?
  }

  /** Only thread `me` calls `dequeue`. */
  predicate OneConsumer(s: Micro, me: nat) {
    me < |s.pcs| && forall t :: 0 <= t < |s.pcs| && t != me ==> !Wants(s.pcs[t])
  }

  /** A task is linked, and its signal is about to come. */
  predicate Signalling(s: Micro) {
    s.mutex.Held? && s.mutex.holder < |s.pcs| && s.pcs[s.mutex.holder].Signal?
  }

  /** The consumer sleeps, and nobody is about to wake it. */
  predicate Sleeps(s: Micro, me: nat)
    requires me < |s.pcs|
  {
    s.pcs[me].Asleep? && !Signalling(s)
  }

  /** `st` is how the chain sees the queue and its consumer. */
  predicate Seen(s: Micro, me: nat, st: Stage) {
    && OneConsumer(s, me) && st.queue == s.queue && st.received == s.linked && st.taken == s.taken
    && (st.pc.Asleep? <==> Sleeps(s, me))
    && (st.pc.Check? <==> Wants(s.pcs[me]) && !Sleeps(s, me))
  }

  /** What a micro-step is for the chain; `Return`: the consumer comes back for its next task. */
  datatype QueueStep = Stay | Put(task: Task) | Get | Wake | Return

  function Apply(c: Config, k: nat, st: Stage, step: QueueStep): Stage {
    match step
    case Stay => st
    case Put(t) => Push(st, t)
    case Get => if st.pc.Check? then Dequeue(c, k, st) else st
    case Wake => if st.pc.Asleep? then st.(pc := Check) else st
    case Return => if st.pc.Check? || st.pc.Asleep? then st else st.(pc := Check)
  }

  function ApplyAll(c: Config, k: nat, st: Stage, steps: seq<QueueStep>): Stage
    decreases |steps|
  {
    if steps == [] then st else ApplyAll(c, k, Apply(c, k, st, steps[0]), steps[1..])
  }

  /** The step of the chain that a micro-step is. */
  ghost function StepOf(s: Micro, me: nat, a: M.Action<Task>): QueueStep
    requires me < |s.pcs|
  {
    if !M.Enabled(s, a) then Stay else
    match a
    case CallEnqueue(_, _) => Stay
    case CallDequeue(_) => Return
    case Spurious(_) => if Signalling(s) then Stay else Wake
    case Move(t, _) =>
      match s.pcs[t]
      case Link(x) => Put(x)
      case Unlink(_) => Get
      case Test(_) => if s.queue == [] then Get else Stay
      case _ => Stay
  }

  /** No thread but `me` calls `dequeue`. */
  predicate Allowed(a: M.Action<Task>, me: nat) {
    a.CallDequeue? ==> a.t == me
  }

  lemma OthersDoNotWant(s: Micro, me: nat, a: M.Action<Task>)
    requires M.Inv(s) && OneConsumer(s, me) && Allowed(a, me)
    ensures OneConsumer(M.Step(s, a), me)
  {
  }

  /** Every micro-step is, for the chain, nothing or one of its own steps on the queue. */
  lemma StepIsSeen(c: Config, k: nat, s: Micro, me: nat, a: M.Action<Task>, st: Stage)
    requires M.Inv(s) && Seen(s, me, st) && Allowed(a, me)
    ensures Seen(M.Step(s, a), me, Apply(c, k, st, StepOf(s, me, a)))
  {
    OthersDoNotWant(s, me, a);
    if M.Enabled(s, a) {
      assert M.MutexOK(s, a.t) && M.MutexOK(s, me);
      if s.mutex.Held? { assert M.MutexOK(s, s.mutex.holder); }
    }
  }

  /**
   * A run of micro-steps in which one thread dequeues is, for the chain, a run of its steps on that queue:
   * the same tasks are queued and taken, and the consumer is asleep or about to look as the chain says.
   */
  lemma {:induction false} RunIsSeen(c: Config, k: nat, s: Micro, me: nat, actions: seq<M.Action<Task>>, st: Stage)
    returns (steps: seq<QueueStep>)
    requires M.Inv(s) && Seen(s, me, st) && forall a :: a in actions ==> Allowed(a, me)
    ensures Seen(M.Run(s, actions), me, ApplyAll(c, k, st, steps))
    ensures |steps| == |actions|
    decreases |actions|
  {
    if actions == [] {
      steps := [];
    } else {
      var a := actions[0];
      StepIsSeen(c, k, s, me, a, st);
      M.StepKeepsInv(s, a);
      var step := StepOf(s, me, a);
      var rest := RunIsSeen(c, k, M.Step(s, a), me, actions[1..], Apply(c, k, st, step));
      steps := [step] + rest;
      assert steps[1..] == rest;
    }
  }

  /** From the start, when the consumer has called `dequeue` once, this is a run from the initial stage of the chain. */
  lemma ChainSeesMonitor(c: Config, k: nat, threads: nat, me: nat, actions: seq<M.Action<Task>>)
    returns (steps: seq<QueueStep>)
    requires me < threads && forall a :: a in actions ==> Allowed(a, me)
    ensures var s := M.Run(M.Step(M.Initial<Task>(threads), M.CallDequeue(me)), actions);
            Seen(s, me, ApplyAll(c, k, Stage(Check, [], [], []), steps))
  {
    var s := M.Initial<Task>(threads);
    M.InitialInv<Task>(threads);
    M.StepKeepsInv(s, M.CallDequeue(me));
    steps := RunIsSeen(c, k, M.Step(s, M.CallDequeue(me)), me, actions, Stage(Check, [], [], []));
  }

}
