/**
 * The queue as a monitor: any number of threads call `enqueue` and `dequeue`, every access to
 * the mutex and the condition variable is a step of its own, a signal may wake any non-empty
 * set of sleepers, sleepers may wake on their own, and newcomers may overtake woken threads.
 */
module Monitor {

  /** Where a thread stands in a call. `woken` marks a thread that has been asleep in this call. */
  datatype PC<T> =
    | Outside
    | LockToPut(task: T)      // enqueue: before `pthread_mutex_lock`
    | Link(task: T)           // enqueue: holds the mutex, before linking the node
    | Signal                  // enqueue: before `pthread_cond_signal`
    | LockToTake              // dequeue: before `pthread_mutex_lock`
    | Test(woken: bool)       // dequeue: holds the mutex, before testing `head == NULL`
    | Asleep                  // dequeue: inside `pthread_cond_wait`, mutex given up
    | Relock                  // dequeue: woken, must get the mutex back before it may return from the wait
    | Unlink(woken: bool)     // dequeue: has seen a task, before unlinking it
    | Unlock                  // before `pthread_mutex_unlock`

  datatype Mutex = Free | Held(holder: nat)

  /**
   * `granted` are the tasks of the calls of `enqueue` in the order in which these got the mutex;
   * `linked` and `taken` are the tasks ever linked and unlinked, in the order in which it happened.
   */
  datatype State<T> =
    State(pcs: seq<PC<T>>, mutex: Mutex, queue: seq<T>, granted: seq<T>, linked: seq<T>, taken: seq<T>)

  datatype Action<T> =
    | CallEnqueue(t: nat, task: T)
    | CallDequeue(t: nat)
    | Move(t: nat, wake: set<nat>)   // `wake` is the choice of the scheduler when `t` signals
    | Spurious(t: nat)

  predicate Holds<T>(pc: PC<T>) {
    pc.Link? || pc.Signal? || pc.Test? || pc.Unlink? || pc.Unlock?
  }

  /** Woken, and not yet through with the test that follows a wait. */
  predicate Woken<T>(pc: PC<T>) {
    pc.Relock? || (pc.Test? && pc.woken) || (pc.Unlink? && pc.woken)
  }

  /** A signal wakes only sleepers, and at least one if there is one. */
  ghost predicate WakeChoice<T>(s: State<T>, wake: set<nat>) {
    && (forall i :: i in wake ==> i < |s.pcs| && s.pcs[i].Asleep?)
    && ((exists i :: 0 <= i < |s.pcs| && s.pcs[i].Asleep?) ==> exists i :: i in wake)
  }

  ghost predicate Enabled<T>(s: State<T>, a: Action<T>) {
    a.t < |s.pcs| &&
    match a
    case CallEnqueue(t, _) => s.pcs[t].Outside?
    case CallDequeue(t) => s.pcs[t].Outside?
    case Spurious(t) => s.pcs[t].Asleep?
    case Move(t, wake) =>
      match s.pcs[t]
      case Outside => false
      case Asleep => false
      case LockToPut(_) => s.mutex.Free?
      case LockToTake => s.mutex.Free?
      case Relock => s.mutex.Free?
      case Signal => WakeChoice(s, wake)
      case Unlink(_) => s.queue != []
      case _ => true
  }

  function Awaken<T>(pcs: seq<PC<T>>, wake: set<nat>): seq<PC<T>> {
    seq(|pcs|, i requires 0 <= i < |pcs| => if i in wake then Relock else pcs[i])
  }

  ghost function MoveStep<T>(s: State<T>, t: nat, wake: set<nat>): State<T>
    requires Enabled(s, Move(t, wake))
  {
    match s.pcs[t]
    case LockToPut(x) => s.(pcs := s.pcs[t := Link(x)], mutex := Held(t), granted := s.granted + [x])
    case Link(x) => s.(pcs := s.pcs[t := Signal], queue := s.queue + [x], linked := s.linked + [x])
    case Signal => s.(pcs := Awaken(s.pcs, wake)[t := Unlock])
    case LockToTake => s.(pcs := s.pcs[t := Test(false)], mutex := Held(t))
    case Relock => s.(pcs := s.pcs[t := Test(true)], mutex := Held(t))
    case Test(woken) =>
      if s.queue == [] then s.(pcs := s.pcs[t := Asleep], mutex := Free)
      else s.(pcs := s.pcs[t := Unlink(woken)])
    case Unlink(_) =>
      s.(pcs := s.pcs[t := Unlock], queue := s.queue[1..], taken := s.taken + [s.queue[0]])
    case Unlock => s.(pcs := s.pcs[t := Outside], mutex := Free)
  }

  ghost function Step<T>(s: State<T>, a: Action<T>): State<T> {
    if !Enabled(s, a) then s else
    match a
    case CallEnqueue(t, x) => s.(pcs := s.pcs[t := LockToPut(x)])
    case CallDequeue(t) => s.(pcs := s.pcs[t := LockToTake])
    case Spurious(t) => s.(pcs := s.pcs[t := Relock])
    case Move(t, wake) => MoveStep(s, t, wake)
  }

  ghost function Run<T>(s: State<T>, actions: seq<Action<T>>): State<T>
    decreases |actions|
  {
    if actions == [] then s else Run(Step(s, actions[0]), actions[1..])
  }

  function Initial<T>(threads: nat): State<T> {
    State(seq(threads, _ => Outside), Free, [], [], [], [])
  }

  // ----- Counting threads -----

  ghost function Weigh<T>(pc: PC<T>): nat {
    if Woken(pc) || pc.Signal? then 1 else 0
  }

  /** The woken threads, and the thread that is about to signal. */
  ghost function Helpers<T>(pcs: seq<PC<T>>): nat
    decreases |pcs|
  {
    if pcs == [] then 0 else Helpers(pcs[..|pcs| - 1]) + Weigh(pcs[|pcs| - 1])
  }

  lemma {:induction false} HelpersUpdate<T>(pcs: seq<PC<T>>, t: nat, pc: PC<T>)
    requires t < |pcs|
    ensures Helpers(pcs[t := pc]) == Helpers(pcs) - Weigh(pcs[t]) + Weigh(pc)
    decreases |pcs|
  {
    var n := |pcs| - 1;
    if t == n {
      assert pcs[t := pc][..n] == pcs[..n];
    } else {
      HelpersUpdate(pcs[..n], t, pc);
      assert pcs[t := pc][..n] == pcs[..n][t := pc];
    }
  }

  /** Waking a set of sleepers adds at least one helper for every one of them, hence one if any. */
  lemma {:induction false} HelpersAwaken<T>(pcs: seq<PC<T>>, wake: set<nat>, w: nat)
    requires forall i :: i in wake && i < |pcs| ==> pcs[i].Asleep?
    ensures Helpers(Awaken(pcs, wake)) >= Helpers(pcs) + (if w in wake && w < |pcs| then 1 else 0)
    decreases |pcs|
  {
    if pcs != [] {
      var n := |pcs| - 1;
      assert Awaken(pcs, wake)[..n] == Awaken(pcs[..n], wake);
      HelpersAwaken(pcs[..n], wake, w);
    }
  }

  lemma {:induction false} NoHelpers<T>(pcs: seq<PC<T>>)
    requires forall i :: 0 <= i < |pcs| ==> Weigh(pcs[i]) == 0
    ensures Helpers(pcs) == 0
    decreases |pcs|
  {
    if pcs != [] { NoHelpers(pcs[..|pcs| - 1]); }
  }

  // ----- The invariant -----

  ghost predicate MutexOK<T>(s: State<T>, t: nat)
    requires t < |s.pcs|
  {
    && (Holds(s.pcs[t]) <==> s.mutex == Held(t))
    && (s.pcs[t].Unlink? ==> s.queue != [])
  }

  /** The task whose producer has got the mutex and not yet linked it. */
  function Pending<T>(s: State<T>): seq<T> {
    if s.mutex.Held? && s.mutex.holder < |s.pcs| && s.pcs[s.mutex.holder].Link?
    then [s.pcs[s.mutex.holder].task] else []
  }

  ghost predicate NoneLost<T>(s: State<T>) {
    (exists t :: 0 <= t < |s.pcs| && s.pcs[t].Asleep?) ==> |s.queue| <= Helpers(s.pcs)
  }

  ghost predicate Inv<T>(s: State<T>) {
    && (forall t :: 0 <= t < |s.pcs| ==> MutexOK(s, t))
    && (s.mutex.Held? ==> s.mutex.holder < |s.pcs|)
    && s.linked == s.taken + s.queue && s.granted == s.linked + Pending(s)
    && NoneLost(s)
  }

  lemma NoneLostStep<T>(s: State<T>, t: nat, wake: set<nat>)
    requires Inv(s) && Enabled(s, Move(t, wake))
    ensures NoneLost(MoveStep(s, t, wake))
  {
    var s' := MoveStep(s, t, wake);
    if s.pcs[t].Signal? {
      assert !s.pcs[t].Asleep?;
      if j :| 0 <= j < |s'.pcs| && s'.pcs[j].Asleep? {
        assert s.pcs[j].Asleep?;
        var w :| w in wake;
        HelpersAwaken(s.pcs, wake, w);
        HelpersUpdate(Awaken(s.pcs, wake), t, Unlock);
      }
    } else {
      HelpersUpdate(s.pcs, t, s'.pcs[t]);
      assert s'.pcs == s.pcs[t := s'.pcs[t]];
      assert forall j :: 0 <= j < |s.pcs| && j != t ==> s'.pcs[j] == s.pcs[j];
    }
  }

  lemma MoveKeepsInv<T>(s: State<T>, t: nat, wake: set<nat>)
    requires Inv(s) && Enabled(s, Move(t, wake))
    ensures Inv(MoveStep(s, t, wake))
  {
    NoneLostStep(s, t, wake);
    var s' := MoveStep(s, t, wake);
    assert MutexOK(s, t);
    forall j | 0 <= j < |s'.pcs|
      ensures MutexOK(s', j)
    {
      assert MutexOK(s, j);
    }
  }

  lemma StepKeepsInv<T>(s: State<T>, a: Action<T>)
    requires Inv(s)
    ensures Inv(Step(s, a))
  {
    if Enabled(s, a) {
      var s' := Step(s, a);
      if a.Move? {
        MoveKeepsInv(s, a.t, a.wake);
      } else {
        HelpersUpdate(s.pcs, a.t, s'.pcs[a.t]);
        forall j | 0 <= j < |s'.pcs|
          ensures MutexOK(s', j)
        {
          assert MutexOK(s, j);
        }
        assert forall j :: 0 <= j < |s.pcs| && j != a.t ==> s'.pcs[j] == s.pcs[j];
      }
    }
  }

  lemma {:induction false} RunKeepsInv<T>(s: State<T>, actions: seq<Action<T>>)
    requires Inv(s)
    ensures Inv(Run(s, actions)) && |Run(s, actions).pcs| == |s.pcs|
    decreases |actions|
  {
    if actions != [] {
      StepKeepsInv(s, actions[0]);
      RunKeepsInv(Step(s, actions[0]), actions[1..]);
    }
  }

  lemma InitialInv<T>(threads: nat)
    ensures Inv(Initial<T>(threads))
  {
    forall t | 0 <= t < threads
      ensures MutexOK(Initial<T>(threads), t)
    {
    }
  }

  // ----- Results over all runs -----

  /**
   * Tasks are linked and leave in the order in which their producers got the mutex, each exactly once.
   * At most the task of the producer that has the mutex is not yet linked.
   */
  lemma FirstInFirstOut<T>(threads: nat, actions: seq<Action<T>>)
    ensures var s := Run(Initial<T>(threads), actions);
            s.linked == s.taken + s.queue && s.granted == s.linked + Pending(s)
  {
    InitialInv<T>(threads);
    RunKeepsInv(Initial<T>(threads), actions);
  }

  /** At most one thread is inside the critical section. */
  lemma MutualExclusion<T>(threads: nat, actions: seq<Action<T>>, a: nat, b: nat)
    requires var s := Run(Initial<T>(threads), actions);
             && a < |s.pcs|
             && (s.pcs[a].Link? || s.pcs[a].Signal? || s.pcs[a].Test? || s.pcs[a].Unlink? || s.pcs[a].Unlock?)
             && b < |s.pcs|
             && (s.pcs[b].Link? || s.pcs[b].Signal? || s.pcs[b].Test? || s.pcs[b].Unlink? || s.pcs[b].Unlock?)
    ensures a == b
  {
    InitialInv<T>(threads);
    RunKeepsInv(Initial<T>(threads), actions);
    var s := Run(Initial<T>(threads), actions);
    assert MutexOK(s, a) && MutexOK(s, b);
  }

  /**
   * No wakeup is lost: as long as a consumer sleeps, there are at least as many woken consumers that
   * still have their test before them as there are tasks. Inside a critical section one task may be
   * aside: one that is linked but not yet signalled, or one that a woken consumer is about to unlink.
   */
  lemma NoLostWakeup<T>(threads: nat, actions: seq<Action<T>>, sleeper: nat)
    requires var s := Run(Initial<T>(threads), actions);
             sleeper < |s.pcs| && s.pcs[sleeper].Asleep?
    ensures var s := Run(Initial<T>(threads), actions);
            && (s.mutex.Held? ==> s.mutex.holder < |s.pcs|)
            && var waiting := set t | 0 <= t < |s.pcs| && s.pcs[t].Relock?;
               var testing := set t | 0 <= t < |s.pcs| && s.pcs[t].Test? && s.pcs[t].woken;
               && |s.queue| <= |waiting| + |testing| +
                    (if s.mutex.Held? && Aside(s.pcs[s.mutex.holder]) then 1 else 0)
               && (s.mutex.Free? ==> |s.queue| <= |waiting|)
  {
    InitialInv<T>(threads);
    RunKeepsInv(Initial<T>(threads), actions);
    var s := Run(Initial<T>(threads), actions);
    forall t | 0 <= t < |s.pcs|
      ensures Holds(s.pcs[t]) <==> s.mutex == Held(t)
    {
      assert MutexOK(s, t);
    }
    HelpersAre(s.pcs, s.mutex);
    AheadCounts(s.pcs);
  }

  lemma {:induction false} AheadCounts<T>(pcs: seq<PC<T>>)
    ensures var waiting := set t | 0 <= t < |pcs| && pcs[t].Relock?;
            var testing := set t | 0 <= t < |pcs| && pcs[t].Test? && pcs[t].woken;
            Relocking(pcs) == |waiting| && Ahead(pcs) == |waiting| + |testing|
    decreases |pcs|
  {
    if pcs != [] {
      var n := |pcs| - 1;
      AheadCounts(pcs[..n]);
      OneMoreWaits(pcs[..n], pcs[n]);
      OneMoreTests(pcs[..n], pcs[n]);
      assert pcs == pcs[..n] + [pcs[n]];
    }
  }

  lemma OneMoreWaits<T>(pcs: seq<PC<T>>, pc: PC<T>)
    ensures var all, waiting := pcs + [pc], set t | 0 <= t < |pcs| && pcs[t].Relock?;
            |set t | 0 <= t < |all| && all[t].Relock?| == |waiting| + (if pc.Relock? then 1 else 0)
  {
    var all, waiting := pcs + [pc], set t | 0 <= t < |pcs| && pcs[t].Relock?;
    assert (set t | 0 <= t < |all| && all[t].Relock?) == waiting + (if pc.Relock? then {|pcs|} else {});
  }

  lemma OneMoreTests<T>(pcs: seq<PC<T>>, pc: PC<T>)
    ensures var all, testing := pcs + [pc], set t | 0 <= t < |pcs| && pcs[t].Test? && pcs[t].woken;
            |set t | 0 <= t < |all| && all[t].Test? && all[t].woken|
              == |testing| + (if pc.Test? && pc.woken then 1 else 0)
  {
    var all, testing := pcs + [pc], set t | 0 <= t < |pcs| && pcs[t].Test? && pcs[t].woken;
    assert (set t | 0 <= t < |all| && all[t].Test? && all[t].woken)
        == testing + (if pc.Test? && pc.woken then {|pcs|} else {});
  }

  /** Woken, with the test that follows the wait still to come. */
  predicate BeforeTest<T>(pc: PC<T>) {
    pc.Relock? || (pc.Test? && pc.woken)
  }

  /** In a critical section: a task is linked but not signalled, or a woken thread is about to unlink one. */
  predicate Aside<T>(pc: PC<T>) {
    pc.Signal? || (pc.Unlink? && pc.woken)
  }

  /** How many threads are woken with their test still to come. */
  ghost function Ahead<T>(pcs: seq<PC<T>>): nat
    decreases |pcs|
  {
    if pcs == [] then 0 else Ahead(pcs[..|pcs| - 1]) + (if BeforeTest(pcs[|pcs| - 1]) then 1 else 0)
  }

  /** How many threads are woken and wait for the mutex. */
  ghost function Relocking<T>(pcs: seq<PC<T>>): nat
    decreases |pcs|
  {
    if pcs == [] then 0 else Relocking(pcs[..|pcs| - 1]) + (if pcs[|pcs| - 1].Relock? then 1 else 0)
  }

  lemma {:induction false} HelpersAre<T>(pcs: seq<PC<T>>, mutex: Mutex)
    requires forall t :: 0 <= t < |pcs| ==> (Holds(pcs[t]) <==> mutex == Held(t))
    ensures Helpers(pcs) ==
            Ahead(pcs) + (if mutex.Held? && mutex.holder < |pcs| && Aside(pcs[mutex.holder]) then 1 else 0)
    ensures mutex.Free? ==> Helpers(pcs) == Relocking(pcs)
    decreases |pcs|
  {
    if pcs != [] {
      HelpersAre(pcs[..|pcs| - 1], mutex);
    }
  }

  /** No thread can make a step by itself. */
  ghost predicate Stuck<T>(s: State<T>) {
    forall t, wake :: 0 <= t < |s.pcs| ==> !Enabled(s, Move(t, wake))
  }

  /**
   * The monitor comes to rest only when there is nothing to do: every thread is outside or asleep,
   * the mutex is free, and if anyone sleeps the queue is empty. Conversely such a state is at rest.
   */
  lemma RestsOnlyWhenDone<T>(threads: nat, actions: seq<Action<T>>)
    ensures var s := Run(Initial<T>(threads), actions);
            (forall t, wake :: 0 <= t < |s.pcs| ==> !Enabled(s, Move(t, wake))) <==>
            (forall t :: 0 <= t < |s.pcs| ==> s.pcs[t].Outside? || s.pcs[t].Asleep?)
    ensures var s := Run(Initial<T>(threads), actions);
            (forall t :: 0 <= t < |s.pcs| ==> s.pcs[t].Outside? || s.pcs[t].Asleep?) ==>
              s.mutex.Free? && ((exists t :: 0 <= t < |s.pcs| && s.pcs[t].Asleep?) ==> s.queue == [])
  {
    InitialInv<T>(threads);
    RunKeepsInv(Initial<T>(threads), actions);
    var s := Run(Initial<T>(threads), actions);
    if Stuck(s) {
      RestingThreads(s);
      NoHelpers(s.pcs);
    }
  }

  ghost function Sleepers<T>(s: State<T>): set<nat> {
    set i | 0 <= i < |s.pcs| && s.pcs[i].Asleep?
  }

  /** The thread that holds the mutex always has a step to make. */
  lemma HolderCanMove<T>(s: State<T>)
    requires Inv(s) && s.mutex.Held?
    ensures Enabled(s, Move(s.mutex.holder, Sleepers(s)))
  {
    assert MutexOK(s, s.mutex.holder);
    assert forall i :: 0 <= i < |s.pcs| && s.pcs[i].Asleep? ==> i in Sleepers(s);
  }

  lemma RestingThreads<T>(s: State<T>)
    requires Inv(s) && Stuck(s)
    ensures s.mutex.Free?
    ensures forall t :: 0 <= t < |s.pcs| ==> s.pcs[t].Outside? || s.pcs[t].Asleep?
  {
    if s.mutex.Held? {
      HolderCanMove(s);
      assert false;
    }
    forall t | 0 <= t < |s.pcs|
      ensures s.pcs[t].Outside? || s.pcs[t].Asleep?
    {
      assert MutexOK(s, t);
      assert !Enabled(s, Move(t, {}));
    }
  }

}
