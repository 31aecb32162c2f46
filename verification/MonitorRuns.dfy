/** The monitor does its work: which steps its threads can take, and runs that serve every call. */
module MonitorRuns {
  import opened Monitor

  // ----- Which steps there are -----

  /**
   * In every reachable state a thread can begin a call exactly if it is in none, wake spuriously exactly if
   * it sleeps, and go on with a call exactly if it does not sleep and does not need the mutex while another
   * thread has it.
   */
  lemma EnabledExactly<T>(s: State<T>, t: nat, task: T)
    requires Inv(s) && t < |s.pcs|
    ensures Enabled(s, CallEnqueue(t, task)) <==> s.pcs[t].Outside?
    ensures Enabled(s, CallDequeue(t)) <==> s.pcs[t].Outside?
    ensures Enabled(s, Action<T>.Spurious(t)) <==> s.pcs[t].Asleep?
    ensures (exists wake :: Enabled(s, Move(t, wake))) <==>
            && !s.pcs[t].Outside? && !s.pcs[t].Asleep?
            && (s.pcs[t].LockToPut? || s.pcs[t].LockToTake? || s.pcs[t].Relock? ==> s.mutex.Free?)
  {
    assert MutexOK(s, t);
    if !s.pcs[t].Outside? && !s.pcs[t].Asleep?
       && (s.pcs[t].LockToPut? || s.pcs[t].LockToTake? || s.pcs[t].Relock? ==> s.mutex.Free?) {
      SleepersMayWake(s);
      assert Enabled(s, Move(t, Sleepers(s)));
    }
  }

  lemma SleepersMayWake<T>(s: State<T>)
    ensures WakeChoice(s, Sleepers(s))
  {
    assert forall i :: 0 <= i < |s.pcs| && s.pcs[i].Asleep? ==> i in Sleepers(s);
  }

  /** A signal may wake any sleepers, as long as it wakes one if there is one; it wakes these and no others. */
  lemma AnyMayWake<T>(s: State<T>, t: nat, wake: set<nat>)
    requires t < |s.pcs| && s.pcs[t].Signal? && forall i :: i in wake ==> i < |s.pcs| && s.pcs[i].Asleep?
    requires wake != {} || forall i :: 0 <= i < |s.pcs| ==> !s.pcs[i].Asleep?
    ensures Enabled(s, Move(t, wake))
    ensures var s' := Step(s, Move(t, wake));
            && |s'.pcs| == |s.pcs| && s' == s.(pcs := s'.pcs) && s'.pcs[t] == Unlock
            && forall i :: 0 <= i < |s.pcs| && i != t ==> s'.pcs[i] == if i in wake then Relock else s.pcs[i]
  {
    if wake != {} { var i :| i in wake; }
  }

  // ----- Whole calls -----

  lemma {:induction false} RunOn<T>(s: State<T>, first: seq<Action<T>>, second: seq<Action<T>>)
    ensures Run(s, first + second) == Run(Run(s, first), second)
    decreases |first|
  {
    if first == [] {
      assert first + second == second;
    } else {
      assert (first + second)[1..] == first[1..] + second;
      RunOn(Step(s, first[0]), first[1..], second);
    }
  }

  /** How many steps the holder of the mutex is from giving it up, at most. */
  function ToGo<T>(pc: PC<T>): nat {
    match pc
    case Link(_) => 3
    case Signal => 2
    case Test(_) => 3
    case Unlink(_) => 2
    case _ => 1
  }

  /** The holder of the mutex can give it up, without disturbing a thread that is in no call. */
  lemma {:induction false} FreeMutex<T>(s: State<T>, t: nat) returns (actions: seq<Action<T>>)
    requires Inv(s) && t < |s.pcs| && s.pcs[t].Outside?
    ensures var s' := Run(s, actions);
            && Inv(s') && s'.mutex.Free? && |s'.pcs| == |s.pcs| && s'.pcs[t].Outside?
            && s.granted <= s'.granted && s.linked <= s'.linked
    decreases if s.mutex.Held? && s.mutex.holder < |s.pcs| then ToGo(s.pcs[s.mutex.holder]) else 0
  {
    if s.mutex.Free? {
      actions := [];
    } else {
      var h := s.mutex.holder;
      var a := Action<T>.Move(h, Sleepers(s));
      HolderCanMove(s);
      StepKeepsInv(s, a);
      assert MutexOK(s, h);
      var rest := FreeMutex(Step(s, a), t);
      actions := [a] + rest;
      assert actions[1..] == rest;
    }
  }

  /** With the mutex free a call of `enqueue` can run to its end, and wakes all who sleep. */
  lemma PutCall<T>(s: State<T>, t: nat, x: T) returns (actions: seq<Action<T>>)
    requires Inv(s) && s.mutex.Free? && t < |s.pcs| && s.pcs[t].Outside?
    ensures var s' := Run(s, actions);
            && Inv(s') && s'.mutex.Free? && |s'.pcs| == |s.pcs| && s'.pcs[t].Outside?
            && (forall i :: 0 <= i < |s.pcs| && i != t ==> s'.pcs[i] == if s.pcs[i].Asleep? then Relock else s.pcs[i])
            && s'.granted == s.granted + [x] && s'.linked == s.linked + [x]
            && s'.queue == s.queue + [x] && s'.taken == s.taken
  {
    var call, move := CallEnqueue(t, x), Action<T>.Move(t, {});
    var s1 := Step(s, call);
    var s2 := Step(s1, move);
    var s3 := Step(s2, move);
    var signal := Action<T>.Move(t, Sleepers(s3));
    SleepersMayWake(s3);
    var s4 := Step(s3, signal);
    var s5 := Step(s4, move);
    actions := [call, move, move, signal, move];
    FiveSteps(s, call, move, move, signal, move);
    RunKeepsInv(s, actions);
  }

  lemma ThreeSteps<T>(s: State<T>, a: Action<T>, b: Action<T>, c: Action<T>)
    ensures Run(s, [a, b, c]) == Step(Step(Step(s, a), b), c)
  {
    var s1 := Step(s, a);
    var s2 := Step(s1, b);
    assert [a, b, c][1..] == [b, c] && [b, c][1..] == [c] && [c][1..] == [];
    assert Run(s, [a, b, c]) == Run(s1, [b, c]) == Run(s2, [c]) == Run(Step(s2, c), []);
  }

  lemma FiveSteps<T>(s: State<T>, a: Action<T>, b: Action<T>, c: Action<T>, d: Action<T>, e: Action<T>)
    ensures Run(s, [a, b, c, d, e]) == Step(Step(Step(Step(Step(s, a), b), c), d), e)
  {
    var s1 := Step(s, a);
    var s2 := Step(s1, b);
    assert [a, b, c, d, e][1..] == [b, c, d, e] && [b, c, d, e][1..] == [c, d, e];
    assert Run(s, [a, b, c, d, e]) == Run(s1, [b, c, d, e]) == Run(s2, [c, d, e]);
    ThreeSteps(s2, c, d, e);
  }

  /** With the mutex free and a task in the queue a call of `dequeue` can run to its end, and takes the oldest. */
  lemma TakeCall<T>(s: State<T>, t: nat) returns (actions: seq<Action<T>>)
    requires Inv(s) && s.mutex.Free? && t < |s.pcs| && s.pcs[t].Outside? && s.queue != []
    ensures var s' := Run(s, actions);
            && Inv(s') && s' == s.(queue := s.queue[1..], taken := s.taken + [s.queue[0]])
  {
    var call, move := Action<T>.CallDequeue(t), Action<T>.Move(t, {});
    actions := [call, move, move, move, move];
    FiveSteps(s, call, move, move, move, move);
    RunKeepsInv(s, actions);
    assert s.pcs[t := Outside] == s.pcs;
  }

  /**
   * From every reachable state a thread that is in no call can enqueue a task: there is a run after which
   * the task is the last one whose producer got the mutex, and is linked.
   */
  lemma CanPut<T>(s: State<T>, t: nat, x: T) returns (actions: seq<Action<T>>)
    requires Inv(s) && t < |s.pcs| && s.pcs[t].Outside?
    ensures var s' := Run(s, actions);
            && |s'.pcs| == |s.pcs| && s'.pcs[t].Outside? && s'.mutex.Free? && s.linked <= s'.linked
            && s'.linked == s'.granted && s'.granted != [] && s'.granted[|s'.granted| - 1] == x
  {
    var free := FreeMutex(s, t);
    var put := PutCall(Run(s, free), t, x);
    actions := free + put;
    RunOn(s, free, put);
  }

  // ----- Serving every call -----

  /** Nobody is in a call, and nothing is queued. */
  predicate Quiet<T>(s: State<T>) {
    s.mutex.Free? && s.queue == [] && forall t :: 0 <= t < |s.pcs| ==> s.pcs[t].Outside?
  }

  /** The consumer's call begins before the task is there: it sleeps, is woken, and takes the task. */
  lemma SleeperServed<T>(s: State<T>, x: T) returns (actions: seq<Action<T>>)
    requires Inv(s) && Quiet(s) && |s.pcs| >= 2
    ensures var s' := Run(s, actions);
            && Inv(s') && Quiet(s') && |s'.pcs| == |s.pcs|
            && s'.linked == s.linked + [x] && s'.taken == s.taken + [x]
    ensures SleepsAt(s, actions, 3, s.linked)
  {
    var asleep := FallAsleep(s, 1);
    var s1 := Run(s, asleep);
    var put := PutCall(s1, 0, x);
    var s2 := Run(s1, put);
    assert s2.pcs == s.pcs[1 := Relock];
    var awake := WakeAndTake(s2, 1);
    assert s2.pcs[1 := Outside] == s.pcs;
    RunOn(s, asleep, put);
    RunOn(s, asleep + put, awake);
    actions := asleep + put + awake;
    assert actions[..3] == asleep;
  }

  lemma FallAsleep<T>(s: State<T>, t: nat) returns (actions: seq<Action<T>>)
    requires Inv(s) && s.mutex.Free? && t < |s.pcs| && s.pcs[t].Outside? && s.queue == []
    ensures var s' := Run(s, actions);
            Inv(s') && s' == s.(pcs := s.pcs[t := Asleep]) && |actions| == 3
  {
    var call, move := Action<T>.CallDequeue(t), Action<T>.Move(t, {});
    actions := [call, move, move];
    ThreeSteps(s, call, move, move);
    RunKeepsInv(s, actions);
  }

  lemma WakeAndTake<T>(s: State<T>, t: nat) returns (actions: seq<Action<T>>)
    requires Inv(s) && s.mutex.Free? && t < |s.pcs| && s.pcs[t].Relock? && s.queue != []
    ensures var s' := Run(s, actions);
            && Inv(s')
            && s' == s.(pcs := s.pcs[t := Outside], queue := s.queue[1..], taken := s.taken + [s.queue[0]])
  {
    var move := Action<T>.Move(t, {});
    actions := [move, move, move, move];
    assert actions[1..] == [move, move, move];
    ThreeSteps(Step(s, move), move, move, move);
    RunKeepsInv(s, actions);
  }

  /** The consumer's call begins when the task is there. */
  lemma TaskServed<T>(s: State<T>, x: T) returns (actions: seq<Action<T>>)
    requires Inv(s) && Quiet(s) && |s.pcs| >= 2
    ensures var s' := Run(s, actions);
            && Inv(s') && Quiet(s') && |s'.pcs| == |s.pcs|
            && s'.linked == s.linked + [x] && s'.taken == s.taken + [x]
  {
    var put := PutCall(s, 0, x);
    var s1 := Run(s, put);
    assert s1.pcs == s.pcs;
    var take := TakeCall(s1, 1);
    RunOn(s, put, take);
    actions := put + take;
  }

  /** After `m` of the actions thread 1 sleeps, and these tasks have been linked. */
  ghost predicate SleepsAt<T>(s: State<T>, actions: seq<Action<T>>, m: nat, linked: seq<T>) {
    m <= |actions| &&
    var s' := Run(s, actions[..m]);
    |s'.pcs| > 1 && s'.pcs[1].Asleep? && s'.linked == linked
  }

  lemma SleepsLater<T>(s: State<T>, first: seq<Action<T>>, rest: seq<Action<T>>, m: nat, linked: seq<T>)
    requires SleepsAt(Run(s, first), rest, m, linked)
    ensures SleepsAt(s, first + rest, |first| + m, linked)
  {
    RunOn(s, first, rest[..m]);
    assert (first + rest)[..|first| + m] == first + rest[..m];
  }

  lemma SleepsFirst<T>(s: State<T>, first: seq<Action<T>>, rest: seq<Action<T>>, m: nat, linked: seq<T>)
    requires SleepsAt(s, first, m, linked)
    ensures SleepsAt(s, first + rest, m, linked)
  {
    assert (first + rest)[..m] == first[..m];
  }

  lemma {:induction false} ServesFrom<T>(s: State<T>, tasks: seq<T>, early: bool)
    returns (actions: seq<Action<T>>, at: seq<nat>)
    requires Inv(s) && Quiet(s) && |s.pcs| >= 2
    ensures var s' := Run(s, actions);
            && Quiet(s') && s'.linked == s.linked + tasks && s'.taken == s.taken + tasks
    ensures early ==> |at| == |tasks| && forall j :: 0 <= j < |tasks| ==>
              SleepsAt(s, actions, at[j], s.linked + tasks[..j])
    decreases |tasks|
  {
    hide Inv, Step, Quiet, SleepsAt;
    if tasks == [] {
      actions, at := [], [];
    } else {
      var first: seq<Action<T>>;
      if early { first := SleeperServed(s, tasks[0]); } else { first := TaskServed(s, tasks[0]); }
      var s1 := Run(s, first);
      var rest, later := ServesFrom(s1, tasks[1..], early);
      actions := first + rest;
      at := [3] + seq(|later|, i requires 0 <= i < |later| => |first| + later[i]);
      RunOn(s, first, rest);
      assert s.linked + [tasks[0]] + tasks[1..] == s.linked + tasks;
      assert s.taken + [tasks[0]] + tasks[1..] == s.taken + tasks;
      if early {
        SleepsEach(s, tasks, first, rest, later);
      }
    }
  }

  lemma SleepsEach<T>(s: State<T>, tasks: seq<T>, first: seq<Action<T>>, rest: seq<Action<T>>, later: seq<nat>)
    requires tasks != [] && Run(s, first).linked == s.linked + [tasks[0]] && |later| == |tasks| - 1
    requires SleepsAt(s, first, 3, s.linked)
    requires forall j :: 0 <= j < |later| ==>
               SleepsAt(Run(s, first), rest, later[j], Run(s, first).linked + tasks[1..][..j])
    ensures var at := [3] + seq(|later|, i requires 0 <= i < |later| => |first| + later[i]);
            forall j :: 0 <= j < |tasks| ==> SleepsAt(s, first + rest, at[j], s.linked + tasks[..j])
  {
    hide SleepsAt, Run;
    var at := [3] + seq(|later|, i requires 0 <= i < |later| => |first| + later[i]);
    forall j | 0 <= j < |tasks|
      ensures SleepsAt(s, first + rest, at[j], s.linked + tasks[..j])
    {
      if j == 0 {
        SleepsFirst(s, first, rest, 3, s.linked);
        assert s.linked + tasks[..0] == s.linked;
      } else {
        SleepsLater(s, first, rest, later[j - 1], Run(s, first).linked + tasks[1..][..j - 1]);
        assert s.linked + [tasks[0]] + tasks[1..][..j - 1] == s.linked + tasks[..j];
      }
    }
  }

  /**
   * With two threads or more, whatever the tasks, there is a run that links and takes all of them in order
   * and ends every call, and one in which, besides, every task finds the consumer asleep.
   */
  lemma ServesAll<T>(threads: nat, tasks: seq<T>, early: bool) returns (actions: seq<Action<T>>, at: seq<nat>)
    requires threads >= 2
    ensures var s := Run(Initial<T>(threads), actions);
            && s.linked == tasks && s.taken == tasks && s.queue == []
            && |s.pcs| == threads && forall t :: 0 <= t < threads ==> s.pcs[t].Outside?
    ensures early ==> |at| == |tasks| && forall j :: 0 <= j < |tasks| ==>
              && at[j] <= |actions|
              && var s := Run(Initial<T>(threads), actions[..at[j]]);
                 |s.pcs| > 1 && s.pcs[1].Asleep? && s.linked == tasks[..j]
  {
    InitialInv<T>(threads);
    actions, at := ServesFrom(Initial<T>(threads), tasks, early);
    RunKeepsInv(Initial<T>(threads), actions);
    if early {
      forall j | 0 <= j < |tasks|
        ensures SleepsAt(Initial<T>(threads), actions, at[j], tasks[..j])
      {
        assert [] + tasks[..j] == tasks[..j];
        assert SleepsAt(Initial<T>(threads), actions, at[j], Initial<T>(threads).linked + tasks[..j]);
      }
    }
  }

}
