/**
 * A file copied through a bounded pipe by two processes that run at their own pace: the client reads
 * chunks and writes them in whatever portions the pipe has room for, the server reads what is there.
 */
module PipeCopy {
  import opened InternetChecksum
  import opened Limits

  /**
   * `unread`: the rest of the file; `eof`: the client's `feof`; `chunk`: the part of the client's
   * buffer that its `write` has yet to deliver; `open`: the client's end of the pipe; `received` and
   * `counter`: the server's file and byte counter; `done`: the server has seen the end of the pipe.
   */
  datatype State = State(unread: seq<Byte>, eof: bool, chunk: seq<Byte>, open: bool,
                         pipe: seq<Byte>, received: seq<Byte>, counter: nat, done: bool)

  datatype Action = Fread | Deliver(n: nat) | Close | Read(n: nat) | End

  predicate Enabled(capacity: nat, s: State, a: Action) {
    match a
    case Fread => s.open && s.chunk == [] && !s.eof
    case Deliver(n) => 1 <= n <= |s.chunk| && |s.pipe| + n <= capacity
    case Close => s.open && s.chunk == [] && s.eof
    case Read(n) => !s.done && 1 <= n <= |s.pipe| && n <= BUFFER_SIZE
    case End => !s.done && s.pipe == [] && !s.open
  }

  function Step(capacity: nat, s: State, a: Action): State {
    if !Enabled(capacity, s, a) then s else
    match a
    case Fread =>
      var n := if |s.unread| < BUFFER_SIZE then |s.unread| else BUFFER_SIZE;
      s.(chunk := s.unread[..n], unread := s.unread[n..], eof := n < BUFFER_SIZE)
    case Deliver(n) => s.(pipe := s.pipe + s.chunk[..n], chunk := s.chunk[n..])
    case Close => s.(open := false)
    case Read(n) => s.(received := s.received + s.pipe[..n], pipe := s.pipe[n..], counter := s.counter + n)
    case End => s.(done := true)
  }

  function Run(capacity: nat, s: State, actions: seq<Action>): State
    decreases |actions|
  {
    if actions == [] then s else Run(capacity, Step(capacity, s, actions[0]), actions[1..])
  }

  function Initial(file: seq<Byte>): State {
    State(file, false, [], true, [], [], 0, false)
  }

  /** Nothing is lost, duplicated or reordered on the way from the file to the file. */
  ghost predicate Inv(file: seq<Byte>, capacity: nat, s: State) {
    && s.received + s.pipe + s.chunk + s.unread == file
    && s.counter == |s.received| && |s.pipe| <= capacity
    && (s.eof ==> s.unread == [])
    && (!s.open ==> s.chunk == [] && s.eof)
    && (s.done ==> s.pipe == [] && !s.open)
  }

  /** The first `n` bytes of a part move to the end of the part before it. */
  lemma Regroup(a: seq<Byte>, b: seq<Byte>, c: seq<Byte>, n: nat)
    requires n <= |c|
    ensures a + (b + c[..n]) + c[n..] == a + b + c
  {
  }

  lemma StepKeepsInv(file: seq<Byte>, capacity: nat, s: State, a: Action)
    requires Inv(file, capacity, s)
    ensures Inv(file, capacity, Step(capacity, s, a))
  {
    if Enabled(capacity, s, a) {
      match a {
        case Fread =>
          var n := if |s.unread| < BUFFER_SIZE then |s.unread| else BUFFER_SIZE;
          Regroup(s.received + s.pipe, s.chunk, s.unread, n);
          assert s.received + s.pipe + [] + s.unread == file;
        case Deliver(n) =>
          Regroup(s.received, s.pipe, s.chunk, n);
        case Read(n) =>
          Regroup([], s.received, s.pipe, n);
        case _ =>
      }
    }
  }

  lemma {:induction false} RunKeepsInv(file: seq<Byte>, capacity: nat, s: State, actions: seq<Action>)
    requires Inv(file, capacity, s)
    ensures Inv(file, capacity, Run(capacity, s, actions))
    decreases |actions|
  {
    if actions != [] {
      StepKeepsInv(file, capacity, s, actions[0]);
      RunKeepsInv(file, capacity, Step(capacity, s, actions[0]), actions[1..]);
    }
  }

  /** In every state of every run the bytes on their way make up the file, and at the end it has arrived. */
  lemma RoundTrip(file: seq<Byte>, capacity: nat, actions: seq<Action>)
    ensures var s := Run(capacity, Initial(file), actions);
            && s.received + s.pipe + s.chunk + s.unread == file
            && s.counter == |s.received| && |s.pipe| <= capacity
            && (s.done ==> s.received == file && s.counter == |file|)
    ensures Run(capacity, Initial(file), []) == State(file, false, [], true, [], [], 0, false)
  {
    RunKeepsInv(file, capacity, Initial(file), actions);
  }

  // ----- Three positions in the file -----

  /** How far the client has read and delivered, and the server received. */
  datatype Positions = Positions(fetched: nat, delivered: nat, received: nat)

  function At(file: seq<Byte>, s: State): Positions
    requires |s.unread| <= |file|
  {
    Positions(|file| - |s.unread|, |s.received| + |s.pipe|, |s.received|)
  }

  /** The parts of a state are the parts of the file between three positions. */
  lemma StateIsPositions(file: seq<Byte>, capacity: nat, s: State)
    requires Inv(file, capacity, s)
    ensures |s.unread| <= |file|
    ensures var p := At(file, s);
            && p.received <= p.delivered <= p.fetched <= |file| && p.delivered - p.received <= capacity
            && s.received == file[..p.received] && s.pipe == file[p.received..p.delivered]
            && s.chunk == file[p.delivered..p.fetched] && s.unread == file[p.fetched..]
            && s.counter == p.received
  {
  }

  /**
   * What may happen at positions `p`, and where it leads: the client fetches 1024 bytes when all it has is delivered,
   * until that comes to less; it delivers any portion the pipe has room for; the server takes any portion of what is
   * delivered, up to its buffer, and sees the end when it has received all and the client is gone.
   */
  lemma StepMovesPositions(file: seq<Byte>, capacity: nat, s: State, a: Action)
    requires Inv(file, capacity, s)
    ensures Inv(file, capacity, Step(capacity, s, a)) && |s.unread| <= |file| && |Step(capacity, s, a).unread| <= |file|
    ensures var p, t := At(file, s), Step(capacity, s, a);
            var q := At(file, t);
            match a
            case Fread =>
              && (Enabled(capacity, s, a) <==> s.open && p.delivered == p.fetched && !s.eof)
              && (Enabled(capacity, s, a) ==>
                    && q == p.(fetched := if p.fetched + 1024 <= |file| then p.fetched + 1024 else |file|)
                    && (t.eof <==> p.fetched + 1024 > |file|) && t.open && t.done == s.done)
            case Deliver(n) =>
              && (Enabled(capacity, s, a) <==> n >= 1 && p.delivered + n <= p.fetched
                                               && p.delivered + n <= p.received + capacity)
              && (Enabled(capacity, s, a) ==>
                    q == p.(delivered := p.delivered + n) && t.eof == s.eof && t.open == s.open && t.done == s.done)
            case Close =>
              && (Enabled(capacity, s, a) <==> s.open && p.delivered == p.fetched && s.eof)
              && (Enabled(capacity, s, a) ==> q == p && !t.open && t.eof && t.done == s.done)
            case Read(n) =>
              && (Enabled(capacity, s, a) <==> 1 <= n <= 1024 && p.received + n <= p.delivered)
              && (Enabled(capacity, s, a) ==>
                    q == p.(received := p.received + n) && t.eof == s.eof && t.open == s.open && !t.done)
            case End =>
              && (Enabled(capacity, s, a) <==> !s.open && !s.done && p.received == p.delivered)
              && (Enabled(capacity, s, a) ==> q == p && t.done && !t.open && t.eof == s.eof)
  {
    StepKeepsInv(file, capacity, s, a);
    StateIsPositions(file, capacity, s);
  }

  /** As long as the server has not seen the end, one of the two processes can move. */
  lemma SomeoneCanMove(file: seq<Byte>, capacity: nat, s: State) returns (a: Action)
    requires Inv(file, capacity, s) && capacity > 0 && !s.done
    ensures Enabled(capacity, s, a)
  {
    a := if s.pipe != [] then Read(1)
         else if s.chunk != [] then Deliver(1)
         else if !s.open then End
         else if s.eof then Close else Fread;
  }

  function Measure(s: State): nat {
    3 * |s.unread| + 2 * |s.chunk| + |s.pipe|
    + (if s.eof then 0 else 1) + (if s.open then 1 else 0) + (if s.done then 0 else 1)
  }

  lemma StepDecreases(capacity: nat, s: State, a: Action)
    requires Enabled(capacity, s, a)
    ensures Measure(Step(capacity, s, a)) < Measure(s)
  {
  }

  /** Whatever has happened so far, the copy can be completed, in at most 3 |file| + 3 further steps. */
  lemma {:induction false} CanFinish(file: seq<Byte>, capacity: nat, s: State) returns (rest: seq<Action>)
    requires Inv(file, capacity, s) && capacity > 0
    ensures Run(capacity, s, rest).done && Run(capacity, s, rest).received == file
    ensures |rest| <= Measure(s)
    decreases Measure(s)
  {
    if s.done {
      rest := [];
    } else {
      var a := SomeoneCanMove(file, capacity, s);
      StepKeepsInv(file, capacity, s, a);
      StepDecreases(capacity, s, a);
      var tail := CanFinish(file, capacity, Step(capacity, s, a));
      rest := [a] + tail;
      assert rest[1..] == tail;
    }
  }

  ghost function Moves(capacity: nat, s: State, actions: seq<Action>): nat
    decreases |actions|
  {
    if actions == [] then 0
    else (if Enabled(capacity, s, actions[0]) then 1 else 0)
         + Moves(capacity, Step(capacity, s, actions[0]), actions[1..])
  }

  /** No run makes more than 3 |file| + 3 steps. */
  lemma {:induction false} RunIsBounded(capacity: nat, s: State, actions: seq<Action>)
    ensures Moves(capacity, s, actions) <= Measure(s)
    decreases |actions|
  {
    if actions != [] {
      if Enabled(capacity, s, actions[0]) { StepDecreases(capacity, s, actions[0]); }
      RunIsBounded(capacity, Step(capacity, s, actions[0]), actions[1..]);
    }
  }

}
