/**
 * The poll reactor: a growable table of descriptors with the listener in slot 0, one pass after
 * another over the ready descriptors, and a stop rule. What the kernel reports is an input.
 */
module Reactor {
  import opened ReactorTable

  /** One table entry: the descriptor and the result of the last poll that reported on the slot. */
  datatype PollFd = PollFd(fd: int, readable: bool, broken: bool)

  /** `recv`: some bytes, end of stream, or an error. */
  datatype Received = Data(msg: string) | HungUp | Failed

  /** `send`: an error other than that the call would block ends the program. */
  datatype SendResult = Sent | WouldBlock | Error

  datatype Ready = Ready(readable: bool, broken: bool)

  /** A message handed to the kernel for a descriptor. */
  datatype Delivery = Delivery(dest: int, source: int, msg: string)

  /**
   * The kernel's part in one pass: what `poll` reports on each slot, the descriptor `accept` returns
   * (or -1) given those in use, what `recv` returns on each slot, and what becomes of the message of
   * one slot to another as long as that one is open. A closed descriptor takes no message.
   */
  datatype Kernel =
    Kernel(poll: nat -> Ready, accept: set<int> -> int, recv: nat -> Received, send: (nat, nat) -> SendResult)

  /**
   * The live entries, the open descriptors, the messages sent and the descriptors closed so far, the
   * descriptors for which an event is registered, and whether the reactor is to go on.
   */
  datatype World =
    World(live: seq<PollFd>, open: set<int>, outbox: seq<Delivery>, closed: seq<int>, events: seq<int>, running: bool)

  /**
   * How a pass ends the program: the handler of an accepted descriptor is called, the send of slot `i` to
   * slot `j` fails, or the handler of the descriptor of slot `i` is called. Every handler is NULL.
   */
  datatype Ending = Accepting | Sending(i: nat, j: nat) | Closing(i: nat)

  /** The listener reports no error, and `accept` returns no descriptor that is in use. */
  ghost predicate Proper(k: Kernel) {
    !k.poll(0).broken && forall used :: k.accept(used) == -1 || k.accept(used) !in used
  }

  /** The accepted descriptor already has an event, so that its NULL handler is called. */
  predicate AcceptEnds(k: Kernel, w: World) {
    Accepts(k, w.live, w.open) && k.accept(InUse(w.live, w.open)) in w.events
  }

  // ----- The outcome of a pass over a table whose listener is slot 0 -----

  /** The descriptors in use: those in the table and those that are open. */
  function InUse(t: seq<PollFd>, open: set<int>): set<int> {
    (set x | x in Fds(t)) + open
  }

  /** The listener is readable and `accept` succeeds. */
  predicate Accepts(k: Kernel, t: seq<PollFd>, open: set<int>) {
    k.poll(0).readable && k.accept(InUse(t, open)) != -1
  }

  /** The open descriptors after the listener's turn. */
  function Opened(k: Kernel, t: seq<PollFd>, open: set<int>): set<int> {
    if Accepts(k, t, open) then open + {k.accept(InUse(t, open))} else open
  }

  /** A client's data was read in this pass. */
  predicate Spoke(k: Kernel, t: seq<PollFd>, i: nat)
    requires i < |t|
  {
    i > 0 && t[i].readable && k.recv(i).Data?
  }

  /** The slot goes on the removal list. */
  predicate Doomed(k: Kernel, t: seq<PollFd>, i: nat)
    requires i < |t|
  {
    t[i].broken || (i > 0 && t[i].readable && !k.recv(i).Data?)
  }

  /** The slot is closed: an error was reported, and reading has not already ended its turn. */
  predicate Closes(k: Kernel, t: seq<PollFd>, i: nat)
    requires i < |t|
  {
    t[i].broken && (i > 0 && t[i].readable ==> k.recv(i).Data?)
  }

  /** The removal list after the first `count` slots. */
  function Listed(k: Kernel, t: seq<PollFd>, count: nat): seq<nat>
    requires count <= |t|
  {
    if count == 0 then []
    else Listed(k, t, count - 1) + ListedOf(k, t, count - 1)
  }

  function ListedOf(k: Kernel, t: seq<PollFd>, i: nat): seq<nat>
    requires i < |t|
  {
    if Doomed(k, t, i) then [i] else []
  }

  function ClosedFds(k: Kernel, t: seq<PollFd>, count: nat): seq<int>
    requires count <= |t|
  {
    if count == 0 then []
    else ClosedFds(k, t, count - 1) + ClosedOf(k, t, count - 1)
  }

  function ClosedOf(k: Kernel, t: seq<PollFd>, i: nat): seq<int>
    requires i < |t|
  {
    if Closes(k, t, i) then [t[i].fd] else []
  }

  /** The open descriptors when the first `count` slots have had their turn. */
  function OpenAt(k: Kernel, t: seq<PollFd>, open: set<int>, count: nat): set<int>
    requires count <= |t|
  {
    open - (set x | x in ClosedFds(k, t, count))
  }

  /** The message of slot `i` is to be sent to slot `j`: not to the listener, and not to its sender. */
  predicate Addressed(t: seq<PollFd>, i: nat, j: nat)
    requires i < |t| && j < |t|
  {
    t[j].fd != t[0].fd && t[j].fd != t[i].fd
  }

  /** The send of slot `i` to slot `j` fails and ends the program; `open` are the open descriptors. */
  predicate Fails(k: Kernel, t: seq<PollFd>, open: set<int>, i: nat, j: nat)
    requires i < |t| && j < |t|
  {
    Addressed(t, i, j) && (t[j].fd !in open || k.send(i, j).Error?)
  }

  predicate NoFailure(k: Kernel, t: seq<PollFd>, open: set<int>, i: nat, count: nat)
    requires i < |t| && count <= |t|
  {
    forall j :: 0 <= j < count ==> !Fails(k, t, open, i, j)
  }

  /** In its turn slot `i` is closed, and the NULL handler of its event is called. */
  predicate CallsHandler(k: Kernel, t: seq<PollFd>, events: seq<int>, i: nat)
    requires i < |t|
  {
    Closes(k, t, i) && t[i].fd in events
  }

  /** In its turn slot `i` passes on a message of which one send fails, or its handler is called. */
  predicate Faulty(k: Kernel, t: seq<PollFd>, open: set<int>, events: seq<int>, i: nat)
    requires i < |t|
  {
    (Spoke(k, t, i) && !NoFailure(k, t, OpenAt(k, t, open, i), i, |t|)) || CallsHandler(k, t, events, i)
  }

  /** The turns of the slots of `t` end the program; `open` and `events` are as after the listener's turn. */
  ghost predicate Exits(k: Kernel, t: seq<PollFd>, open: set<int>, events: seq<int>) {
    exists i: nat :: i < |t| && Faulty(k, t, open, events, i)
  }

  /** The messages of slot `i` that go out to the first `count` slots. */
  function Broadcast(k: Kernel, t: seq<PollFd>, i: nat, count: nat): seq<Delivery>
    requires i < |t| && count <= |t| && k.recv(i).Data?
  {
    if count == 0 then []
    else
      var j := count - 1;
      Broadcast(k, t, i, j) +
      (if Addressed(t, i, j) && k.send(i, j).Sent? then [Delivery(t[j].fd, t[i].fd, k.recv(i).msg)] else [])
  }

  /** All sends on behalf of slot `i`. */
  function SendsOf(k: Kernel, t: seq<PollFd>, i: nat): seq<Delivery>
    requires i < |t|
  {
    if Spoke(k, t, i) then Broadcast(k, t, i, |t|) else []
  }

  /** All sends of the first `count` slots. */
  function Sends(k: Kernel, t: seq<PollFd>, count: nat): seq<Delivery>
    requires count <= |t|
  {
    if count == 0 then [] else Sends(k, t, count - 1) + SendsOf(k, t, count - 1)
  }

  function Fds(t: seq<PollFd>): (fds: seq<int>)
    ensures |fds| == |t|
  {
    seq(|t|, i requires 0 <= i < |t| => t[i].fd)
  }

  /** The table after a poll. */
  function Polled(k: Kernel, t: seq<PollFd>): (r: seq<PollFd>)
    ensures |r| == |t|
  {
    seq(|t|, (i: nat) requires i < |t| => PollFd(t[i].fd, k.poll(i).readable, k.poll(i).broken))
  }

  /** The table that a pass works on: the polled entries, and after them the accepted connection. */
  ghost predicate Extends(k: Kernel, before: seq<PollFd>, open: set<int>, table: seq<PollFd>)
    requires |before| > 0
  {
    && |table| == |before| + (if Accepts(k, before, open) then 1 else 0)
    && table[..|before|] == Polled(k, before)
    && (Accepts(k, before, open) ==> table[|before|].fd == k.accept(InUse(before, open)))
  }

  lemma ExtendsDistinct(k: Kernel, before: seq<PollFd>, open: set<int>, table: seq<PollFd>)
    requires |before| > 0 && Proper(k) && Distinct(Fds(before)) && Extends(k, before, open, table)
    ensures Distinct(Fds(table)) && !table[0].broken && table[0].fd == before[0].fd
  {
    var n, used := |before|, InUse(before, open);
    forall i | 0 <= i < n
      ensures table[i].fd == Fds(before)[i] && table[i].fd in used
    {
      assert table[i] == table[..n][i] && Fds(before)[i] in Fds(before);
    }
    forall i, j | 0 <= i < j < |table|
      ensures Fds(table)[i] != Fds(table)[j]
    {
      assert j < n ==> Fds(before)[i] != Fds(before)[j];
    }
  }

  /** Slot `i` does not hold the listener. */
  predicate Apart(t: seq<PollFd>, i: nat)
    requires i < |t|
  {
    t[i].fd != t[0].fd
  }

  predicate AllApart(t: seq<PollFd>) {
    forall i :: 0 < i < |t| ==> Apart(t, i)
  }

  lemma DistinctIsApart(t: seq<PollFd>)
    requires Distinct(Fds(t))
    ensures AllApart(t)
  {
    forall i | 0 < i < |t|
      ensures Apart(t, i)
    {
      assert Fds(t)[0] != Fds(t)[i];
    }
  }

  /** The list is strictly increasing and spares the listener, so it is shorter than the table. */
  lemma {:induction false} ListedSparesListener(k: Kernel, t: seq<PollFd>, count: nat)
    requires 1 <= count <= |t| && !t[0].broken
    ensures |Listed(k, t, count)| < count && Increasing(Listed(k, t, count))
    ensures forall j :: 0 <= j < |Listed(k, t, count)| ==> 0 < Listed(k, t, count)[j] < count
  {
    if count > 1 {
      ListedSparesListener(k, t, count - 1);
    }
  }

  /** Exactly the doomed slots are listed. */
  lemma {:induction false} ListedIsDoomed(k: Kernel, t: seq<PollFd>, count: nat, i: nat)
    requires i < count <= |t|
    ensures i in Listed(k, t, count) <==> Doomed(k, t, i)
  {
    if i < count - 1 {
      ListedIsDoomed(k, t, count - 1, i);
    } else {
      ListedBelow(k, t, i);
    }
  }

  lemma {:induction false} ListedBelow(k: Kernel, t: seq<PollFd>, count: nat)
    requires count <= |t|
    ensures forall x :: x in Listed(k, t, count) ==> x < count
  {
    if count > 0 {
      ListedBelow(k, t, count - 1);
    }
  }

  function PowerOfTwo(n: nat): nat {
    if n == 0 then 1 else 2 * PowerOfTwo(n - 1)
  }

  /** The first `count` slots have had their turn, none of which ended the program. */
  ghost predicate Scanned(k: Kernel, t: seq<PollFd>, count: nat, list: seq<nat>, w0: World, w: World) {
    && count <= |t| && list == Listed(k, t, count) && w.live == w0.live && w.events == w0.events
    && w.running == w0.running
    && w.outbox == w0.outbox + Sends(k, t, count) && w.closed == w0.closed + ClosedFds(k, t, count)
    && w.open == OpenAt(k, t, w0.open, count) && NoFaults(k, t, w0, count)
  }

  ghost predicate NoFaults(k: Kernel, t: seq<PollFd>, w0: World, count: nat)
    requires count <= |t|
  {
    forall i: nat :: i < count ==> !Faulty(k, t, w0.open, w0.events, i)
  }

  /** A slot's turn has ended the program, in the way `how`, after those before it have had theirs. */
  ghost predicate Stopped(k: Kernel, t: seq<PollFd>, how: Ending, w0: World, w: World) {
    match how
    case Accepting => false
    case Sending(i, j) =>
      && i < |t| && j < |t| && Spoke(k, t, i) && NoFaults(k, t, w0, i)
      && w.open == OpenAt(k, t, w0.open, i) && NoFailure(k, t, w.open, i, j) && Fails(k, t, w.open, i, j)
      && w.live == w0.live && w.events == w0.events && w.running == w0.running
      && w.closed == w0.closed + ClosedFds(k, t, i)
      && w.outbox == w0.outbox + Sends(k, t, i) + Broadcast(k, t, i, j)
    case Closing(i) =>
      && i < |t| && CallsHandler(k, t, w0.events, i) && NoFaults(k, t, w0, i)
      && (Spoke(k, t, i) ==> NoFailure(k, t, OpenAt(k, t, w0.open, i), i, |t|))
      && w.open == OpenAt(k, t, w0.open, i + 1)
      && w.live == w0.live && w.events == w0.events && w.running == w0.running
      && w.closed == w0.closed + ClosedFds(k, t, i + 1)
      && w.outbox == w0.outbox + Sends(k, t, i + 1)
  }

  /** Where the loop over the slots is when `count` slots have had their turn, the last of which may have ended it. */
  ghost predicate Scanning(k: Kernel, t: seq<PollFd>, count: nat, list: seq<nat>, how: Ending, w0: World, w: World,
                           ended: bool) {
    if ended then Stopped(k, t, how, w0, w) else Scanned(k, t, count, list, w0, w)
  }

  /** What the turn of slot `i` sends, closes and leaves open if all its sends go out. */
  ghost predicate HadTurn(k: Kernel, t: seq<PollFd>, i: nat, w: World, w': World) {
    && i < |t| && w'.live == w.live && w'.events == w.events && w'.running == w.running
    && w'.outbox == w.outbox + SendsOf(k, t, i)
    && w'.closed == w.closed + ClosedOf(k, t, i) && w'.open == w.open - (set x | x in ClosedOf(k, t, i))
    && (Spoke(k, t, i) ==> NoFailure(k, t, w.open, i, |t|))
  }

  /** The turn of slot `i`, if it does not end the program. */
  ghost predicate Served(k: Kernel, t: seq<PollFd>, i: nat, w: World, w': World) {
    HadTurn(k, t, i, w, w') && !CallsHandler(k, t, w.events, i)
  }

  /** The turn of slot `i`, if it ends the program. */
  ghost predicate Cut(k: Kernel, t: seq<PollFd>, i: nat, how: Ending, w: World, w': World) {
    match how
    case Accepting => false
    case Sending(h, j) =>
      && h == i < |t| && j < |t| && Spoke(k, t, i) && NoFailure(k, t, w.open, i, j) && Fails(k, t, w.open, i, j)
      && w' == w.(outbox := w.outbox + Broadcast(k, t, i, j))
    case Closing(h) => h == i && HadTurn(k, t, i, w, w') && CallsHandler(k, t, w.events, i)
  }

  lemma ScannedFirst(k: Kernel, t: seq<PollFd>, how: Ending, w: World)
    requires |t| > 0 && !t[0].broken
    ensures Scanning(k, t, 1, [], how, w, w, false)
  {
    assert Listed(k, t, 1) == Listed(k, t, 0) + ListedOf(k, t, 0);
    assert Sends(k, t, 1) == Sends(k, t, 0) + SendsOf(k, t, 0);
    assert ClosedFds(k, t, 1) == ClosedFds(k, t, 0) + ClosedOf(k, t, 0);
    assert OpenAt(k, t, w.open, 1) == w.open;
  }

  /** After the turn of slot `i` the totals are those of the first `i + 1` slots. */
  lemma TurnAdds(k: Kernel, t: seq<PollFd>, i: nat, list: seq<nat>, w0: World, w: World, w': World)
    requires Scanned(k, t, i, list, w0, w) && HadTurn(k, t, i, w, w')
    ensures w'.live == w0.live && w'.events == w0.events && w'.running == w0.running
                && w'.open == OpenAt(k, t, w0.open, i + 1)
    ensures w'.outbox == w0.outbox + Sends(k, t, i + 1) && w'.closed == w0.closed + ClosedFds(k, t, i + 1)
  {
    hide Spoke, Doomed, Closes, NoFailure, SendsOf, ClosedOf, NoFaults;
    AppendInOrder(w0.outbox, Sends(k, t, i), SendsOf(k, t, i));
    AppendInOrder(w0.closed, ClosedFds(k, t, i), ClosedOf(k, t, i));
    OpenStep(k, t, w0.open, i);
  }

  lemma ScannedStep(k: Kernel, t: seq<PollFd>, i: nat, list: seq<nat>, how: Ending, w0: World, w: World, w': World)
    requires Scanned(k, t, i, list, w0, w) && Served(k, t, i, w, w')
    ensures Scanning(k, t, i + 1, list + ListedOf(k, t, i), how, w0, w', false)
  {
    TurnAdds(k, t, i, list, w0, w, w');
    hide Spoke, Doomed, Closes, NoFailure, SendsOf, ClosedOf, Sends, ClosedFds, OpenAt;
    assert !Faulty(k, t, w0.open, w0.events, i);
    assert NoFaults(k, t, w0, i + 1);
  }

  lemma OpenStep(k: Kernel, t: seq<PollFd>, open: set<int>, i: nat)
    requires i < |t|
    ensures OpenAt(k, t, open, i + 1) == OpenAt(k, t, open, i) - (set x | x in ClosedOf(k, t, i))
  {
  }

  lemma StoppedHere(k: Kernel, t: seq<PollFd>, i: nat, how: Ending, count: nat, list: seq<nat>, list': seq<nat>,
                    w0: World, w: World, w': World)
    requires Scanned(k, t, i, list, w0, w) && Cut(k, t, i, how, w, w')
    ensures Scanning(k, t, count, list', how, w0, w', true)
  {
    if how.Closing? { TurnAdds(k, t, i, list, w0, w, w'); }
    hide Spoke, Doomed, Closes, NoFailure, SendsOf, ClosedOf, Sends, ClosedFds, Broadcast;
  }

  lemma StoppedAnywhere(k: Kernel, t: seq<PollFd>, count: nat, count': nat, list: seq<nat>, how: Ending,
                        w0: World, w: World)
    requires Scanning(k, t, count, list, how, w0, w, true)
    ensures Scanning(k, t, count', list, how, w0, w, true)
  {
  }

  lemma AppendInOrder<T>(a: seq<T>, b: seq<T>, c: seq<T>)
    ensures a + b + c == a + (b + c)
  {
  }

  function Max(a: nat, b: nat): nat { if a < b then b else a }

  class Table {
    var pfds: array<PollFd>
    var fdCount: nat
    var fdSize: nat
    var running: bool
    var events: seq<int>      // the ids of the registered events; every handler is NULL
    var ended: bool           // a failed send or the call of a NULL handler has ended the program

    // The kernel's side: the open descriptors, the messages it took and the descriptors it closed.
    var open: set<int>
    var outbox: seq<Delivery>
    var closed: seq<int>

    ghost var growths: nat    // how often the table was doubled,
    ghost var copied: nat     // how many slots that copied,
    ghost var peak: nat       // and the greatest number of live entries so far

    ghost predicate Valid()
      reads `pfds, `fdCount, `fdSize, `growths, `copied, `peak
    {
      && pfds.Length == fdSize && fdCount <= peak <= fdSize
      && fdSize == 5 * PowerOfTwo(growths) && copied == fdSize - 5
      && (growths > 0 ==> fdSize < 2 * peak)
    }

    ghost function Live(): (t: seq<PollFd>)
      requires Valid()
      reads `pfds, `fdCount, `fdSize, `growths, `copied, `peak, pfds
    {
      pfds[..fdCount]
    }

    ghost function Now(): World
      requires Valid()
      reads `pfds, `fdCount, `fdSize, `growths, `copied, `peak, pfds, `open, `outbox, `closed, `events, `running
    {
      World(Live(), open, outbox, closed, events, running)
    }

    /** `createReactor` and the set-up in `main`. */
    constructor (listener: int)
      ensures Valid() && fresh(pfds) && !running && fdCount == 0 && peak == 0 && growths == 0
      ensures pfds.Length > 0 && pfds[0].fd == listener && open == {listener} && !ended
      ensures events == [] && outbox == [] && closed == []
    {
      var first := new PollFd[5](_ => PollFd(0, false, false));
      first[0] := PollFd(listener, false, false);
      pfds := first;
      fdCount, fdSize, running, ended := 0, 5, false, false;
      events, open, outbox, closed := [], {listener}, [], [];
      growths, copied, peak := 0, 0, 0;
    }

    /** `realloc` to twice the size: the old slots are copied, the new ones hold anything. */
    method Grow()
      requires Valid() && fdCount == fdSize
      modifies this`pfds, this`fdSize, this`growths, this`copied
      ensures fresh(pfds) && pfds.Length == fdSize == 2 * old(fdSize) && pfds[..fdCount] == old(pfds[..fdCount])
      ensures growths == old(growths) + 1 && copied == old(copied) + old(fdSize)
    {
      var larger := new PollFd[2 * fdSize];
      forall i | 0 <= i < fdSize {
        larger[i] := pfds[i];
      }
      copied := copied + fdSize;
      growths := growths + 1;
      fdSize := 2 * fdSize;
      pfds := larger;
    }

    /** `addFd`: the slot keeps whatever poll result it held before. */
    method AddFd(newfd: int)
      requires Valid()
      modifies this`pfds, this`fdCount, this`fdSize, this`events, this`growths, this`copied, this`peak, pfds
      ensures Valid() && (pfds == old(pfds) || fresh(pfds)) && fdCount == old(fdCount) + 1
      ensures Live()[..old(fdCount)] == old(Live()) && Live()[old(fdCount)].fd == newfd
      ensures events == old(events) + [newfd] && peak == Max(old(peak), fdCount)
      ensures var full := old(fdCount == fdSize);
              && growths == old(growths) + (if full then 1 else 0)
              && fdSize == (if full then 2 else 1) * old(fdSize)
              && copied == old(copied) + (if full then old(fdSize) else 0)
    {
      if fdCount == fdSize {
        Grow();
      }
      pfds[fdCount] := pfds[fdCount].(fd := newfd);
      fdCount := fdCount + 1;
      if peak < fdCount { peak := fdCount; }
      events := events + [newfd];
    }

    /** `del_from_pfds`. */
    method DelFromPfds(i: nat)
      requires Valid() && i < fdSize && fdCount > 0
      modifies this`fdCount, this`running, pfds
      ensures Valid() && Live() == RemoveOne(old(Live()), i)
      ensures running == (old(running) && fdCount != 1)
    {
      pfds[i] := pfds[fdCount - 1];
      fdCount := fdCount - 1;
      if fdCount == 1 {
        running := false;
      }
    }

    /** The removal loop at the end of a pass. */
    method RemoveListed(descriptorsToRemove: array<nat>, count: nat, ghost list: seq<nat>)
      requires Valid() && count <= descriptorsToRemove.Length && descriptorsToRemove[..count] == list
      requires count < fdCount && forall j :: 0 <= j < count ==> list[j] < fdSize
      modifies this`fdCount, this`running, pfds
      ensures Valid() && fdCount == old(fdCount) - count && Live() == RemoveAll(old(Live()), list)
      ensures running == (old(running) && (list != [] ==> fdCount != 1))
    {
      var i := 0;
      while i < count
        invariant 0 <= i <= count && Valid() && fdCount == old(fdCount) - i
        invariant Live() == RemoveAll(old(Live()), list[..i])
        invariant running == (old(running) && (i > 0 ==> fdCount != 1))
      {
        assert list[..i + 1][..i] == list[..i];
        assert descriptorsToRemove[..count][i] == list[i];
        DelFromPfds(descriptorsToRemove[i]);
        i := i + 1;
      }
      assert list[..count] == list;
    }

    /** What `poll` leaves in the table. */
    method Poll(k: Kernel)
      requires Valid()
      modifies pfds
      ensures Valid() && Live() == Polled(k, old(Live()))
    {
      forall i | 0 <= i < fdCount {
        pfds[i] := PollFd(pfds[i].fd, k.poll(i).readable, k.poll(i).broken);
      }
    }

    /** `handleEvent`: look the descriptor up and call the handler of its event, which is NULL. */
    method HandleEvent(id: int)
      requires !ended
      modifies this`ended
      ensures ended <==> id in events
    {
      var i := 0;
      while i < |events|
        invariant 0 <= i <= |events| && !ended && id !in events[..i]
      {
        if events[i] == id {
          ended := true;
          return;
        }
        i := i + 1;
      }
      assert events[..i] == events;
    }

    /** The listener is readable: accept a connection and add it. */
    method Accept(k: Kernel)
      requires Valid() && !ended && fdCount > 0
      modifies this`pfds, this`fdCount, this`fdSize, this`events, this`open, this`ended
      modifies this`growths, this`copied, this`peak, pfds
      ensures Valid() && (pfds == old(pfds) || fresh(pfds))
      ensures var newfd := k.accept(InUse(old(Live()), old(open)));
              && ended == (newfd != -1 && newfd in old(events))
              && open == (if newfd == -1 then old(open) else old(open) + {newfd})
              && if newfd == -1 || ended then Live() == old(Live()) && events == old(events)
                 else fdCount == old(fdCount) + 1 && Live()[..old(fdCount)] == old(Live())
                      && Live()[old(fdCount)].fd == newfd && events == old(events) + [newfd]
      ensures peak == Max(old(peak), fdCount)
    {
      var newfd := k.accept(InUse(pfds[..fdCount], open));
      if newfd != -1 {
        open := open + {newfd};
        HandleEvent(newfd);
        if !ended {
          AddFd(newfd);
        }
      }
    }

    /**
     * A client has sent data: pass it on to everyone but the listener and the client itself. `stop` is
     * the slot at which a send that fails ends the program, or the number of slots.
     */
    method SendToOthers(k: Kernel, i: nat) returns (ghost stop: nat)
      requires Valid() && !ended && i < fdCount && k.recv(i).Data?
      modifies this`outbox, this`ended
      ensures stop <= fdCount && NoFailure(k, Live(), open, i, stop)
      ensures outbox == old(outbox) + Broadcast(k, Live(), i, stop)
      ensures if ended then stop < fdCount && Fails(k, Live(), open, i, stop) else stop == fdCount
    {
      var j := 0;
      while j < fdCount
        invariant 0 <= j <= fdCount && !ended && NoFailure(k, Live(), open, i, j)
        invariant outbox == old(outbox) + Broadcast(k, Live(), i, j)
        decreases fdCount - j
      {
        var dest := pfds[j].fd;
        if dest != pfds[0].fd && dest != pfds[i].fd {
          if dest !in open || k.send(i, j).Error? {
            ended := true;
            return j;
          }
          if k.send(i, j).Sent? {
            outbox := outbox + [Delivery(dest, pfds[i].fd, k.recv(i).msg)];
          }
        }
        j := j + 1;
      }
      return j;
    }

    /** The turn of a slot that is not the listener's; `remove`: the slot goes on the list. */
    method Serve(k: Kernel, i: nat, ghost table: seq<PollFd>) returns (remove: bool, ghost how: Ending)
      requires Valid() && !ended && 0 < i < fdCount && Live() == table && Apart(table, i)
      modifies this`outbox, this`closed, this`open, this`ended
      ensures !ended ==> Served(k, table, i, old(Now()), Now()) && remove == Doomed(k, table, i)
      ensures ended ==> Cut(k, table, i, how, old(Now()), Now())
    {
      remove, how := false, Closing(i);
      if pfds[i].readable {
        if k.recv(i).Data? {
          ghost var stop := SendToOthers(k, i);
          if ended {
            how := Sending(i, stop);
            return;
          }
        } else {
          return true, how;
        }
      }
      if pfds[i].broken {
        closed := closed + [pfds[i].fd];
        open := open - {pfds[i].fd};
        HandleEvent(pfds[i].fd);
        remove := true;
      }
    }

    /** The poll and the visit to the listener's slot. */
    method Begin(k: Kernel) returns (ghost table: seq<PollFd>)
      requires Valid() && !ended && fdCount > 0 && Proper(k) && Distinct(Fds(Live()))
      modifies this`pfds, this`fdCount, this`fdSize, this`events, this`open, this`ended
      modifies this`growths, this`copied, this`peak, pfds
      ensures Valid() && (pfds == old(pfds) || fresh(pfds)) && peak == Max(old(peak), |table|)
      ensures ended == AcceptEnds(k, old(Now())) && Distinct(Fds(table)) && |table| > 0 && !table[0].broken
      ensures Now() == if ended then Refused(k, old(Now())) else Begun(k, old(Now()), table)
      ensures Live() == table && (!ended ==> Extends(k, old(Live()), old(open), table))
    {
      Poll(k);
      ghost var before := old(Live());
      assert Fds(Live()) == Fds(before);
      if pfds[0].readable {
        Accept(k);
      }
      table := Live();
      if ended {
        assert Fds(table) == Fds(before);
      } else {
        assert |table| == |before| ==> table[..|before|] == table;
        ExtendsDistinct(k, before, old(open), table);
      }
    }

    /** One slot of the loop: serve it, and note its index if it is to be removed. */
    method ScanOne(k: Kernel, descriptorsToRemove: array<nat>, ghost table: seq<PollFd>, i: nat, count: nat,
                   ghost how0: Ending, ghost w0: World, ghost w: World)
      returns (next: nat, ghost how: Ending, ghost w': World)
      requires At(w) && !ended && w.live == table && 0 < i < |table| && AllApart(table)
      requires count < i && count < descriptorsToRemove.Length
      requires Scanning(k, table, i, descriptorsToRemove[..count], how0, w0, w, false)
      modifies this`outbox, this`closed, this`open, this`ended, descriptorsToRemove
      ensures At(w') && w'.live == table && next <= i && next <= descriptorsToRemove.Length
      ensures Scanning(k, table, i + 1, descriptorsToRemove[..next], how, w0, w', ended)
    {
      assert Apart(table, i);
      ghost var list := descriptorsToRemove[..count];
      hide Scanned, Served, Stopped, Cut, AllApart;
      var remove;
      remove, how := Serve(k, i, table);
      w' := Now();
      next := count;
      if ended {
        StoppedHere(k, table, i, how, i + 1, list, list, w0, w, w');
        return;
      }
      if remove {
        descriptorsToRemove[count] := i;
        next := count + 1;
      }
      ScannedStep(k, table, i, list, how, w0, w, w');
      assert descriptorsToRemove[..next] == list + ListedOf(k, table, i);
    }

    /** The table is valid, and `w` is how things stand. */
    ghost predicate At(w: World)
      reads `pfds, `fdCount, `fdSize, `growths, `copied, `peak, pfds, `open, `outbox, `closed, `events, `running
    {
      Valid() && Now() == w
    }

    /** The loop over the remaining slots, which collects the removal list, until a slot's turn ends the program. */
    method Scan(k: Kernel, descriptorsToRemove: array<nat>, ghost table: seq<PollFd>, ghost w0: World)
      returns (count: nat, ghost how: Ending, ghost w: World)
      requires At(w0) && !ended && w0.live == table && fdCount == |table| > 0 && !table[0].broken
      requires AllApart(table)
      requires fdCount <= descriptorsToRemove.Length + 1
      modifies this`outbox, this`closed, this`open, this`ended, descriptorsToRemove
      ensures At(w) && count <= descriptorsToRemove.Length
      ensures Scanning(k, table, |table|, descriptorsToRemove[..count], how, w0, w, ended)
    {
      hide *;
      count, how, w := 0, Accepting, w0;
      ScannedFirst(k, table, how, w0);
      assert descriptorsToRemove[..0] == [];
      var i := 1;
      while i < fdCount && !ended
        invariant 1 <= i <= fdCount && At(w) && w.live == table
        invariant count < i && count <= descriptorsToRemove.Length
        invariant Scanning(k, table, i, descriptorsToRemove[..count], how, w0, w, ended)
        decreases fdCount - i
      {
        count, how, w := ScanOne(k, descriptorsToRemove, table, i, count, how, w0, w);
        i := i + 1;
      }
      if ended { StoppedAnywhere(k, table, i, |table|, descriptorsToRemove[..count], how, w0, w); }
    }

    /** The removals at the end of a pass that did not end the program. */
    method Conclude(k: Kernel, descriptorsToRemove: array<nat>, count: nat, ghost table: seq<PollFd>, ghost w0: World)
      requires Valid() && running && Live() == table && fdCount > 0 && !table[0].broken
      requires count <= descriptorsToRemove.Length
      requires Scanned(k, table, |table|, descriptorsToRemove[..count], w0, Now())
      modifies this`fdCount, this`running, pfds
      ensures Valid() && Finished(k, table, w0, Now())
      ensures running == (Listed(k, table, |table|) == [] || fdCount != 1)
    {
      ListedSparesListener(k, table, |table|);
      RemoveListed(descriptorsToRemove, count, Listed(k, table, |table|));
    }

    /** The rest of a pass after the listener's slot: the loop over the other slots, then the removals. */
    method Finish(k: Kernel, descriptorsToRemove: array<nat>, ghost table: seq<PollFd>)
      returns (ghost how: Ending)
      requires Valid() && !ended && running && fdCount > 0 && Live() == table && !table[0].broken
      requires AllApart(table)
      requires fdCount <= descriptorsToRemove.Length + 1
      modifies this`outbox, this`closed, this`open, this`ended, this`fdCount, this`running, pfds, descriptorsToRemove
      ensures Valid()
      ensures !ended ==> Finished(k, table, old(Now()), Now())
      ensures !ended ==> running == (Listed(k, table, |table|) == [] || fdCount != 1)
      ensures ended ==> Stopped(k, table, how, old(Now()), Now()) && running
    {
      ghost var w0, w := Now(), Now();
      hide Scanned, Stopped, Table.Valid, AllApart, Listed, Finished;
      var count;
      count, how, w := Scan(k, descriptorsToRemove, table, w0);
      if !ended {
        Conclude(k, descriptorsToRemove, count, table, w0);
      }
    }

    /**
     * One pass of the main loop. The removal list has room for as many indices as there were
     * descriptors at the poll, and that is always enough. A send that fails, or the call of a NULL handler,
     * ends pass and program.
     */
    method Pass(k: Kernel) returns (ghost table: seq<PollFd>)
      requires Valid() && !ended && running && fdCount > 0 && Proper(k) && Distinct(Fds(Live()))
      modifies this, pfds
      ensures Valid() && (pfds == old(pfds) || fresh(pfds)) && peak == Max(old(peak), |table|)
      ensures !ended ==> Passed(k, old(Now()), table, Now())
      ensures !ended ==> running == (Listed(k, table, |table|) == [] || fdCount != 1)
      ensures ended ==> Broke(k, old(Now()), table, Now()) && running
    {
      var descriptorsToRemove := new nat[fdCount];
      table := Begin(k);
      if ended {
        BrokeBecause(k, old(Now()), table, Accepting, Now());
        return;
      }
      DistinctIsApart(table);
      var how := Finish(k, descriptorsToRemove, table);
      hide *;
      if !ended {
        FinishedIsPassed(k, old(Now()), table, Now());
      } else {
        BrokeBecause(k, old(Now()), table, how, Now());
      }
    }

    /**
     * What holds at the start of every pass: slot 0 is the listener, the descriptors are distinct, those of
     * clients have events, and only the listener is left exactly if the reactor has stopped or has never
     * accepted a client.
     */
    ghost predicate Steady(listener: int, base: nat)
      reads this, pfds
    {
      && Valid() && SteadyWorld(Now(), listener, base) && pfds[0].fd == listener
      && (fdCount == 1 <==> !running || |events| == base)
    }

    method Turn(k: Kernel, ghost listener: int, ghost base: nat) returns (ghost table: seq<PollFd>)
      requires Steady(listener, base) && !ended && running && Proper(k)
      modifies this, pfds
      ensures Steady(listener, base) && Valid() && (pfds == old(pfds) || fresh(pfds))
      ensures peak == Max(old(peak), |table|)
      ensures !ended ==> (!running <==> fdCount == 1 && fdCount < |table|)
      ensures (ended ==> running) && (running || |table| > 1)
      ensures fdCount <= pfds.Length && Now() == World(pfds[..fdCount], open, outbox, closed, events, running)
      ensures !ended ==> Passed(k, old(Now()), table, Now())
      ensures ended ==> Broke(k, old(Now()), table, Now())
    {
      ghost var before := Now();
      table := Pass(k);
      if ended {
        BrokeKeepsSteady(k, before, table, Now(), listener, base);
      } else {
        PassedKeepsSteady(k, before, table, Now(), listener, base);
      }
      assert Now().live[0] == pfds[0];
    }

    /** The main loop, for as many passes as `kernels` describes, until the stop rule applies or the program ends. */
    method MainLoop(kernels: seq<Kernel>, ghost listener: int, ghost base: nat) returns (ghost tables: seq<seq<PollFd>>)
      requires Steady(listener, base) && running && !ended && forall p :: 0 <= p < |kernels| ==> Proper(kernels[p])
      modifies this, pfds
      ensures Steady(listener, base) && Valid() && |tables| <= |kernels| && peak == PeakOf(old(peak), tables)
      ensures running && !ended ==> |tables| == |kernels|
      ensures MayStop(running, tables)
      ensures if ended then RanInto(kernels, old(Now()), tables, Now())
              else Passes(kernels, old(Now()), tables, Now())
    {
      ghost var start := Now();
      hide *;
      NoPasses(kernels, start, peak);
      tables := [];
      var p := 0;
      while running && !ended && p < |kernels|
        invariant 0 <= p <= |kernels| && |tables| == p && (pfds == old(pfds) || fresh(pfds))
        invariant Steady(listener, base) && Valid() && peak == PeakOf(old(peak), tables)
        invariant MayStop(running, tables)
        invariant if ended then RanInto(kernels, start, tables, Now()) else Passes(kernels, start, tables, Now())
        decreases |kernels| - p
      {
        ghost var before := Now();
        var table := Turn(kernels[p], listener, base);
        PeakStep(old(peak), tables, table);
        MayStopAfter(running, tables, table);
        if ended {
          RanIntoStep(kernels, start, tables, before, table, Now());
        } else {
          PassesStep(kernels, start, tables, before, table, Now());
        }
        tables := tables + [table];
        p := p + 1;
      }
    }

    /**
     * `startReactor`. Every pass starts from a steady table and from what the pass before it left, and
     * the loop ends by the stop rule only with the listener alone. `tables` are the tables the passes
     * worked on. If the array grew, it is less than twice as large as one of them.
     */
    method StartReactor(kernels: seq<Kernel>) returns (ghost tables: seq<seq<PollFd>>)
      requires Valid() && !ended && forall p :: 0 <= p < |kernels| ==> Proper(kernels[p])
      modifies this, pfds
      ensures |tables| <= |kernels|
      ensures old(running) ==> unchanged(this) && tables == []
      ensures !old(running) ==> Steady(old(pfds[0].fd), old(|events|)) && Valid()
      ensures !old(running) ==>
                var start := World([old(pfds[0])], old(open), old(outbox), old(closed), old(events), true);
                if ended then RanInto(kernels, start, tables, Now()) else Passes(kernels, start, tables, Now())
      ensures !old(running) && running && !ended ==> |tables| == |kernels|
      ensures !old(running) && !running ==>
                fdCount == 1 && pfds[0].fd == old(pfds[0].fd) && tables != [] && |tables[|tables| - 1]| > 1
      ensures !old(running) ==> peak == PeakOf(Max(old(peak), 1), tables)
      ensures growths > old(growths) ==> exists p :: 0 <= p < |tables| && fdSize < 2 * |tables[p]|
    {
      tables := [];
      if running {
        return;
      }
      hide *;
      Bounds();
      Restart();
      ghost var base := peak;
      tables := MainLoop(kernels, pfds[0].fd, |events|);
      Bounds();
      GrowthHasReason(base, tables, old(growths), growths, fdSize);
      if !running { Alone(old(pfds[0].fd), old(|events|), tables); }
    }

    /** The reactor is set running with the listener alone. */
    method Restart()
      requires Valid() && !running
      modifies this`running, this`fdCount, this`peak
      ensures running && Valid() && Steady(old(pfds[0].fd), |events|) && peak == Max(old(peak), 1)
      ensures pfds[0].fd == old(pfds[0].fd)
      ensures Now() == World([old(pfds[0])], open, outbox, closed, events, true)
      ensures peak <= 5 * PowerOfTwo(growths)
    {
      running := true;
      fdCount := 1;
      if peak < 1 { peak := 1; }
      assert Live() == [pfds[0]];
    }

    lemma Bounds()
      requires Valid()
      ensures pfds.Length >= 5
      ensures fdSize == 5 * PowerOfTwo(growths) && (growths > 0 ==> fdSize < 2 * peak)
    {
    }

    /** A reactor that has stopped holds the listener alone. */
    lemma Alone(listener: int, base: nat, tables: seq<seq<PollFd>>)
      requires Steady(listener, base) && MayStop(running, tables) && !running
      ensures fdCount == 1 && pfds[0].fd == listener && tables != [] && |tables[|tables| - 1]| > 1
    {
    }

  }

  /** The world after the listener's turn, when the pass works on `table`. */
  function Begun(k: Kernel, w: World, table: seq<PollFd>): World {
    World(table, Opened(k, w.live, w.open), w.outbox, w.closed,
          if Accepts(k, w.live, w.open) then w.events + [k.accept(InUse(w.live, w.open))] else w.events, w.running)
  }

  /** The world when the handler of the accepted descriptor has been called. */
  function Refused(k: Kernel, w: World): World {
    w.(live := Polled(k, w.live), open := Opened(k, w.live, w.open))
  }

  /** All slots have had their turn, and the listed ones are removed. */
  ghost predicate Finished(k: Kernel, table: seq<PollFd>, w: World, w': World) {
    && |Listed(k, table, |table|)| < |table| && w'.live == RemoveAll(table, Listed(k, table, |table|))
    && w'.outbox == w.outbox + Sends(k, table, |table|) && w'.closed == w.closed + ClosedFds(k, table, |table|)
    && w'.open == OpenAt(k, table, w.open, |table|) && w'.events == w.events
    && w'.running == (w.running && (Listed(k, table, |table|) != [] ==> |w'.live| != 1))
    && !Exits(k, table, w.open, w.events)
  }

  /** One pass took `w` to `w'`, working on `table`. */
  ghost predicate Passed(k: Kernel, w: World, table: seq<PollFd>, w': World) {
    && w.running && |w.live| > 0 && !AcceptEnds(k, w) && Extends(k, w.live, w.open, table) && Distinct(Fds(table))
    && Finished(k, table, Begun(k, w, table), w')
  }

  /** A pass that started from `w` and worked on `table` ended the program in the way `how`, in `w'`. */
  ghost predicate BrokeBy(k: Kernel, w: World, table: seq<PollFd>, how: Ending, w': World) {
    && w.running && |w.live| > 0 && Distinct(Fds(table))
    && if how.Accepting? then AcceptEnds(k, w) && w' == Refused(k, w) && table == w'.live
       else !AcceptEnds(k, w) && Extends(k, w.live, w.open, table) && Stopped(k, table, how, Begun(k, w, table), w')
  }

  ghost predicate Broke(k: Kernel, w: World, table: seq<PollFd>, w': World) {
    exists how :: BrokeBy(k, w, table, how, w')
  }

  lemma FinishedIsPassed(k: Kernel, w: World, table: seq<PollFd>, w': World)
    requires w.running && |w.live| > 0 && !AcceptEnds(k, w) && Extends(k, w.live, w.open, table)
    requires Distinct(Fds(table)) && Finished(k, table, Begun(k, w, table), w')
    ensures Passed(k, w, table, w')
  {
  }

  lemma BrokeBecause(k: Kernel, w: World, table: seq<PollFd>, how: Ending, w': World)
    requires w.running && |w.live| > 0 && Distinct(Fds(table))
    requires if AcceptEnds(k, w) then how.Accepting? && w' == Refused(k, w) && table == w'.live
             else Extends(k, w.live, w.open, table) && Stopped(k, table, how, Begun(k, w, table), w')
    ensures Broke(k, w, table, w')
  {
    assert BrokeBy(k, w, table, how, w');
  }

  /** A run of passes, each of which starts from what the one before it left. */
  ghost predicate Passes(kernels: seq<Kernel>, start: World, tables: seq<seq<PollFd>>, end: World)
    requires |tables| <= |kernels|
    decreases |tables|
  {
    if tables == [] then end == start
    else var p := |tables| - 1;
         exists mid :: Passed(kernels[p], mid, tables[p], end) && Passes(kernels, start, tables[..p], mid)
  }

  /** A run of passes of which the last one ended the program. */
  ghost predicate RanInto(kernels: seq<Kernel>, start: World, tables: seq<seq<PollFd>>, end: World)
    requires |tables| <= |kernels|
  {
    tables != [] &&
    var p := |tables| - 1;
    exists mid :: Broke(kernels[p], mid, tables[p], end) && Passes(kernels, start, tables[..p], mid)
  }

  /** Nothing was removed in a pass over a table of one entry, so that the reactor cannot stop after it. */
  predicate MayStop(running: bool, tables: seq<seq<PollFd>>) {
    running || (tables != [] && |tables[|tables| - 1]| > 1)
  }

  lemma MayStopAfter(running: bool, tables: seq<seq<PollFd>>, table: seq<PollFd>)
    requires running || |table| > 1
    ensures MayStop(running, tables + [table])
  {
  }

  lemma NoPasses(kernels: seq<Kernel>, start: World, peak: nat)
    ensures Passes(kernels, start, [], start) && PeakOf(peak, []) == peak && MayStop(true, [])
  {
  }

  lemma PassesStep(kernels: seq<Kernel>, start: World, tables: seq<seq<PollFd>>, mid: World,
                   table: seq<PollFd>, end: World)
    requires |tables| < |kernels| && Passes(kernels, start, tables, mid) && Passed(kernels[|tables|], mid, table, end)
    ensures Passes(kernels, start, tables + [table], end)
  {
    assert (tables + [table])[..|tables|] == tables;
  }

  lemma RanIntoStep(kernels: seq<Kernel>, start: World, tables: seq<seq<PollFd>>, mid: World,
                    table: seq<PollFd>, end: World)
    requires |tables| < |kernels| && Passes(kernels, start, tables, mid) && Broke(kernels[|tables|], mid, table, end)
    ensures RanInto(kernels, start, tables + [table], end)
  {
    assert (tables + [table])[..|tables|] == tables;
  }

  // ----- Growth -----

  /** The greatest of `base` and the sizes of the tables. */
  function PeakOf(base: nat, tables: seq<seq<PollFd>>): nat
    decreases |tables|
  {
    if tables == [] then base else Max(PeakOf(base, tables[..|tables| - 1]), |tables[|tables| - 1]|)
  }

  lemma PeakStep(base: nat, tables: seq<seq<PollFd>>, table: seq<PollFd>)
    ensures PeakOf(base, tables + [table]) == Max(PeakOf(base, tables), |table|)
  {
    assert (tables + [table])[..|tables|] == tables;
  }

  lemma {:induction false} PeakIsOne(base: nat, tables: seq<seq<PollFd>>)
    ensures PeakOf(base, tables) == base || exists p :: 0 <= p < |tables| && PeakOf(base, tables) == |tables[p]|
    decreases |tables|
  {
    if tables != [] {
      var init := tables[..|tables| - 1];
      PeakIsOne(base, init);
      if p :| 0 <= p < |init| && PeakOf(base, init) == |init[p]| {
        assert tables[p] == init[p];
      }
    }
  }

  /** If the array has grown, some table filled more than half of it. */
  lemma GrowthHasReason(base: nat, tables: seq<seq<PollFd>>, before: nat, after: nat, size: nat)
    requires base <= 5 * PowerOfTwo(before) && size == 5 * PowerOfTwo(after)
    requires after > 0 ==> size < 2 * PeakOf(base, tables)
    ensures after > before ==> exists p :: 0 <= p < |tables| && size < 2 * |tables[p]|
  {
    if after > before {
      PowerGrows(before, after);
      PeakIsOne(base, tables);
    }
  }

  lemma {:induction false} PowerGrows(m: nat, n: nat)
    requires m < n
    ensures PowerOfTwo(n) >= 2 * PowerOfTwo(m)
  {
    if m + 1 < n { PowerGrows(m, n - 1); }
  }

  // ----- What holds at the start of every pass -----

  /** Every client in the table has an event. */
  predicate Registered(t: seq<PollFd>, events: seq<int>) {
    forall i :: 0 < i < |t| ==> t[i].fd in events
  }

  ghost predicate SteadyWorld(w: World, listener: int, base: nat) {
    && |w.live| >= 1 && Distinct(Fds(w.live)) && w.live[0].fd == listener
    && Registered(w.live, w.events) && base <= |w.events|
  }

  lemma BegunRegistered(k: Kernel, w: World, table: seq<PollFd>)
    requires |w.live| > 0 && Extends(k, w.live, w.open, table) && Registered(w.live, w.events)
    ensures Registered(table, Begun(k, w, table).events)
  {
    var events := Begun(k, w, table).events;
    forall i | 0 < i < |table|
      ensures table[i].fd in events
    {
      if i < |w.live| {
        assert table[i] == table[..|w.live|][i] && w.live[i].fd in w.events;
      } else {
        assert events[|w.events|] == table[i].fd;
      }
    }
  }

  lemma PassedKeepsSteady(k: Kernel, w: World, table: seq<PollFd>, w': World, listener: int, base: nat)
    requires Proper(k) && SteadyWorld(w, listener, base) && (|w.live| == 1 <==> |w.events| == base)
    requires Passed(k, w, table, w')
    ensures SteadyWorld(w', listener, base)
    ensures Listed(k, table, |table|) == [] ==> (|w'.live| == 1 <==> |w'.events| == base)
    ensures Listed(k, table, |table|) != [] ==> |w'.events| != base
  {
    ExtendsDistinct(k, w.live, w.open, table);
    BegunRegistered(k, w, table);
    ListedSparesListener(k, table, |table|);
    AfterPass(k, table, w'.events);
  }

  lemma BrokeKeepsSteady(k: Kernel, w: World, table: seq<PollFd>, w': World, listener: int, base: nat)
    requires Proper(k) && SteadyWorld(w, listener, base) && (|w.live| == 1 <==> |w.events| == base)
    requires Broke(k, w, table, w')
    ensures SteadyWorld(w', listener, base) && (|w'.live| == 1 <==> |w'.events| == base)
  {
    var how :| BrokeBy(k, w, table, how, w');
    if how.Accepting? {
      assert Fds(w'.live) == Fds(w.live);
    } else {
      assert w'.live == table && w'.events == Begun(k, w, table).events;
      hide Stopped;
      ExtendsDistinct(k, w.live, w.open, table);
      BegunRegistered(k, w, table);
    }
  }

  /** What a pass leaves is again a table of distinct descriptors with the listener first and registered clients. */
  lemma AfterPass(k: Kernel, table: seq<PollFd>, events: seq<int>)
    requires |table| > 0 && Distinct(Fds(table)) && !table[0].broken && Registered(table, events)
    ensures var list := Listed(k, table, |table|);
            && |list| < |table| && Distinct(Fds(RemoveAll(table, list))) && RemoveAll(table, list)[0] == table[0]
            && Registered(RemoveAll(table, list), events)
  {
    var list := Listed(k, table, |table|);
    ListedSparesListener(k, table, |table|);
    RemoveKeepsFirst(table, list);
    FdsDistinct(table);
    RemoveKeepsDistinct(table, list);
    RemoveFds(table, list);
    RemoveKeepsDistinct(Fds(table), list);
    var left := RemoveAll(table, list);
    forall i | 0 < i < |left|
      ensures left[i].fd in events
    {
      var j := RemoveKeepsOnly(table, list, i);
      assert left[i] != left[0];
    }
  }

  lemma FdsDistinct(t: seq<PollFd>)
    requires Distinct(Fds(t))
    ensures Distinct(t)
  {
    forall i, j | 0 <= i < j < |t|
      ensures t[i] != t[j]
    {
      assert Fds(t)[i] != Fds(t)[j];
    }
  }

  lemma {:induction false} RemoveFds(t: seq<PollFd>, list: seq<nat>)
    requires |list| <= |t|
    ensures Fds(RemoveAll(t, list)) == RemoveAll(Fds(t), list)
    decreases |list|
  {
    if list != [] {
      RemoveFds(t, list[..|list| - 1]);
    }
  }

}
