/**
 * The outcome of a pass in terms of nothing but what the kernel reports and the table before the pass:
 * what the table takes over, who is sent what, which entries stay, and what ends the program.
 */
module ReactorFacts {
  import opened Reactor
  import opened ReactorResults
  import opened ReactorTable

  /** What is asked of the kernel in a pass. */
  lemma ProperExactly(k: Kernel)
    ensures Proper(k) <==>
            !k.poll(0).broken && forall used :: k.accept(used) == -1 || k.accept(used) !in used
  {
  }

  lemma DistinctExactly(t: seq<PollFd>)
    ensures Distinct(Fds(t)) <==> forall i, j :: 0 <= i < j < |t| ==> t[i].fd != t[j].fd
  {
    var fds := Fds(t);
    if forall i, j :: 0 <= i < j < |t| ==> t[i].fd != t[j].fd {
      assert forall i, j :: 0 <= i < j < |fds| ==> fds[i] != fds[j];
    }
    if Distinct(fds) {
      forall i, j | 0 <= i < j < |t|
        ensures t[i].fd != t[j].fd
      {
        assert fds[i] != fds[j];
      }
    }
  }

  // ----- What the table takes over -----

  /**
   * The table of a pass has the entries of before with what `poll` reports on their slots, and one more
   * exactly if the listener is readable and `accept` returns a descriptor: that one, which gets an event.
   */
  lemma PassTakesOver(k: Kernel, w: World, table: seq<PollFd>, w': World)
    requires Passed(k, w, table, w')
    ensures var used := (set i | 0 <= i < |w.live| :: w.live[i].fd) + w.open;
            var newfd := k.accept(used);
            && |table| >= |w.live|
            && (forall i: nat :: i < |w.live| ==>
                  table[i] == PollFd(w.live[i].fd, k.poll(i).readable, k.poll(i).broken))
            && (if k.poll(0).readable && newfd != -1
                then |table| == |w.live| + 1 && table[|w.live|].fd == newfd && w'.events == w.events + [newfd]
                else |table| == |w.live| && w'.events == w.events)
  {
    var t := w.live;
    InUseIs(t, w.open);
    forall i: nat | i < |t|
      ensures table[i] == PollFd(t[i].fd, k.poll(i).readable, k.poll(i).broken)
    {
      assert table[..|t|][i] == table[i];
    }
  }

  lemma InUseIs(t: seq<PollFd>, open: set<int>)
    ensures InUse(t, open) == (set i | 0 <= i < |t| :: t[i].fd) + open
  {
    var fds, same := set x | x in Fds(t), set i | 0 <= i < |t| :: t[i].fd;
    forall x | x in fds
      ensures x in same
    {
      var i :| 0 <= i < |t| && Fds(t)[i] == x;
    }
    forall x | x in same
      ensures x in fds
    {
      var i :| 0 <= i < |t| && t[i].fd == x;
      assert Fds(t)[i] == x;
    }
  }

  // ----- Who is sent what -----

  /** How often the message `d` is in what slot `i` sends to the first `count` slots. */
  lemma {:induction false} BroadcastCount(k: Kernel, t: seq<PollFd>, i: nat, count: nat, from: nat, to: nat,
                                          msg: string)
    requires Distinct(Fds(t)) && i < |t| && count <= |t| && k.recv(i).Data? && from < |t| && to < |t|
    ensures multiset(Broadcast(k, t, i, count))[Delivery(t[to].fd, t[from].fd, msg)] ==
            if i == from && 0 < to < count && to != i && k.send(i, to).Sent? && k.recv(i).msg == msg then 1 else 0
  {
    hide Distinct, Fds, Broadcast, OneSend;
    BroadcastGrows(k, t, i, count);
    if count > 0 {
      var j := count - 1;
      BroadcastCount(k, t, i, j, from, to, msg);
      OneSendCount(k, t, i, j, from, to, msg);
    }
  }

  lemma BroadcastGrows(k: Kernel, t: seq<PollFd>, i: nat, count: nat)
    requires i < |t| && count <= |t| && k.recv(i).Data?
    ensures count == 0 ==> Broadcast(k, t, i, count) == []
    ensures count > 0 ==> multiset(Broadcast(k, t, i, count)) ==
                            multiset(Broadcast(k, t, i, count - 1)) + multiset(OneSend(k, t, i, count - 1))
  {
    if count > 0 {
      assert Broadcast(k, t, i, count) == Broadcast(k, t, i, count - 1) + OneSend(k, t, i, count - 1);
    }
  }

  /** What slot `i` sends to slot `j`. */
  function OneSend(k: Kernel, t: seq<PollFd>, i: nat, j: nat): seq<Delivery>
    requires i < |t| && j < |t| && k.recv(i).Data?
  {
    if Addressed(t, i, j) && k.send(i, j).Sent? then [Delivery(t[j].fd, t[i].fd, k.recv(i).msg)] else []
  }

  lemma OneSendCount(k: Kernel, t: seq<PollFd>, i: nat, j: nat, from: nat, to: nat, msg: string)
    requires Distinct(Fds(t)) && i < |t| && j < |t| && k.recv(i).Data? && from < |t| && to < |t|
    ensures multiset(OneSend(k, t, i, j))[Delivery(t[to].fd, t[from].fd, msg)] ==
            if i == from && j == to && j > 0 && j != i && k.send(i, j).Sent? && k.recv(i).msg == msg then 1 else 0
  {
    SameSlot(t, j, 0);
    SameSlot(t, j, i);
    SameSlot(t, j, to);
    SameSlot(t, i, from);
    hide Distinct, Fds;
  }

  lemma {:induction false} SendsCount(k: Kernel, t: seq<PollFd>, count: nat, from: nat, to: nat, msg: string)
    requires Distinct(Fds(t)) && count <= |t| && from < |t| && to < |t|
    ensures multiset(Sends(k, t, count))[Delivery(t[to].fd, t[from].fd, msg)] ==
            if 0 < from < count && 0 < to && to != from && t[from].readable && k.recv(from) == Data(msg)
               && k.send(from, to).Sent? then 1 else 0
  {
    hide SendsOf, Fds, Distinct;
    if count > 0 {
      SendsCount(k, t, count - 1, from, to, msg);
      SendsOfCount(k, t, count - 1, from, to, msg);
    }
  }

  lemma SendsOfCount(k: Kernel, t: seq<PollFd>, i: nat, from: nat, to: nat, msg: string)
    requires Distinct(Fds(t)) && i < |t| && from < |t| && to < |t|
    ensures multiset(SendsOf(k, t, i))[Delivery(t[to].fd, t[from].fd, msg)] ==
            if 0 < from == i && 0 < to && to != from && t[from].readable && k.recv(from) == Data(msg)
               && k.send(from, to).Sent? then 1 else 0
  {
    if Spoke(k, t, i) {
      BroadcastCount(k, t, i, |t|, from, to, msg);
    }
  }

  /** Every message sent goes from one client's slot to another's. */
  lemma {:induction false} BroadcastPairs(k: Kernel, t: seq<PollFd>, i: nat, count: nat, d: Delivery)
    requires i < |t| && count <= |t| && k.recv(i).Data? && d in Broadcast(k, t, i, count)
    ensures d.source == t[i].fd && exists to :: 0 <= to < count && t[to].fd == d.dest
  {
    var j := count - 1;
    if d in Broadcast(k, t, i, j) {
      BroadcastPairs(k, t, i, j, d);
    } else {
      assert t[j].fd == d.dest;
    }
  }

  lemma {:induction false} SendsPairs(k: Kernel, t: seq<PollFd>, count: nat, d: Delivery)
    requires count <= |t| && d in Sends(k, t, count)
    ensures exists from, to :: 0 <= from < count && 0 <= to < |t| && t[from].fd == d.source && t[to].fd == d.dest
  {
    if d in Sends(k, t, count - 1) {
      SendsPairs(k, t, count - 1, d);
    } else {
      BroadcastPairs(k, t, count - 1, |t|, d);
      assert t[count - 1].fd == d.source;
    }
  }

  /**
   * After a pass that does not end the program exactly one message has gone out from client `from` to client
   * `to` if `from` was readable, its data was read and the send worked; none otherwise.
   */
  lemma PassForwards(k: Kernel, w: World, table: seq<PollFd>, w': World, from: nat, to: nat, msg: string)
    requires !k.poll(0).broken && forall used :: k.accept(used) == -1 || k.accept(used) !in used
    requires forall i, j :: 0 <= i < j < |w.live| ==> w.live[i].fd != w.live[j].fd
    requires Passed(k, w, table, w') && 0 < from < |table| && 0 < to < |table| && from != to
    ensures w.outbox <= w'.outbox
    ensures var readable := if from < |w.live| then k.poll(from).readable else table[from].readable;
            var source := if from < |w.live| then w.live[from].fd else table[from].fd;
            var dest := if to < |w.live| then w.live[to].fd else table[to].fd;
            multiset(w'.outbox[|w.outbox|..])[Delivery(dest, source, msg)] ==
            if readable && k.recv(from) == Data(msg) && k.send(from, to).Sent? then 1 else 0
  {
    ProperExactly(k);
    DistinctExactly(w.live);
    PassTakesOver(k, w, table, w');
    hide Proper, Fds;
    assert w'.outbox[|w.outbox|..] == Sends(k, table, |table|);
    SendsCount(k, table, |table|, from, to, msg);
  }

  /** No other message goes out: each one goes from a client in the table to another. */
  lemma PassForwardsOnly(k: Kernel, w: World, table: seq<PollFd>, w': World, p: nat)
    requires Proper(k) && Distinct(Fds(w.live)) && Passed(k, w, table, w') && |w.outbox| <= p < |w'.outbox|
    ensures exists from, to :: 0 < from < |table| && 0 < to < |table| && from != to
              && w'.outbox[p].source == table[from].fd && w'.outbox[p].dest == table[to].fd
  {
    var sent, d := w'.outbox[|w.outbox|..], w'.outbox[p];
    assert sent == Sends(k, table, |table|) && sent[p - |w.outbox|] == d;
    SendsPairs(k, table, |table|, d);
    var from, to :| 0 <= from < |table| && 0 <= to < |table| && table[from].fd == d.source && table[to].fd == d.dest;
    SendsCount(k, table, |table|, from, to, d.msg);
    assert multiset(sent)[d] > 0;
  }

  /** The messages go out slot by slot, and those of a slot in the order of the slots they go to. */
  lemma {:induction false} BroadcastOrder(k: Kernel, t: seq<PollFd>, i: nat, count: nat, p: nat, q: nat, a: nat, b: nat)
    requires Distinct(Fds(t)) && i < |t| && count <= |t| && k.recv(i).Data? && a < |t| && b < |t|
    requires p < q < |Broadcast(k, t, i, count)|
    requires Broadcast(k, t, i, count)[p].dest == t[a].fd && Broadcast(k, t, i, count)[q].dest == t[b].fd
    ensures a < b
  {
    var j, init := count - 1, Broadcast(k, t, i, count - 1);
    if q < |init| {
      BroadcastOrder(k, t, i, j, p, q, a, b);
    } else {
      SameSlot(t, b, j);
      BroadcastPairs(k, t, i, j, init[p]);
      var to :| 0 <= to < j && t[to].fd == init[p].dest;
      SameSlot(t, to, a);
    }
  }

  lemma {:induction false} SendsOrder(k: Kernel, t: seq<PollFd>, count: nat, p: nat, q: nat, a: nat, b: nat,
                                      c: nat, d: nat)
    requires Distinct(Fds(t)) && count <= |t| && a < |t| && b < |t| && c < |t| && d < |t|
    requires p < q < |Sends(k, t, count)|
    requires Sends(k, t, count)[p].source == t[a].fd && Sends(k, t, count)[p].dest == t[b].fd
    requires Sends(k, t, count)[q].source == t[c].fd && Sends(k, t, count)[q].dest == t[d].fd
    ensures a < c || (a == c && b < d)
  {
    var i, init := count - 1, Sends(k, t, count - 1);
    var all := Sends(k, t, count);
    assert all == init + SendsOf(k, t, i);
    if q < |init| {
      SendsOrder(k, t, i, p, q, a, b, c, d);
    } else {
      BroadcastPairs(k, t, i, |t|, all[q]);
      SameSlot(t, c, i);
      if p < |init| {
        SendsPairs(k, t, i, all[p]);
        var from :| 0 <= from < i && t[from].fd == all[p].source;
        SameSlot(t, from, a);
      } else {
        BroadcastPairs(k, t, i, |t|, all[p]);
        SameSlot(t, a, i);
        BroadcastOrder(k, t, i, |t|, p - |init|, q - |init|, b, d);
      }
    }
  }

  lemma PassForwardsInOrder(k: Kernel, w: World, table: seq<PollFd>, w': World, p: nat, q: nat, a: nat, b: nat,
                            c: nat, d: nat)
    requires Distinct(Fds(table)) && Passed(k, w, table, w') && |w.outbox| <= p < q < |w'.outbox|
    requires a < |table| && b < |table| && c < |table| && d < |table|
    requires w'.outbox[p].source == table[a].fd && w'.outbox[p].dest == table[b].fd
    requires w'.outbox[q].source == table[c].fd && w'.outbox[q].dest == table[d].fd
    ensures a < c || (a == c && b < d)
  {
    var n := |w.outbox|;
    assert w'.outbox[n..] == Sends(k, table, |table|);
    assert w'.outbox[n..][p - n] == w'.outbox[p] && w'.outbox[n..][q - n] == w'.outbox[q];
    SendsOrder(k, table, |table|, p - n, q - n, a, b, c, d);
  }

  /** A message of client `from` to client `to` goes out before the program ends in the way `how`. */
  predicate BeforeEnd(how: Ending, from: nat, to: nat) {
    match how
    case Accepting => false
    case Sending(i, j) => from < i || (from == i && to < j)
    case Closing(i) => from <= i
  }

  /** In a pass that ends the program exactly those messages have gone out that come before its end. */
  lemma BrokenPassForwards(k: Kernel, w: World, table: seq<PollFd>, how: Ending, w': World, from: nat, to: nat,
                           msg: string)
    requires BrokeBy(k, w, table, how, w')
    requires 0 < from < |table| && 0 < to < |table| && from != to
    ensures w.outbox <= w'.outbox
    ensures multiset(w'.outbox[|w.outbox|..])[Delivery(table[to].fd, table[from].fd, msg)] ==
            if BeforeEnd(how, from, to) && table[from].readable && k.recv(from) == Data(msg) && k.send(from, to).Sent?
            then 1 else 0
  {
    hide Sends, Broadcast, Distinct, Fds, NoFaults, NoFailure, Fails, CallsHandler, ClosedFds, OpenAt, Extends;
    match how {
      case Accepting =>
        assert w'.outbox[|w.outbox|..] == [];
      case Sending(i, j) =>
        AppendInOrder(w.outbox, Sends(k, table, i), Broadcast(k, table, i, j));
        assert w'.outbox[|w.outbox|..] == Sends(k, table, i) + Broadcast(k, table, i, j);
        SendsCount(k, table, i, from, to, msg);
        BroadcastCount(k, table, i, j, from, to, msg);
      case Closing(i) =>
        assert w'.outbox[|w.outbox|..] == Sends(k, table, i + 1);
        SendsCount(k, table, i + 1, from, to, msg);
    }
  }

  // ----- Which entries stay -----

  /**
   * A pass that does not end the program removes, in ascending order, the clients whose data could not be
   * read or that hung up. Slot `list[j]` ends up with the entry of the `j`-th slot from the end.
   */
  lemma PassLeaves(k: Kernel, w: World, table: seq<PollFd>, w': World) returns (list: seq<nat>)
    requires Sound(w) && Proper(k) && Passed(k, w, table, w')
    ensures forall i, j :: 0 <= i < j < |list| ==> list[i] < list[j]
    ensures forall i: nat :: i in list <==> 0 < i < |table| && table[i].readable && !k.recv(i).Data?
    ensures |w'.live| == |table| - |list| && w'.running == (list == [] || |w'.live| != 1)
    ensures forall s :: 0 <= s < |w'.live| && s !in list ==> w'.live[s] == table[s]
    ensures forall j :: 0 <= j < |list| && list[j] < |w'.live| ==> w'.live[list[j]] == table[|table| - 1 - j]
    ensures w'.closed == w.closed
  {
    hide Sound, Passed, Finished, Begun, Extends, Proper, Fds, RemoveAll, Listed, ExactlyKept;
    list := Listed(k, table, |table|);
    PassKeepsSound(k, w, table, w');
    PassRemoves(k, w, table, w');
    ListOfPass(k, w, table, w');
    FinalSlots(table, list);
  }

  lemma ListOfPass(k: Kernel, w: World, table: seq<PollFd>, w': World)
    requires Sound(w) && Proper(k) && Passed(k, w, table, w')
    ensures var list := Listed(k, table, |table|);
            && Increasing(list) && |list| < |table| && (forall i :: i in list ==> i < |table|)
            && w'.live == RemoveAll(table, list) && |w'.live| == |table| - |list|
            && w'.running == (list == [] || |w'.live| != 1)
  {
    hide Registered, AllOpen, Exits, Sends, ClosedFds, OpenAt;
    SoundBegins(k, w, table);
    ListedSparesListener(k, table, |table|);
    ListedBelow(k, table, |table|);
  }

  // ----- What ends the program -----

  /**
   * The pass that follows a run ends the program if and only if `poll` reports an error on a client that has
   * not just failed to read, or a client's data was read and the send to another client fails by itself.
   */
  lemma EndsExactly(kernels: seq<Kernel>, start: World, tables: seq<seq<PollFd>>, w: World, k: Kernel,
                    table: seq<PollFd>, w': World)
    requires |tables| <= |kernels| && Passes(kernels, start, tables, w) && Sound(start)
    requires Proper(k) && forall p :: 0 <= p < |kernels| ==> Proper(kernels[p])
    requires Passed(k, w, table, w') || Broke(k, w, table, w')
    ensures Broke(k, w, table, w') <==>
            || (exists i :: 0 < i < |table| && table[i].broken && (table[i].readable ==> k.recv(i).Data?))
            || (exists i, c :: 0 < i < |table| && 0 < c < |table| && c != i &&
                  table[i].readable && k.recv(i).Data? && k.send(i, c).Error?)
  {
    RunEndsExactly(kernels, start, tables, w, k, table, w');
    RunKeepsOpen(kernels, start, tables, w);
    SoundAccepts(k, w);
    BrokeMeansExits(k, w, table, w');
    SoundBegins(k, w, table);
    EndsAre(k, table);
  }

  lemma EndsAre(k: Kernel, t: seq<PollFd>)
    requires |t| > 0 && !t[0].broken
    ensures (exists i :: ClosesSlot(k, t, i)) <==>
            (exists i :: 0 < i < |t| && t[i].broken && (t[i].readable ==> k.recv(i).Data?))
    ensures (exists i, c :: SendError(k, t, i, c)) <==>
            (exists i, c :: 0 < i < |t| && 0 < c < |t| && c != i &&
               t[i].readable && k.recv(i).Data? && k.send(i, c).Error?)
  {
    if i: nat :| ClosesSlot(k, t, i) { assert 0 < i < |t| && t[i].broken; }
    if i :| 0 < i < |t| && t[i].broken && (t[i].readable ==> k.recv(i).Data?) { assert ClosesSlot(k, t, i); }
    if i: nat, c: nat :| SendError(k, t, i, c) { assert t[i].readable && k.send(i, c).Error?; }
    if i, c :| 0 < i < |t| && 0 < c < |t| && c != i && t[i].readable && k.recv(i).Data? && k.send(i, c).Error? {
      assert SendError(k, t, i, c);
    }
  }

  // ----- Runs -----

  lemma LinkIn(kernels: seq<Kernel>, tables: seq<seq<PollFd>>, worlds: seq<World>, end: World)
    requires 0 < |tables| <= |kernels| && |worlds| == |tables|
    requires Passed(kernels[|tables| - 1], worlds[|tables| - 1], tables[|tables| - 1], end)
    requires forall p :: 0 <= p < |tables| - 1 ==>
               Passed(kernels[p], worlds[p], tables[..|tables| - 1][p], worlds[p + 1])
    ensures forall p :: 0 <= p < |tables| ==>
              Passed(kernels[p], (worlds + [end])[p], tables[p], (worlds + [end])[p + 1])
  {
    hide *;
    forall q | 0 <= q < |tables|
      ensures Passed(kernels[q], (worlds + [end])[q], tables[q], (worlds + [end])[q + 1])
    {
      if q < |tables| - 1 {
        assert Passed(kernels[q], worlds[q], tables[..|tables| - 1][q], worlds[q + 1]);
      }
    }
  }

  /** A run of passes is a chain of worlds, each the outcome of the pass from the one before. */
  lemma {:induction false} PassesAreLinked(kernels: seq<Kernel>, start: World, tables: seq<seq<PollFd>>, end: World)
    returns (worlds: seq<World>)
    requires |tables| <= |kernels| && Passes(kernels, start, tables, end)
    ensures |worlds| == |tables| + 1 && worlds[0] == start && worlds[|tables|] == end
    ensures forall p :: 0 <= p < |tables| ==> Passed(kernels[p], worlds[p], tables[p], worlds[p + 1])
    decreases |tables|
  {
    if tables == [] {
      worlds := [start];
    } else {
      var p := |tables| - 1;
      var mid :| Passed(kernels[p], mid, tables[p], end) && Passes(kernels, start, tables[..p], mid);
      var before := PassesAreLinked(kernels, start, tables[..p], mid);
      worlds := before + [end];
      LinkIn(kernels, tables, before, end);
    }
  }
}
