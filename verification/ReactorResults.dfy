/**
 * What passes and runs of the reactor mean: who receives which message, which entries are removed, that
 * descriptors stay open as long as the program runs, and when it ends.
 */
module ReactorResults {
  import opened Reactor
  import opened ReactorTable

  // ----- What the clients receive -----

  /** The deliveries to `dest`, in the order in which they were sent. */
  function Inbox(sends: seq<Delivery>, dest: int): seq<Delivery>
    decreases |sends|
  {
    if sends == [] then []
    else var d := sends[|sends| - 1];
         Inbox(sends[..|sends| - 1], dest) + (if d.dest == dest then [d] else [])
  }

  /** One delivery to slot `c` from each of the first `count` other slots that spoke and whose send did not block. */
  function FromOthers(k: Kernel, t: seq<PollFd>, c: nat, count: nat): seq<Delivery>
    requires c < |t| && count <= |t|
  {
    if count == 0 then []
    else FromOthers(k, t, c, count - 1) + FromSlot(k, t, c, count - 1)
  }

  lemma {:induction false} InboxAppend(a: seq<Delivery>, b: seq<Delivery>, dest: int)
    ensures Inbox(a + b, dest) == Inbox(a, dest) + Inbox(b, dest)
    decreases |b|
  {
    if b == [] {
      assert a + b == a;
    } else {
      assert (a + b)[..|a + b| - 1] == a + b[..|b| - 1];
      InboxAppend(a, b[..|b| - 1], dest);
    }
  }

  lemma InboxAppendOne(a: seq<Delivery>, d: Delivery, dest: int)
    ensures Inbox(a + [d], dest) == Inbox(a, dest) + (if d.dest == dest then [d] else [])
  {
    assert (a + [d])[..|a|] == a;
  }

  lemma {:induction false} BroadcastInbox(k: Kernel, t: seq<PollFd>, i: nat, count: nat, c: nat)
    requires i < |t| && count <= |t| && k.recv(i).Data? && c < |t| && Distinct(Fds(t))
    ensures Inbox(Broadcast(k, t, i, count), t[c].fd) ==
            if c < count && c != 0 && c != i && k.send(i, c).Sent?
            then [Delivery(t[c].fd, t[i].fd, k.recv(i).msg)] else []
  {
    if count > 0 {
      var j := count - 1;
      var init, d := Broadcast(k, t, i, j), Delivery(t[j].fd, t[i].fd, k.recv(i).msg);
      SameSlot(t, j, 0);
      SameSlot(t, j, i);
      SameSlot(t, j, c);
      assert Broadcast(k, t, i, count) == if j != 0 && j != i && k.send(i, j).Sent? then init + [d] else init;
      hide Broadcast, Inbox, Distinct, Fds;
      BroadcastInbox(k, t, i, j, c);
      InboxAppendOne(init, d, t[c].fd);
    }
  }

  lemma SameSlot(t: seq<PollFd>, i: nat, j: nat)
    requires i < |t| && j < |t| && Distinct(Fds(t))
    ensures t[i].fd == t[j].fd <==> i == j
  {
    assert Fds(t)[i] == t[i].fd && Fds(t)[j] == t[j].fd;
  }

  /** What slot `i` adds to the inbox of slot `c`. */
  lemma SendsOfInbox(k: Kernel, t: seq<PollFd>, i: nat, c: nat)
    requires i < |t| && c < |t| && Distinct(Fds(t))
    ensures Inbox(SendsOf(k, t, i), t[c].fd) == if c == 0 then [] else FromSlot(k, t, c, i)
  {
    if Spoke(k, t, i) {
      BroadcastInbox(k, t, i, |t|, c);
    }
  }

  /** What slot `i` means for the inbox of slot `c`. */
  function FromSlot(k: Kernel, t: seq<PollFd>, c: nat, i: nat): seq<Delivery>
    requires c < |t| && i < |t|
  {
    if i != c && Spoke(k, t, i) && k.send(i, c).Sent? then [Delivery(t[c].fd, t[i].fd, k.recv(i).msg)] else []
  }

  lemma {:induction false} SendsInbox(k: Kernel, t: seq<PollFd>, count: nat, c: nat)
    requires c < |t| && count <= |t| && Distinct(Fds(t))
    ensures Inbox(Sends(k, t, count), t[c].fd) == if c == 0 then [] else FromOthers(k, t, c, count)
  {
    if count > 0 {
      var i := count - 1;
      SendsInbox(k, t, i, c);
      SendsOfInbox(k, t, i, c);
      InboxAppend(Sends(k, t, i), SendsOf(k, t, i), t[c].fd);
    }
  }

  /**
   * In a pass that does not end the program each client gets, once each and in table order, exactly the
   * messages of the other clients whose data was read and whose send to it did not block; the listener
   * gets nothing. No message is addressed to a descriptor that is closed by then.
   */
  lemma PassDelivers(k: Kernel, w: World, table: seq<PollFd>, w': World, c: nat)
    requires Proper(k) && Distinct(Fds(w.live)) && Passed(k, w, table, w') && 0 < c < |table|
    ensures w'.outbox == w.outbox + Sends(k, table, |table|)
    ensures Inbox(Sends(k, table, |table|), table[c].fd) == FromOthers(k, table, c, |table|)
    ensures Inbox(Sends(k, table, |table|), w.live[0].fd) == []
    ensures forall i: nat :: i < |table| && i != c && Spoke(k, table, i) ==>
              table[c].fd in OpenAt(k, table, Opened(k, w.live, w.open), i) && !k.send(i, c).Error?
  {
    ExtendsDistinct(k, w.live, w.open, table);
    SendsInbox(k, table, |table|, c);
    SendsInbox(k, table, |table|, 0);
    var open := Opened(k, w.live, w.open);
    forall i: nat | i < |table| && i != c && Spoke(k, table, i)
      ensures table[c].fd in OpenAt(k, table, open, i) && !k.send(i, c).Error?
    {
      SameSlot(table, c, 0);
      SameSlot(table, c, i);
      assert !Faulty(k, table, open, Begun(k, w, table).events, i);
      assert !Fails(k, table, OpenAt(k, table, open, i), i, c);
    }
  }

  /** What the client in slot `c` has got when the pass ends the program in the way `how`. */
  function GotBefore(k: Kernel, t: seq<PollFd>, c: nat, how: Ending): seq<Delivery>
    requires c < |t|
  {
    match how
    case Accepting => []
    case Sending(i, j) =>
      if i < |t| then FromOthers(k, t, c, i) + (if c < j then FromSlot(k, t, c, i) else []) else []
    case Closing(i) => if i < |t| then FromOthers(k, t, c, i + 1) else []
  }

  /**
   * In a pass that ends the program a client has got what the slots before the one that ended it had for
   * it, and what that slot had for it if the send to it came before the end.
   */
  lemma BrokenPassDelivers(k: Kernel, w: World, table: seq<PollFd>, how: Ending, w': World, c: nat)
    requires BrokeBy(k, w, table, how, w') && 0 < c < |table|
    ensures |w.outbox| <= |w'.outbox| && w'.outbox[..|w.outbox|] == w.outbox
    ensures Inbox(w'.outbox[|w.outbox|..], table[c].fd) == GotBefore(k, table, c, how)
  {
    hide Sends, Broadcast, FromOthers, Fds, Distinct, Extends, ClosedFds, OpenAt;
    hide NoFaults, NoFailure, Fails, CallsHandler;
    match how {
      case Accepting =>
        assert w'.outbox[|w.outbox|..] == [];
      case Sending(i, j) =>
        AppendInOrder(w.outbox, Sends(k, table, i), Broadcast(k, table, i, j));
        assert w'.outbox[|w.outbox|..] == Sends(k, table, i) + Broadcast(k, table, i, j);
        InboxAppend(Sends(k, table, i), Broadcast(k, table, i, j), table[c].fd);
        SendsInbox(k, table, i, c);
        BroadcastInbox(k, table, i, j, c);
      case Closing(i) =>
        assert w'.outbox[|w.outbox|..] == Sends(k, table, i + 1);
        SendsInbox(k, table, i + 1, c);
    }
    hide Inbox, Polled, Opened, BrokeBy, Accepts, InUse, Spoke, Addressed;
  }

  /** What a pass owes the holder of a descriptor: nothing, unless it is a client's in the table. */
  ghost function Owed(k: Kernel, t: seq<PollFd>, fd: int): seq<Delivery> {
    if c: nat :| 0 < c < |t| && t[c].fd == fd then FromOthers(k, t, c, |t|) else []
  }

  lemma {:induction false} BroadcastStaysInside(k: Kernel, t: seq<PollFd>, i: nat, count: nat, fd: int)
    requires i < |t| && count <= |t| && k.recv(i).Data? && forall j :: 0 <= j < |t| ==> t[j].fd != fd
    ensures Inbox(Broadcast(k, t, i, count), fd) == []
  {
    if count > 0 {
      var j := count - 1;
      BroadcastStaysInside(k, t, i, j, fd);
      var init, d := Broadcast(k, t, i, j), Delivery(t[j].fd, t[i].fd, k.recv(i).msg);
      InboxAppendOne(init, d, fd);
      assert t[j].fd != fd;
      assert Broadcast(k, t, i, count) == init + [d] || Broadcast(k, t, i, count) == init;
    }
  }

  lemma {:induction false} SendsStayInside(k: Kernel, t: seq<PollFd>, count: nat, fd: int)
    requires count <= |t| && forall j :: 0 <= j < |t| ==> t[j].fd != fd
    ensures Inbox(Sends(k, t, count), fd) == []
  {
    if count > 0 {
      SendsStayInside(k, t, count - 1, fd);
      if Spoke(k, t, count - 1) { BroadcastStaysInside(k, t, count - 1, |t|, fd); }
      InboxAppend(Sends(k, t, count - 1), SendsOf(k, t, count - 1), fd);
    }
  }

  lemma PassOwes(k: Kernel, t: seq<PollFd>, fd: int)
    requires |t| > 0 && Distinct(Fds(t))
    ensures Inbox(Sends(k, t, |t|), fd) == Owed(k, t, fd)
  {
    if c: nat :| 0 < c < |t| && t[c].fd == fd {
      forall d: nat | 0 < d < |t| && t[d].fd == fd
        ensures d == c
      {
        SameSlot(t, c, d);
      }
      SendsInbox(k, t, |t|, c);
    } else if t[0].fd == fd {
      SendsInbox(k, t, |t|, 0);
    } else {
      SendsStayInside(k, t, |t|, fd);
    }
  }

  /** The sends of a run of passes. */
  ghost function AllSends(kernels: seq<Kernel>, tables: seq<seq<PollFd>>): seq<Delivery>
    requires |tables| <= |kernels|
    decreases |tables|
  {
    if tables == [] then []
    else var p := |tables| - 1;
         AllSends(kernels, tables[..p]) + Sends(kernels[p], tables[p], |tables[p]|)
  }

  /** What a run of passes owes the holder of a descriptor. */
  ghost function AllOwed(kernels: seq<Kernel>, tables: seq<seq<PollFd>>, fd: int): seq<Delivery>
    requires |tables| <= |kernels|
    decreases |tables|
  {
    if tables == [] then []
    else var p := |tables| - 1;
         AllOwed(kernels, tables[..p], fd) + Owed(kernels[p], tables[p], fd)
  }

  /**
   * Over a run of passes the messages sent are those of the passes, and every descriptor gets, pass by
   * pass and in table order, exactly the messages of the other clients that were in the table with it.
   */
  lemma {:induction false} RunDelivers(kernels: seq<Kernel>, start: World, tables: seq<seq<PollFd>>, end: World,
                                       fd: int)
    requires |tables| <= |kernels| && Passes(kernels, start, tables, end)
    ensures end.outbox == start.outbox + AllSends(kernels, tables)
    ensures Inbox(AllSends(kernels, tables), fd) == AllOwed(kernels, tables, fd)
    decreases |tables|
  {
    if tables != [] {
      var p := |tables| - 1;
      var mid :| Passed(kernels[p], mid, tables[p], end) && Passes(kernels, start, tables[..p], mid);
      RunDelivers(kernels, start, tables[..p], mid, fd);
      PassOwes(kernels[p], tables[p], fd);
      var before, last := AllSends(kernels, tables[..p]), Sends(kernels[p], tables[p], |tables[p]|);
      InboxAppend(before, last, fd);
      AppendInOrder(start.outbox, before, last);
    }
  }

  // ----- When a pass ends the program -----

  /** Every descriptor in the table is open. */
  predicate AllOpen(t: seq<PollFd>, open: set<int>) {
    forall i :: 0 <= i < |t| ==> t[i].fd in open
  }

  lemma {:induction false} ClosedFdsAre(k: Kernel, t: seq<PollFd>, count: nat, c: nat)
    requires count <= |t| && c < |t| && Distinct(Fds(t))
    ensures t[c].fd in ClosedFds(k, t, count) <==> c < count && Closes(k, t, c)
  {
    if count > 0 {
      ClosedFdsAre(k, t, count - 1, c);
      SameSlot(t, count - 1, c);
    }
  }

  lemma FailsExactly(k: Kernel, t: seq<PollFd>, open: set<int>, i: nat, c: nat)
    requires i < |t| && c < |t| && Distinct(Fds(t)) && t[c].fd in open
    ensures Fails(k, t, OpenAt(k, t, open, i), i, c) <==>
            c != 0 && c != i && ((c < i && Closes(k, t, c)) || k.send(i, c).Error?)
  {
    ClosedFdsAre(k, t, i, c);
    SameSlot(t, c, 0);
    SameSlot(t, c, i);
  }

  /** The pass closes slot `i`. */
  predicate ClosesSlot(k: Kernel, t: seq<PollFd>, i: nat) {
    i < |t| && Closes(k, t, i)
  }

  /** Slot `i` passes on a message, and its send to the client in slot `c` fails by itself. */
  predicate SendError(k: Kernel, t: seq<PollFd>, i: nat, c: nat) {
    i < |t| && 0 < c < |t| && c != i && Spoke(k, t, i) && k.send(i, c).Error?
  }

  /**
   * When the descriptors in the table are open and those of clients have events, the turns of the slots end
   * the program if and only if one of them is closed, or a message is passed on to a client and the send
   * fails by itself.
   */
  lemma ExitsExactly(k: Kernel, t: seq<PollFd>, open: set<int>, events: seq<int>)
    requires |t| > 0 && Distinct(Fds(t)) && !t[0].broken && AllOpen(t, open) && Registered(t, events)
    ensures Exits(k, t, open, events) <==>
            (exists i :: ClosesSlot(k, t, i)) || (exists i, c :: SendError(k, t, i, c))
  {
    if i: nat :| i < |t| && Faulty(k, t, open, events, i) {
      if CallsHandler(k, t, events, i) {
        assert ClosesSlot(k, t, i);
      } else {
        var c :| 0 <= c < |t| && Fails(k, t, OpenAt(k, t, open, i), i, c);
        FailsExactly(k, t, open, i, c);
        assert ClosesSlot(k, t, c) || SendError(k, t, i, c);
      }
    }
    if i :| ClosesSlot(k, t, i) {
      assert Faulty(k, t, open, events, i);
    }
    if i, c :| SendError(k, t, i, c) {
      FailsExactly(k, t, open, i, c);
      assert Faulty(k, t, open, events, i);
    }
  }

  // ----- Over a run -----

  /** The descriptors in the table are distinct and open, clients have events, and no closed descriptor has one. */
  ghost predicate Sound(w: World) {
    && |w.live| > 0 && Distinct(Fds(w.live)) && AllOpen(w.live, w.open) && Registered(w.live, w.events)
    && forall e :: e in w.events ==> e in w.open
  }

  /** The world in which a new reactor starts is sound. */
  lemma StartIsSound(listener: PollFd)
    ensures Sound(World([listener], {listener.fd}, [], [], [], true))
  {
  }

  /** In a sound world the descriptors in use are the open ones, and an accepted one has no event. */
  lemma SoundAccepts(k: Kernel, w: World)
    requires Sound(w) && Proper(k)
    ensures InUse(w.live, w.open) == w.open && !AcceptEnds(k, w)
  {
    assert forall x :: x in Fds(w.live) ==> x in w.open;
  }

  lemma SoundBegins(k: Kernel, w: World, table: seq<PollFd>)
    requires Sound(w) && Proper(k) && Extends(k, w.live, w.open, table)
    ensures Sound(Begun(k, w, table)) && !table[0].broken
  {
    ExtendsDistinct(k, w.live, w.open, table);
    BegunRegistered(k, w, table);
    forall i | 0 <= i < |table|
      ensures table[i].fd in Opened(k, w.live, w.open)
    {
      if i < |w.live| {
        assert table[i] == table[..|w.live|][i] && w.live[i].fd in w.open;
      }
    }
  }

  lemma {:induction false} ClosesNothing(k: Kernel, t: seq<PollFd>, count: nat)
    requires count <= |t| && forall i: nat :: i < count ==> !Closes(k, t, i)
    ensures ClosedFds(k, t, count) == []
  {
    if count > 0 { ClosesNothing(k, t, count - 1); }
  }

  /** A pass that does not end the program closes no descriptor. */
  lemma PassKeepsSound(k: Kernel, w: World, table: seq<PollFd>, w': World)
    requires Sound(w) && Proper(k) && Passed(k, w, table, w')
    ensures Sound(w') && w'.closed == w.closed && w'.open == Opened(k, w.live, w.open)
    ensures forall i :: !ClosesSlot(k, table, i)
  {
    var b, list := Begun(k, w, table), Listed(k, table, |table|);
    SoundBegins(k, w, table);
    ExitsExactly(k, table, b.open, b.events);
    AfterPass(k, table, b.events);
    forall i: nat | i < |table|
      ensures !Closes(k, table, i)
    {
      assert !ClosesSlot(k, table, i);
    }
    ClosesNothing(k, table, |table|);
    assert OpenAt(k, table, b.open, |table|) == b.open;
    forall s | 0 <= s < |w'.live|
      ensures w'.live[s].fd in b.open
    {
      var i := RemoveKeepsOnly(table, list, s);
    }
  }

  /**
   * As long as the program runs, no descriptor is ever closed, whatever errors `poll` reports: the table
   * holds open descriptors only. So `accept` returns none of the table simply because it returns no open one.
   */
  lemma {:induction false} RunKeepsOpen(kernels: seq<Kernel>, start: World, tables: seq<seq<PollFd>>, end: World)
    requires |tables| <= |kernels| && Passes(kernels, start, tables, end) && Sound(start)
    requires forall p :: 0 <= p < |kernels| ==> Proper(kernels[p])
    ensures Sound(end) && end.closed == start.closed && InUse(end.live, end.open) == end.open
    decreases |tables|
  {
    if tables != [] {
      var p := |tables| - 1;
      var mid :| Passed(kernels[p], mid, tables[p], end) && Passes(kernels, start, tables[..p], mid);
      RunKeepsOpen(kernels, start, tables[..p], mid);
      PassKeepsSound(kernels[p], mid, tables[p], end);
    }
    assert forall x :: x in Fds(end.live) ==> x in end.open;
  }

  /** No send fails by itself. */
  ghost predicate SendsWork(k: Kernel) {
    forall i, j :: !k.send(i, j).Error?
  }

  /** A completed pass has not met its end, and one that has was not completed. */
  lemma BrokeMeansExits(k: Kernel, w: World, table: seq<PollFd>, w': World)
    requires !AcceptEnds(k, w)
    ensures var b := Begun(k, w, table);
            && (Broke(k, w, table, w') ==> Extends(k, w.live, w.open, table) && Exits(k, table, b.open, b.events))
            && (Passed(k, w, table, w') ==> !Exits(k, table, b.open, b.events))
  {
    var b := Begun(k, w, table);
    if how :| BrokeBy(k, w, table, how, w') {
      assert Faulty(k, table, b.open, b.events, how.i);
    }
  }

  /**
   * The pass that follows a run ends the program if and only if it closes a slot, or passes on a message
   * and a send fails by itself.
   */
  lemma RunEndsExactly(kernels: seq<Kernel>, start: World, tables: seq<seq<PollFd>>, w: World, k: Kernel,
                       table: seq<PollFd>, w': World)
    requires |tables| <= |kernels| && Passes(kernels, start, tables, w) && Sound(start)
    requires Proper(k) && forall p :: 0 <= p < |kernels| ==> Proper(kernels[p])
    requires Passed(k, w, table, w') || Broke(k, w, table, w')
    ensures Broke(k, w, table, w') <==>
            (exists i :: ClosesSlot(k, table, i)) || (exists i, c :: SendError(k, table, i, c))
    ensures SendsWork(k) ==> (Broke(k, w, table, w') <==> exists i :: ClosesSlot(k, table, i))
  {
    RunKeepsOpen(kernels, start, tables, w);
    SoundAccepts(k, w);
    BrokeMeansExits(k, w, table, w');
    SoundBegins(k, w, table);
    hide Broke, Passed, Passes, Sound;
    assert table == Begun(k, w, table).live;
    ExitsOfBegun(k, w, table);
  }

  lemma ExitsOfBegun(k: Kernel, w: World, table: seq<PollFd>)
    requires Sound(Begun(k, w, table)) && !table[0].broken
    ensures var b := Begun(k, w, table);
            Exits(k, table, b.open, b.events) <==>
            (exists i :: ClosesSlot(k, table, i)) || (exists i, c :: SendError(k, table, i, c))
  {
    var b := Begun(k, w, table);
    ExitsExactly(k, table, b.open, b.events);
  }

  // ----- What a pass removes -----

  /**
   * A pass that does not end the program lists exactly the clients that hung up or whose data could not be
   * read, and removes exactly those if and only if its list is clean. In particular it does if there is at
   * most one.
   */
  lemma PassRemoves(k: Kernel, w: World, table: seq<PollFd>, w': World)
    requires Sound(w) && Proper(k) && Passed(k, w, table, w')
    ensures var list := Listed(k, table, |table|);
            && (ExactlyKept(table, list, w'.live) <==> Clean(|table|, list))
            && (|list| <= 1 ==> Clean(|table|, list))
            && forall i: nat :: i < |table| ==> (i in list <==> i > 0 && table[i].readable && !k.recv(i).Data?)
  {
    SoundBegins(k, w, table);
    PassKeepsSound(k, w, table, w');
    hide Sound, Registered, AllOpen, Extends, Opened, Begun, Exits;
    RemovalOf(k, table);
    forall i: nat | i < |table|
      ensures i in Listed(k, table, |table|) <==> i > 0 && table[i].readable && !k.recv(i).Data?
    {
      ListedIsDoomed(k, table, |table|, i);
      assert !ClosesSlot(k, table, i);
    }
  }

  lemma RemovalOf(k: Kernel, t: seq<PollFd>)
    requires |t| > 0 && Distinct(Fds(t)) && !t[0].broken
    ensures var list := Listed(k, t, |t|);
            && |list| <= |t| && (ExactlyKept(t, list, RemoveAll(t, list)) <==> Clean(|t|, list))
            && (|list| <= 1 ==> Clean(|t|, list))
  {
    var list := Listed(k, t, |t|);
    ListedSparesListener(k, t, |t|);
    FdsDistinct(t);
    hide Listed, Fds, Distinct, RemoveAll;
    BatchRemoval(t, list);
  }

  /** Three clients, of which the first and the third hang up; nothing else happens. */
  predicate TwoHungUp(k: Kernel, t: seq<PollFd>) {
    && |t| == 4 && (forall i :: 0 <= i < 4 ==> !t[i].broken && (t[i].readable <==> i % 2 == 1))
    && k.recv(1).HungUp? && k.recv(3).HungUp?
  }

  lemma TwoHungUpListed(k: Kernel, t: seq<PollFd>)
    requires TwoHungUp(k, t)
    ensures Listed(k, t, 4) == [1, 3]
  {
    assert ListedOf(k, t, 0) == [] && ListedOf(k, t, 1) == [1] && ListedOf(k, t, 2) == [] && ListedOf(k, t, 3) == [3];
    hide ListedOf, TwoHungUp;
    assert Listed(k, t, 1) == Listed(k, t, 0);
    assert Listed(k, t, 2) == [1];
    assert Listed(k, t, 3) == [1];
  }

  lemma RemoveFirstAndThird<T>(t: seq<T>)
    requires |t| == 4
    ensures RemoveAll(t, [1, 3]) == [t[0], t[3]]
  {
    var list: seq<nat> := [1, 3];
    assert list[..1] == [1] && list[..1][..0] == [];
    assert RemoveAll(t, list[..1]) == [t[0], t[3], t[2]];
  }

  /**
   * A pass in which the first and the third of three clients hang up goes on, and its removals fail: the
   * third client stays in the table, and the second, which is still there, is lost.
   */
  lemma OneStaysBehind(k: Kernel, t: seq<PollFd>, open: set<int>, events: seq<int>)
    requires TwoHungUp(k, t)
    ensures |Listed(k, t, 4)| == 2 && RemoveAll(t, Listed(k, t, 4)) == [t[0], t[3]]
    ensures !Exits(k, t, open, events) && !Clean(4, Listed(k, t, 4))
  {
    TwoHungUpListed(k, t);
    RemoveFirstAndThird(t);
    OneIsCleanTwoNeedNotBe(1, 4);
    forall i: nat | i < 4
      ensures !Faulty(k, t, open, events, i)
    {
      assert !Spoke(k, t, i) && !Closes(k, t, i);
    }
  }

}
