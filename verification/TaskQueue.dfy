/** The linked queue of a stage, as the thread that holds its mutex sees it. */
module TaskQueue {

  datatype Option<T> = None | Some(value: T)

  class Node<T> {
    var task: T
    var next: Node?<T>

    constructor (task: T)
      ensures this.task == task && this.next == null
    {
      this.task := task;
      this.next := null;
    }
  }

  /** The node that follows position `i`, or null at the end. */
  function After<T>(spine: seq<Node<T>>, i: nat): Node?<T>
    requires i < |spine|
  {
    if i + 1 < |spine| then spine[i + 1] else null
  }

  class Queue<T> {
    var head: Node?<T>
    var tail: Node?<T>

    // Every node the queue ever allocated; the nodes from `head` to `tail` and their tasks;
    // and all tasks ever linked and unlinked.
    ghost var nodes: set<Node<T>>
    ghost var spine: seq<Node<T>>
    ghost var contents: seq<T>
    ghost var linked: seq<T>
    ghost var unlinked: seq<T>

    /** Following `next` from `head` leads through the nodes of the spine to `tail`, where it ends. */
    ghost predicate Valid()
      reads this, nodes
    {
      && (forall i :: 0 <= i < |spine| ==> spine[i] in nodes)
      && head == (if spine == [] then null else spine[0])
      && tail == (if spine == [] then null else spine[|spine| - 1])
      && (forall i :: 0 <= i < |spine| ==> spine[i].next == After(spine, i))
      && |contents| == |spine| && (forall i :: 0 <= i < |spine| ==> spine[i].task == contents[i])
      && linked == unlinked + contents
    }

    constructor ()
      ensures Valid() && contents == [] && linked == [] && unlinked == [] && nodes == {}
      ensures head == tail == null
    {
      head, tail := null, null;
      nodes, spine, contents, linked, unlinked := {}, [], [], [], [];
    }

    /** The list has no cycle: the nodes it leads through are distinct. */
    lemma {:induction false} Acyclic(i: nat, j: nat)
      requires Valid() && i < j < |spine|
      ensures spine[i] != spine[j]
      decreases |spine| - j
    {
      assert spine[i].next == After(spine, i) && spine[j].next == After(spine, j);
      if j + 1 < |spine| {
        Acyclic(i + 1, j + 1);
      }
    }

    /** The critical section of `enqueue`. */
    method Enqueue(task: T)
      requires Valid()
      modifies this, nodes
      ensures Valid() && contents == old(contents) + [task]
      ensures linked == old(linked) + [task] && unlinked == old(unlinked)
      ensures fresh(nodes - old(nodes))
      // In memory: the new node is the last, and the one that was last leads to it.
      ensures tail != null && fresh(tail) && tail.task == task && tail.next == null
      ensures if old(head) == null then head == tail else head == old(head)
      ensures old(tail) != null ==> old(tail) != tail && old(tail).next == tail && old(tail).task == old(tail.task)
    {
      var node := new Node(task);
      if head == null {
        head := node;
        tail := node;
      } else {
        tail.next := node;
        tail := node;
      }
      nodes := nodes + {node};
      spine := spine + [node];
      contents := contents + [task];
      linked := linked + [task];
    }

    /**
     * The critical section of `dequeue`: nothing when the queue is empty, in which case the caller
     * waits on the condition variable, and otherwise the oldest task.
     */
    method TryDequeue() returns (task: Option<T>)
      requires Valid()
      modifies this
      ensures Valid() && nodes == old(nodes) && linked == old(linked)
      ensures task.None? <==> old(contents) == []
      ensures task.None? ==> unchanged(this)
      ensures task.Some? ==>
                && old(contents) == [task.value] + contents
                && unlinked == old(unlinked) + [task.value]
      // In memory: the first node leaves, and with the last one both ends are null.
      ensures task.None? <==> old(head) == null
      ensures task.Some? ==> task.value == old(head).task && head == old(head).next
      ensures task.Some? ==> tail == if head == null then null else old(tail)
    {
      if head == null {
        return None;
      }
      ghost var order := spine;
      var node := head;
      var memory := node.task;
      head := node.next;
      if head == null {
        tail := null;
      }
      spine := spine[1..];
      contents := contents[1..];
      unlinked := unlinked + [memory];
      forall i | 0 <= i < |spine|
        ensures spine[i].next == After(spine, i)
      {
        assert spine[i] == order[i + 1] && order[i + 1].next == After(order, i + 1);
      }
      assert linked == unlinked + contents;
      assert head == if spine == [] then null else spine[0];
      assert tail == if spine == [] then null else spine[|spine| - 1];
      assert Valid();
      return Some(memory);
    }

    /** `isEmpty`. */
    method IsEmpty() returns (empty: bool)
      requires Valid()
      ensures empty <==> contents == []
    {
      empty := head == null;
    }

    /**
     * The loop of `deleteQueue`, which moves on twice per round: it frees the nodes at even
     * positions and, when their number is odd, ends by reading `next` of a null pointer.
     */
    method Delete() returns (freed: seq<Node<T>>, crashed: bool)
      requires Valid()
      ensures crashed <==> |contents| % 2 == 1
      ensures |freed| == (|contents| + 1) / 2
      ensures forall i :: 0 <= i < |freed| ==> freed[i] == spine[2 * i]
      // It frees every node without running off the list exactly when there is no node.
      ensures !crashed && (forall i :: 0 <= i < |spine| ==> spine[i] in freed) <==> contents == []
    {
      freed, crashed := [], false;
      var current := head;
      ghost var i := 0;
      while current != null
        invariant Valid() && 0 <= i <= |spine| && i == 2 * |freed|
        invariant current == if i < |spine| then spine[i] else null
        invariant forall j :: 0 <= j < |freed| ==> freed[j] == spine[2 * j]
        decreases |spine| - i
      {
        var next := current.next;
        assert current == spine[i] && next == After(spine, i);
        freed := freed + [current];
        current := next;
        if current == null {
          return freed, true;
        }
        current := current.next;
        i := i + 2;
      }
      if spine != [] {
        forall k | 0 <= k < |freed|
          ensures freed[k] != spine[1]
        {
          if k == 0 { Acyclic(0, 1); } else { Acyclic(1, 2 * k); }
        }
      }
    }
  }

  // ----- Histories of calls -----

  datatype Op<T> = Put(task: T) | Take

  /** The tasks a history hands out, starting from the contents `tasks`; a take on the empty queue hands out nothing. */
  function Taken<T>(tasks: seq<T>, ops: seq<Op<T>>): seq<T>
    decreases |ops|
  {
    if ops == [] then []
    else if ops[0].Put? then Taken(tasks + [ops[0].task], ops[1..])
    else if tasks == [] then Taken(tasks, ops[1..])
    else [tasks[0]] + Taken(tasks[1..], ops[1..])
  }

  /** The contents a history leaves behind. */
  function Left<T>(tasks: seq<T>, ops: seq<Op<T>>): seq<T>
    decreases |ops|
  {
    if ops == [] then tasks
    else if ops[0].Put? then Left(tasks + [ops[0].task], ops[1..])
    else if tasks == [] then Left(tasks, ops[1..])
    else Left(tasks[1..], ops[1..])
  }

  function Puts<T>(ops: seq<Op<T>>): seq<T>
    decreases |ops|
  {
    if ops == [] then []
    else (if ops[0].Put? then [ops[0].task] else []) + Puts(ops[1..])
  }

  /** What a history hands out and what it leaves are, in order, what was there and what it put in. */
  lemma {:induction false} FirstInFirstOut<T>(tasks: seq<T>, ops: seq<Op<T>>)
    ensures Taken(tasks, ops) + Left(tasks, ops) == tasks + Puts(ops)
    decreases |ops|
  {
    if ops != [] {
      var rest := ops[1..];
      if ops[0].Put? {
        FirstInFirstOut(tasks + [ops[0].task], rest);
        assert tasks + [ops[0].task] + Puts(rest) == tasks + Puts(ops);
      } else if tasks == [] {
        FirstInFirstOut(tasks, rest);
      } else {
        FirstInFirstOut(tasks[1..], rest);
        assert tasks + Puts(ops) == [tasks[0]] + (tasks[1..] + Puts(rest));
      }
    }
  }

  /**
   * What one more call at the end of a history does: a put adds to what is left, a take hands out the first of
   * what is left, and a take when nothing is left does nothing.
   */
  lemma {:induction false} LastCall<T>(tasks: seq<T>, ops: seq<Op<T>>, op: Op<T>)
    ensures Taken(tasks, []) == [] && Left(tasks, []) == tasks && Puts<T>([]) == []
    ensures Puts(ops + [op]) == if op.Put? then Puts(ops) + [op.task] else Puts(ops)
    ensures Taken(tasks, ops + [op]) ==
            if op.Take? && Left(tasks, ops) != [] then Taken(tasks, ops) + [Left(tasks, ops)[0]] else Taken(tasks, ops)
    ensures Left(tasks, ops + [op]) ==
            if op.Put? then Left(tasks, ops) + [op.task]
            else if Left(tasks, ops) != [] then Left(tasks, ops)[1..] else []
    decreases |ops|
  {
    if ops == [] {
      assert ops + [op] == [op] && [op][1..] == [];
    } else {
      var rest := ops[1..];
      assert (ops + [op])[1..] == rest + [op];
      if ops[0].Put? {
        LastCall(tasks + [ops[0].task], rest, op);
      } else if tasks == [] {
        LastCall(tasks, rest, op);
      } else {
        LastCall(tasks[1..], rest, op);
      }
    }
  }

  /**
   * A history hands out as many tasks as it has takes exactly if at no moment there have been more takes than
   * tasks, those at the start included.
   */
  lemma {:induction false} HandsOutExactly<T>(tasks: seq<T>, ops: seq<Op<T>>)
    ensures |Taken(tasks, ops)| <= |ops| - |Puts(ops)|
    ensures |Taken(tasks, ops)| == |ops| - |Puts(ops)| <==>
            forall j :: 0 <= j <= |ops| ==> j - |Puts(ops[..j])| <= |tasks| + |Puts(ops[..j])|
    decreases |ops|
  {
    if ops == [] {
      assert ops[..0] == [];
    } else {
      var n := |ops| - 1;
      var pre := ops[..n];
      HandsOutExactly(tasks, pre);
      LastCall(tasks, pre, ops[n]);
      FirstInFirstOut(tasks, pre);
      assert ops == pre + [ops[n]] && ops[..n + 1] == ops;
      assert |Taken(tasks, pre)| + |Left(tasks, pre)| == |tasks| + |Puts(pre)|;
      assert forall j :: 0 <= j <= n ==> pre[..j] == ops[..j];
    }
  }

  /** A history of calls on a queue in memory hands out and leaves what the history on a list does. */
  method Replay<T>(q: Queue<T>, ops: seq<Op<T>>) returns (out: seq<T>)
    requires q.Valid()
    modifies q, q.nodes
    ensures q.Valid() && fresh(q.nodes - old(q.nodes))
    ensures out == Taken(old(q.contents), ops) && q.contents == Left(old(q.contents), ops)
    decreases |ops|
  {
    if ops == [] {
      return [];
    }
    if ops[0].Put? {
      q.Enqueue(ops[0].task);
      out := Replay(q, ops[1..]);
    } else {
      ghost var tasks := q.contents;
      var r := q.TryDequeue();
      assert tasks != [] ==> tasks[1..] == q.contents;
      out := Replay(q, ops[1..]);
      if r.Some? {
        out := [r.value] + out;
      }
    }
  }

}
