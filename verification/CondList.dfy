/**
 * The registry of condition variables of pthreads-win32: a doubly linked list with a global head and
 * tail, to which an initialization appends and from which a destruction unlinks, and the critical
 * section that guards it.
 */
module CondList {

  // ---------- The critical section ----------

  /** A critical section that its owner may enter again; `again` counts how often it has. */
  datatype CriticalSection = Free | Held(owner: nat, again: nat) {

    /** Whether thread `t` can enter without waiting. */
    predicate Admits(t: nat) {
      Free? || owner == t
    }

    function Enter(t: nat): CriticalSection
      requires Admits(t)
    {
      if Free? then Held(t, 0) else Held(owner, again + 1)
    }

    function Leave(): CriticalSection
      requires Held?
    {
      if again == 0 then Free else Held(owner, again - 1)
    }
  }

  /**
   * A call by a thread that uses the registry: an initialization or a destruction; `taken` tells
   * that a destruction found the mutex of its condition variable taken.
   */
  datatype Call = Init(thread: nat) | Destroy(thread: nat, taken: bool)

  /** A destruction that finds the mutex taken returns without leaving the critical section. */
  predicate Leaks(call: Call) {
    call.Destroy? && call.taken
  }

  function AfterCall(lock: CriticalSection, call: Call): CriticalSection
    requires lock.Admits(call.thread)
  {
    var inside := lock.Enter(call.thread);
    if Leaks(call) then inside else inside.Leave()
  }

  /** The calls return one after the other, and leave the critical section as `after`. */
  predicate Return(lock: CriticalSection, calls: seq<Call>, after: CriticalSection)
    decreases |calls|
  {
    if calls == [] then after == lock
    else lock.Admits(calls[0].thread) && Return(AfterCall(lock, calls[0]), calls[1..], after)
  }

  /**
   * The critical section is free after any number of calls if and only if none of them has found its
   * mutex taken; after one that has, only calls by the same thread ever return.
   */
  lemma {:induction false} LeakIsForGood(lock: CriticalSection, calls: seq<Call>, after: CriticalSection)
    requires Return(lock, calls, after)
    ensures after == Free <==> lock == Free && forall i | 0 <= i < |calls| :: !Leaks(calls[i])
    ensures forall i, j | 0 <= i < j < |calls| && Leaks(calls[i]) :: calls[j].thread == calls[i].thread
    ensures lock.Held? ==> forall i | 0 <= i < |calls| :: calls[i].thread == lock.owner
    decreases |calls|
  {
    if calls == [] {
    } else {
      LeakIsForGood(AfterCall(lock, calls[0]), calls[1..], after);
      assert forall i | 0 < i < |calls| :: calls[i] == calls[1..][i - 1];
    }
  }

  // ---------- The list ----------

  class Node {
    var next: Node?
    var prev: Node?

    constructor ()
      ensures next == null && prev == null
    {
      next, prev := null, null;
    }
  }

  /** The node at `i`, or null outside the list. */
  function NodeAt(nodes: seq<Node>, i: int): Node? {
    if 0 <= i < |nodes| then nodes[i] else null
  }

  predicate Distinct(nodes: seq<Node>) {
    forall i, j | 0 <= i < j < |nodes| :: nodes[i] != nodes[j]
  }

  /** Node `i` is linked to its neighbours, at the ends of the list to null. */
  predicate LinkedAt(nodes: seq<Node>, i: nat)
    requires i < |nodes|
    reads nodes
  {
    nodes[i].next == NodeAt(nodes, i + 1) && nodes[i].prev == NodeAt(nodes, i - 1)
  }

  predicate Linked(nodes: seq<Node>)
    reads nodes
  {
    forall i | 0 <= i < |nodes| :: LinkedAt(nodes, i)
  }

  class Registry {
    var head: Node?
    var tail: Node?
    var lock: CriticalSection
    ghost var nodes: seq<Node>

    /** `head`, `tail`, `next` and `prev` are an acyclic doubly linked list of `nodes`. */
    ghost predicate Valid()
      reads this, nodes
    {
      && Distinct(nodes)
      && head == NodeAt(nodes, 0)
      && tail == NodeAt(nodes, |nodes| - 1)
      && Linked(nodes)
    }

    constructor ()
      ensures Valid() && nodes == [] && lock == Free
    {
      head, tail, lock, nodes := null, null, Free, [];
    }

    /** The end of pthread_cond_init. */
    method Append(cv: Node, t: nat)
      requires Valid() && cv !in nodes && lock.Admits(t)
      modifies this, cv, nodes
      ensures Valid()
      ensures nodes == old(nodes) + [cv]
      ensures lock == old(lock)
    {
      lock := lock.Enter(t);
      cv.next := null;
      cv.prev := tail;
      if tail != null {
        tail.next := cv;
      }
      tail := cv;
      if head == null {
        head := cv;
      }
      lock := lock.Leave();
      nodes := nodes + [cv];
      forall i | 0 <= i < |nodes|
        ensures LinkedAt(nodes, i)
      {
        assert i < old(|nodes|) ==> old(LinkedAt(nodes, i));
      }
    }

    /** The end of pthread_cond_destroy: exactly that node is gone, the order of the others is kept. */
    method Unlink(cv: Node, ghost k: nat)
      requires Valid() && k < |nodes| && nodes[k] == cv
      modifies this, nodes
      ensures Valid()
      ensures nodes == old(nodes)[..k] + old(nodes)[k + 1..]
      ensures lock == old(lock)
    {
      assert LinkedAt(nodes, k);
      assert head == cv <==> k == 0;
      assert tail == cv <==> k == |nodes| - 1;
      if head == cv {
        head := cv.next;
      } else {
        cv.prev.next := cv.next;
      }
      if tail == cv {
        tail := cv.prev;
      } else {
        cv.next.prev := cv.prev;
      }
      nodes := nodes[..k] + nodes[k + 1..];
      forall i | 0 <= i < |nodes|
        ensures LinkedAt(nodes, i)
      {
        ghost var j := if i < k then i else i + 1;
        assert nodes[i] == old(nodes)[j] && old(LinkedAt(nodes, j));
      }
    }

    /** Walking the list from its head meets every node once, in the order of their initialization. */
    method Walk() returns (met: seq<Node>)
      requires Valid()
      ensures met == nodes
    {
      met := [];
      var cv := head;
      while cv != null
        invariant met <= nodes
        invariant cv == NodeAt(nodes, |met|)
        decreases |nodes| - |met|
      {
        assert LinkedAt(nodes, |met|);
        met := met + [cv];
        cv := cv.next;
      }
    }
  }
}
