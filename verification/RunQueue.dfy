/**
  The scheduler of student-distrib/schedule.c: a circular doubly linked list of
  task nodes through a sentinel, updated in place.
 */
module RunQueue {
  import opened KernelBase
  import opened V = RunQueueView

  class Node {
    var next: Node?
    var prev: Node?
    var running: TaskState
    const pid: nat

    constructor (pid: nat, running: TaskState)
      ensures this.pid == pid && this.running == running
      ensures next == null && prev == null
    {
      this.pid := pid;
      this.running := running;
      next, prev := null, null;
    }
  }

  class Scheduler {
    const nodes: seq<Node>        // the static array run_queue, indexed by pid
    const sentinel: Node
    var currNode: Node
    var tail: Node
    var firstShell: bool
    ghost var ring: seq<Node>     // the nodes in link order, the sentinel first
    ghost const own: set<Node>    // all nodes and the sentinel
    ghost var view: View          // what the ring and the task states stand for

    ghost predicate NodeTable() {
      && sentinel !in nodes && sentinel in own
      && (forall p :: 0 <= p < |nodes| ==> nodes[p] in own)
      && (forall p :: 0 <= p < |nodes| ==> nodes[p].pid == p)
    }

    /** The ring visits the sentinel and then the queued tasks in order. */
    ghost predicate Order()
      reads this
    {
      Spells(ring, view.queue)
    }

    ghost predicate Spells(r: seq<Node>, q: seq<nat>) {
      && Below(q, |nodes|)
      && |r| == |q| + 1
      && r[0] == sentinel
      && (forall i :: 0 < i < |r| ==> r[i] == nodes[q[i - 1]])
    }

    lemma SpellsWithout(r: seq<Node>, q: seq<nat>, k: nat)
      requires Spells(r, q) && k < |q|
      ensures Spells(r[..k + 1] + r[k + 2..], q[..k] + q[k + 1..])
    {
    }

    /** next and prev lead to the neighbours in the ring and wrap around at the sentinel. */
    ghost predicate Linked()
      reads this, ring
    {
      && |ring| > 0 && ring[0] == sentinel && tail == ring[|ring| - 1]
      && (forall i {:trigger ring[i].next} :: 0 <= i < |ring| - 1 ==> ring[i].next == ring[i + 1])
      && tail.next == sentinel
      && (forall i {:trigger ring[i].prev} :: 0 < i < |ring| ==> ring[i].prev == ring[i - 1])
      && sentinel.prev == tail
    }

    ghost predicate StatesMatch()
      requires NodeTable()
      reads this, own
    {
      && sentinel.running == Sentinel
      && |view.state| == |nodes|
      && (forall p :: 0 <= p < |nodes| ==> nodes[p].running == view.state[p])
    }

    ghost predicate CursorMatches()
      reads this
    {
      && (firstShell <==> view.cursor.AtSentinel?)
      && (if view.cursor.At? then view.cursor.pid < |nodes| && currNode == nodes[view.cursor.pid]
          else currNode == sentinel)
    }

    ghost predicate Intact()
      reads this, own
    {
      && NodeTable() && Order() && Linked() && StatesMatch() && CursorMatches()
      && WellFormed(view)
    }

    /** `Intact` as a single fact, which callers pass on without looking inside. */
    ghost predicate Valid()
      reads this, own
    {
      Intact() == true
    }

    lemma NodeOnce(k: nat)
      requires NodeTable() && Order() && Distinct(view.queue) && k < |ring|
      ensures forall i :: 0 <= i < |ring| && i != k ==> ring[i] != ring[k]
    {
      forall i | 0 <= i < |ring| && i != k ensures ring[i] != ring[k] {
        if i > 0 && k > 0 { assert ring[i].pid == view.queue[i - 1] && ring[k].pid == view.queue[k - 1]; }
      }
    }

    lemma NotInRing(pid: nat)
      requires NodeTable() && Order() && pid < |nodes| && pid !in view.queue
      ensures nodes[pid] !in ring
    {
      forall i | 0 <= i < |ring| ensures ring[i] != nodes[pid] {
        if i > 0 { assert ring[i].pid == view.queue[i - 1]; }
      }
    }

    /** The queued pids are those whose nodes are in the ring, and every node there has its neighbours pointing back to it. */
    lemma RingHolds(k: nat)
      requires Valid() && k < |ring|
      ensures Distinct(ring) && ring[0] == sentinel && tail == ring[|ring| - 1] == sentinel.prev
      ensures ring[k].next == ring[if k + 1 < |ring| then k + 1 else 0]
      ensures ring[k].prev == ring[if k > 0 then k - 1 else |ring| - 1]
      ensures ring[k].next != null && ring[k].next.prev == ring[k]
      ensures ring[k].prev != null && ring[k].prev.next == ring[k]
    {
      RingDistinct();
      var n := if k + 1 < |ring| then k + 1 else 0;
      var p := if k > 0 then k - 1 else |ring| - 1;
      assert ring[n].prev == ring[k] && ring[p].next == ring[k];
    }

    lemma InRingIff(pid: nat)
      requires Valid() && pid < |nodes|
      ensures nodes[pid] in ring <==> pid in view.queue
    {
      if pid in view.queue {
        var i := IndexOf(view.queue, pid);
        assert ring[i + 1] == nodes[pid];
      } else {
        NotInRing(pid);
      }
    }

    constructor (size: nat)
      ensures Valid() && fresh(own)
      ensures view == V.View([], AtSentinel, seq(size, _ => Inactive))
    {
      var all: seq<Node> := [];
      for p := 0 to size
        invariant |all| == p
        invariant forall i :: 0 <= i < p ==> all[i].pid == i && all[i].running == Inactive && fresh(all[i])
      {
        var n := new Node(p, Inactive);
        all := all + [n];
      }
      var s := new Node(0, Sentinel);
      nodes, sentinel, own := all, s, {s} + (set n | n in all);
      currNode, tail, firstShell := s, s, true;
      ring, view := [s], V.View([], AtSentinel, seq(size, _ => Inactive));
      new;
      s.next, s.prev := s, s;
    }

    lemma SizeAndOrder()
      requires Valid()
      ensures |nodes| == |view.state| && WellFormed(view)
    {
    }

    method Schedule(pid: nat, parent: V.Cursor)
      requires Valid()
      requires pid < |nodes| && pid !in view.queue
      requires parent.At? ==> parent.pid < |nodes|
      modifies this`ring, this`tail, this`view, own
      ensures Valid()
      ensures view == V.Schedule(old(view), pid, parent)
    {
      Enqueue(pid);
      SetState(pid, Running);
      if parent.At? { SetState(parent.pid, Inactive); }
    }

    method Enqueue(pid: nat)
      requires Valid()
      requires pid < |nodes| && pid !in view.queue
      modifies this`ring, this`tail, this`view, own
      ensures Valid()
      ensures view == old(view).(queue := old(view.queue) + [pid])
    {
      NotInRing(pid);
      NodeOnce(|ring| - 1);
      LinkAtTail(nodes[pid]);
      view := view.(queue := view.queue + [pid]);
    }

    method SetState(pid: nat, state: TaskState)
      requires Valid() && pid < |nodes|
      modifies this`view, own`running
      ensures Valid()
      ensures view == old(view).(state := old(view.state)[pid := state])
    {
      nodes[pid].running := state;
      view := view.(state := view.state[pid := state]);
    }

    /** Links `task` in between the tail and the sentinel. */
    method LinkAtTail(task: Node)
      requires Linked() && task !in ring
      requires forall i :: 0 <= i < |ring| && i != |ring| - 1 ==> ring[i] != tail
      modifies this`ring, this`tail, task`next, task`prev, tail`next, sentinel`prev
      ensures Linked() && ring == old(ring) + [task]
    {
      task.prev := tail;
      task.next := tail.next;
      tail.next := task;
      tail := task;
      sentinel.prev := tail;
      ring := ring + [task];
    }

    method Unschedule(pid: nat, parent: nat, shells: nat)
      requires Valid()
      requires pid < |nodes| && parent < |nodes|
      modifies this`view, own`running
      ensures Valid()
      ensures view == V.Unschedule(old(view), pid, parent, shells)
    {
      SetState(pid, Finished);
      if pid >= shells { SetState(parent, Running); }
    }

    /** Unlinks the node at position `k` of the ring, which is not the sentinel. */
    method Unlink(node: Node, ghost k: nat)
      requires Linked() && 0 < k < |ring| && node == ring[k]
      requires Distinct(ring)
      modifies this`ring, this`tail, ring`next, ring`prev
      ensures Linked() && ring == old(ring[..k] + ring[k + 1..])
    {
      var newTask := node.next;
      var prev := node.prev;
      prev.next := newTask;
      newTask.prev := prev;
      node.prev, node.next := null, null;
      if node == tail { tail := prev; }
      ring := ring[..k] + ring[k + 1..];
    }

    lemma RingDistinct()
      requires NodeTable() && Order() && Distinct(view.queue)
      ensures Distinct(ring)
    {
      forall i, j | 0 <= i < j < |ring| ensures ring[i] != ring[j] { NodeOnce(i); }
    }

    /** Takes the finished current task out of the ring; `currNode` still points to it. */
    method RemoveCurrent()
      requires Valid() && view.cursor.At? && view.state[view.cursor.pid] == Finished
      modifies this`ring, this`tail, this`view, ring`next, ring`prev
      ensures Order() && Linked()
      ensures view == old(view).(queue := Survivors(old(view)))
    {
      ghost var k := IndexOf(view.queue, view.cursor.pid);
      SpellsWithout(ring, view.queue, k);
      RingDistinct();
      Unlink(currNode, k + 1);
      view := view.(queue := Survivors(view));
    }

    /** The search loop of pit_handler; `start` is the node behind the first `j` queued tasks. */
    method Search(start: Node, ghost j: nat) returns (found: Node)
      requires NodeTable() && Order() && Linked() && StatesMatch()
      requires j <= |view.queue| && start == (if j < |view.queue| then ring[j + 1] else sentinel)
      requires var c := view.queue[j..] + view.queue[..j];
               FirstRunning(c, view.state) < |c|
      ensures var c := view.queue[j..] + view.queue[..j]; found == nodes[c[FirstRunning(c, view.state)]]
    {
      ghost var q := view.queue;
      ghost var c := q[j..] + q[..j];
      ghost var first := FirstRunning(c, view.state);
      found := start;
      // `passed` candidates lie behind; the sentinel sits before candidate |q| - j.
      ghost var passed, i := 0, if j < |q| then j + 1 else 0;
      while found.running != Running
        invariant passed <= first && 0 <= i <= |q| && found == ring[i]
        invariant if i == 0 then passed == |q| - j
                  else if passed < |q| - j then i == passed + j + 1 else i == passed - (|q| - j) + 1
        decreases first - passed, i == 0
      {
        if i > 0 {
          assert found == nodes[c[passed]];
          passed := passed + 1;
        }
        i := if i < |q| then i + 1 else 0;
        found := found.next;
      }
      assert i > 0 && found == nodes[c[passed]];
    }

    /** Steps to the node behind the current one, dropping the current one if it has finished. */
    method StepPast() returns (newTask: Node)
      requires Valid() && view.cursor.At?
      modifies this`ring, this`tail, this`view, ring`next, ring`prev
      ensures Order() && Linked()
      ensures view == old(view).(queue := Survivors(old(view)))
      ensures newTask == var j := Ahead(old(view)); if j < |view.queue| then ring[j + 1] else sentinel
    {
      ghost var k := IndexOf(view.queue, view.cursor.pid) + 1;
      assert currNode == ring[k];
      newTask := currNode.next;
      assert newTask == if k + 1 < |ring| then ring[k + 1] else sentinel;
      if currNode.running == Finished {
        RemoveCurrent();
      }
    }

    /** Makes the task of `pid` the current one. */
    method Arrive(task: Node, ghost pid: nat)
      requires NodeTable() && Order() && Linked() && StatesMatch()
      requires pid < |nodes| && task == nodes[pid] && WellFormed(view.(cursor := At(pid)))
      modifies this`currNode, this`view, this`firstShell
      ensures Valid() && view == old(view).(cursor := At(pid))
    {
      currNode := task;
      firstShell := false;
      view := view.(cursor := At(pid));
    }

    method FirstDispatch()
      requires Valid() && CanDispatch(view) && view.cursor.AtSentinel?
      requires view.queue != [] && view.state[view.queue[0]] == Running
      modifies this
      ensures Valid() && view == V.Tick(old(view))
    {
      assert Candidates(view) == view.queue;
      assert ring[1] == nodes[view.queue[0]];
      Arrive(currNode.next, Next(view));
    }

    /** The task to run next, once a finished current one is out of the ring. */
    method SelectNext() returns (newTask: Node)
      requires Valid() && CanDispatch(view) && view.cursor.At?
      modifies this`ring, this`tail, this`view, ring`next, ring`prev
      ensures Order() && Linked()
      ensures view == old(view).(queue := Survivors(old(view)))
      ensures newTask == nodes[Next(old(view))]
    {
      ghost var j := Ahead(view);
      CandidatesBelow(view);
      newTask := StepPast();
      newTask := Search(newTask, j);
    }

    method Preempt()
      requires Valid() && CanDispatch(view) && view.cursor.At?
      modifies this, own
      ensures Valid() && view == V.Tick(old(view))
    {
      ghost var after := V.Tick(view);
      var newTask := SelectNext();
      Arrive(newTask, after.cursor.pid);
    }

    method PitHandler()
      requires Valid() && CanDispatch(view)
      requires firstShell ==> view.queue != [] && view.state[view.queue[0]] == Running
      modifies this, own
      ensures Valid()
      ensures view == V.Tick(old(view)) && currNode.pid == Next(old(view))
    {
      if firstShell && currNode == sentinel {
        FirstDispatch();
      } else {
        Preempt();
      }
    }
  }
}
