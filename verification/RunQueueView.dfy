/**
  The round-robin run queue as a value: the pids in ring order behind the
  sentinel, the task the processor is on, and the state of every task node.
  The linked ring of `RunQueue` is proved against the functions given here.
 */
module RunQueueView {
  import opened KernelBase


  datatype TaskState = Inactive | Running | Sentinel | Finished

  /** The node `curr_node` points to: the sentinel (only before the first dispatch) or a task. */
  datatype Cursor = AtSentinel | At(pid: nat)

  datatype View = View(queue: seq<nat>, cursor: Cursor, state: seq<TaskState>)

  ghost predicate Below(q: seq<nat>, bound: nat) {
    forall i :: 0 <= i < |q| ==> q[i] < bound
  }

  /** What every operation on the run queue relies on and keeps. */
  ghost predicate WellFormed(v: View) {
    && Distinct(v.queue)
    && Below(v.queue, |v.state|)
    && (v.cursor.At? ==> v.cursor.pid in v.queue)
  }

  function IndexOf(q: seq<nat>, x: nat): (i: nat)
    requires x in q
    ensures i < |q| && q[i] == x && x !in q[..i]
  {
    if q[0] == x then 0 else 1 + IndexOf(q[1..], x)
  }

  lemma IndexOfUnique(q: seq<nat>, i: nat)
    requires Distinct(q) && i < |q|
    ensures IndexOf(q, q[i]) == i
  {
  }

  /** The index of the first running task of `s`, or its length if there is none. */
  function FirstRunning(s: seq<nat>, state: seq<TaskState>): (i: nat)
    requires forall k :: 0 <= k < |s| ==> s[k] < |state|
    ensures i <= |s|
    ensures i < |s| ==> state[s[i]] == Running
    ensures forall k :: 0 <= k < i ==> state[s[k]] != Running
  {
    if s == [] || state[s[0]] == Running then 0 else 1 + FirstRunning(s[1..], state)
  }

  /** The queue once the current task, if it has finished, is taken out. */
  function Survivors(v: View): (q: seq<nat>)
    requires v.cursor.At? ==> v.cursor.pid in v.queue && v.cursor.pid < |v.state|
  {
    if v.cursor.At? && v.state[v.cursor.pid] == Finished then
      var k := IndexOf(v.queue, v.cursor.pid);
      v.queue[..k] + v.queue[k + 1..]
    else
      v.queue
  }

  /** Where in `Survivors(v)` the tasks behind the current one begin. */
  function Ahead(v: View): (j: nat)
    requires v.cursor.At? ==> v.cursor.pid in v.queue && v.cursor.pid < |v.state|
    ensures j <= |Survivors(v)|
  {
    if v.cursor.AtSentinel? then 0
    else
      var k := IndexOf(v.queue, v.cursor.pid);
      if v.state[v.cursor.pid] == Finished then k else k + 1
  }

  /** All surviving tasks in the order a search starting behind the current one meets them. */
  function Candidates(v: View): (s: seq<nat>)
    requires v.cursor.At? ==> v.cursor.pid in v.queue && v.cursor.pid < |v.state|
  {
    Survivors(v)[Ahead(v)..] + Survivors(v)[..Ahead(v)]
  }

  lemma WithoutBelow(q: seq<nat>, k: nat, s: seq<nat>, bound: nat)
    requires k < |q| && s == q[..k] + q[k + 1..] && Below(q, bound) && Distinct(q)
    ensures Below(s, bound) && Distinct(s)
  {
    forall i | 0 <= i < |s| ensures s[i] < bound {
      assert s[i] == q[if i < k then i else i + 1];
    }
    forall i, j | 0 <= i < j < |s| ensures s[i] != s[j] {
      assert s[i] == q[if i < k then i else i + 1] && s[j] == q[if j < k then j else j + 1];
    }
  }

  lemma RotatedBelow(s: seq<nat>, j: nat, c: seq<nat>, bound: nat)
    requires j <= |s| && c == s[j..] + s[..j] && Below(s, bound)
    ensures Below(c, bound)
  {
    forall i | 0 <= i < |c| ensures c[i] < bound {
      assert c[i] == s[if i < |s| - j then i + j else i - (|s| - j)];
    }
  }

  lemma CandidatesBelow(v: View)
    requires WellFormed(v)
    ensures Below(Survivors(v), |v.state|) && Distinct(Survivors(v))
    ensures Below(Candidates(v), |v.state|)
  {
    var s := Survivors(v);
    if v.cursor.At? && v.state[v.cursor.pid] == Finished {
      WithoutBelow(v.queue, IndexOf(v.queue, v.cursor.pid), s, |v.state|);
    }
    RotatedBelow(s, Ahead(v), Candidates(v), |v.state|);
  }

  /** Some task other than a finished current one can run, so that a search finds one. */
  ghost predicate CanDispatch(v: View)
    requires WellFormed(v)
  {
    CandidatesBelow(v);
    FirstRunning(Candidates(v), v.state) < |Candidates(v)|
  }

  /** Only a finished current task is taken out. */
  lemma SurvivorsAre(v: View, p: nat)
    requires WellFormed(v)
    ensures p in Survivors(v) <==> p in v.queue && !(v.cursor == At(p) && v.state[p] == Finished)
  {
    if v.cursor.At? && v.state[v.cursor.pid] == Finished {
      var k := IndexOf(v.queue, v.cursor.pid);
      if p in v.queue && p != v.cursor.pid {
        var i := IndexOf(v.queue, p);
        assert Survivors(v)[if i < k then i else i - 1] == p;
      }
    }
  }

  lemma RotationAt(s: seq<nat>, j: nat, i: nat)
    requires j <= |s| && i < |s|
    ensures var k := if i >= j then i - j else i + |s| - j; k < |s| && (s[j..] + s[..j])[k] == s[i]
  {
  }

  lemma RunningSurvivorSuffices(v: View, p: nat)
    requires WellFormed(v) && p in Survivors(v) && p < |v.state| && v.state[p] == Running
    ensures CanDispatch(v)
  {
    CandidatesBelow(v);
    var s := Survivors(v);
    var i :| 0 <= i < |s| && s[i] == p;
    RotationAt(s, Ahead(v), i);
    assert p in Candidates(v);
  }

  /** The task a dispatch selects: the first running one behind the current one in ring order. */
  function Next(v: View): (p: nat)
    requires WellFormed(v) && CanDispatch(v)
    ensures p in Survivors(v) && p < |v.state| && v.state[p] == Running
  {
    CandidatesBelow(v);
    Candidates(v)[FirstRunning(Candidates(v), v.state)]
  }

  function Tick(v: View): (w: View)
    requires WellFormed(v) && CanDispatch(v)
    ensures WellFormed(w) && w.cursor.At? && w.state == v.state
  {
    CandidatesBelow(v);
    View(Survivors(v), At(Next(v)), v.state)
  }

  /** A new running task at the tail; its parent, if it has one, is put to sleep. */
  function Schedule(v: View, pid: nat, parent: Cursor): (w: View)
    requires WellFormed(v) && pid < |v.state| && pid !in v.queue
    requires parent.At? ==> parent.pid < |v.state|
    ensures WellFormed(w)
  {
    var running := v.state[pid := Running];
    View(v.queue + [pid], v.cursor, if parent.At? then running[parent.pid := Inactive] else running)
  }

  /** A finished task stays in the ring until the next dispatch; a non-shell's parent wakes up. */
  function Unschedule(v: View, pid: nat, parent: nat, shells: nat): (w: View)
    requires WellFormed(v) && pid < |v.state| && parent < |v.state|
    ensures WellFormed(w)
  {
    var finished := v.state[pid := Finished];
    View(v.queue, v.cursor, if pid >= shells then finished[parent := Running] else finished)
  }
}
