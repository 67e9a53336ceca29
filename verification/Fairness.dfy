/**
  No starvation: whatever the other processes execute, halt and write, a task that
  can run is dispatched within a number of dispatches that depends on the size of
  the pid table alone.
 */
module Fairness {
  import opened KernelBase
  import opened Machine
  import opened Runs
  import R = RunQueueView
  import P = ProcessView

  // ---- positions in the ring ----

  lemma AtMostN(q: seq<nat>, n: nat)
    requires Distinct(q) && R.Below(q, n)
    ensures |q| <= n
    decreases n
  {
    if q == [] {
    } else if n - 1 in q {
      var k := R.IndexOf(q, n - 1);
      AtMostN(q[..k] + q[k + 1..], n - 1);
    } else {
      assert q[0] < n;
      AtMostN(q, n - 1);
    }
  }

  lemma {:induction false} IndexOfPrefix(q: seq<nat>, r: seq<nat>, x: nat)
    requires x in q
    ensures R.IndexOf(q + r, x) == R.IndexOf(q, x)
  {
    if q[0] != x {
      assert (q + r)[1..] == q[1..] + r;
      IndexOfPrefix(q[1..], r, x);
    }
  }

  /** In `q` searched from `j` on and around, no running task is skipped on the way to the one found at `i`. */
  ghost predicate FoundAt(q: seq<nat>, state: seq<R.TaskState>, j: nat, i: nat)
    requires R.Below(q, |state|)
  {
    && i < |q| && state[q[i]] == R.Running
    && (if i >= j then forall k :: j <= k < i ==> state[q[k]] != R.Running
        else forall k :: 0 <= k < i || j <= k < |q| ==> state[q[k]] != R.Running)
  }

  lemma FirstInRotation(q: seq<nat>, state: seq<R.TaskState>, j: nat) returns (i: nat)
    requires R.Below(q, |state|) && j <= |q|
    requires R.FirstRunning(q[j..] + q[..j], state) < |q|
    ensures FoundAt(q, state, j, i) && q[i] == (q[j..] + q[..j])[R.FirstRunning(q[j..] + q[..j], state)]
  {
    var c := q[j..] + q[..j];
    var f := R.FirstRunning(c, state);
    i := if f < |q| - j then f + j else f - (|q| - j);
    forall k | 0 <= k < |q| ensures q[k] == c[if k >= j then k - j else k + |q| - j] {
      R.RotationAt(q, j, k);
    }
  }

  /** The task a dispatch selects is the first running one behind the current one in ring order. */
  lemma NextIndex(v: R.View) returns (i: nat)
    requires R.WellFormed(v) && R.CanDispatch(v)
    ensures R.Below(R.Survivors(v), |v.state|)
    ensures FoundAt(R.Survivors(v), v.state, R.Ahead(v), i) && R.Survivors(v)[i] == R.Next(v)
  {
    R.CandidatesBelow(v);
    i := FirstInRotation(R.Survivors(v), v.state, R.Ahead(v));
  }

  // ---- how long a task may still have to wait ----

  /** A process that can run and is not the current one. */
  ghost predicate Waiting(s: State, p: nat)
    requires Inv(s)
  {
    p < s.Size() && s.procs.live[p] && s.run.state[p] == R.Running && s.run.cursor != R.At(p)
  }

  ghost function CursorIndex(v: R.View): (k: int)
    requires R.WellFormed(v)
    ensures -1 <= k < |v.queue|
  {
    if v.cursor.At? then R.IndexOf(v.queue, v.cursor.pid) else -1
  }

  /** The nodes the cursor has left behind for good, counting its own once it is asleep. */
  ghost function Behind(v: R.View, asleep: bool): (b: nat)
    requires R.WellFormed(v) && (v.cursor.AtSentinel? ==> asleep)
    ensures b == if asleep then CursorIndex(v) + 1 else CursorIndex(v)
  {
    if asleep then CursorIndex(v) + 1 else CursorIndex(v)
  }

  /** The cursor will leave its node behind in the ring: it is the sentinel, or waits for a child. */
  ghost predicate Asleep(s: State)
    requires Inv(s)
  {
    s.run.cursor.AtSentinel? || (s.trap && s.procs.live[s.run.cursor.pid])
  }

  /** (n - b) * (n + 1): how often the cursor can still advance before it wraps around. */
  function Laps(n: nat, b: nat): (m: nat)
    decreases n - b
  {
    if b >= n then 0 else n + 1 + Laps(n, b + 1)
  }

  lemma LapsDrop(n: nat, b: nat, b': nat)
    requires b < b' <= n
    ensures Laps(n, b) >= Laps(n, b') + n + 1
    decreases b' - b
  {
    if b + 1 < b' { LapsDrop(n, b + 1, b'); }
  }

  lemma LapsAtMost(n: nat, b: nat)
    requires b <= n
    ensures Laps(n, b) == (n - b) * (n + 1) <= n * (n + 1)
    decreases n - b
  {
    if b < n {
      LapsAtMost(n, b + 1);
      assert (n - b) * (n + 1) == (n - (b + 1)) * (n + 1) + (n + 1);
    }
  }

  /**
    A bound on the dispatches until the task at index `i` of a queue of `len` is selected,
    with the cursor at `k` and `b` nodes left behind: its distance if it lies ahead, and
    otherwise what the cursor can still do before it wraps around.
   */
  function Bound(n: nat, len: nat, k: int, b: nat, i: nat): (m: int) {
    if i > k then i - k else n + Laps(n, b) + len - k - 1
  }

  ghost function PatienceIn(v: R.View, asleep: bool, p: nat): (m: int)
    requires R.WellFormed(v) && p in v.queue && (v.cursor.AtSentinel? ==> asleep)
  {
    Bound(|v.state|, |v.queue|, CursorIndex(v), Behind(v, asleep), R.IndexOf(v.queue, p))
  }

  ghost function Patience(s: State, p: nat): (m: int)
    requires Inv(s) && Waiting(s, p)
  {
    PatienceIn(s.run, Asleep(s), p)
  }

  lemma BoundRange(n: nat, len: nat, k: int, b: nat, i: nat)
    requires i < len <= n && -1 <= k < len && k <= b <= k + 1 && i != k
    ensures 0 < Bound(n, len, k, b, i) <= n * (n + 3)
  {
    LapsAtMost(n, b);
    assert n + n * (n + 1) + n == n * (n + 3);
  }

  /** The lexicographic measure at work: a dispatch to `k'` that does not select the task brings it closer. */
  lemma BoundDrops(n: nat, len: nat, k: int, i: nat, removed: bool, b: nat,
                   len': nat, k': nat, i': nat)
    requires i < len <= n && -1 <= k < len && i != k && k <= b <= k + 1 && (removed ==> b == k)
    requires i' == if removed && i > k then i - 1 else i
    requires k' < len' == len - (if removed then 1 else 0) && k' != i'
    requires var j := if removed then k else k + 1;
             if k' >= j then !(j <= i' < k') else !(i' < k') && !(j <= i')
    ensures Bound(n, len', k', k', i') < Bound(n, len, k, b, i)
  {
    if i < k && b < k' { LapsDrop(n, b, k'); }
  }

  /** Taking the finished current task out moves the tasks behind it up by one. */
  lemma SurvivorIndex(v: R.View, p: nat)
    requires R.WellFormed(v) && p in v.queue && v.cursor.At? && v.cursor.pid != p && v.state[v.cursor.pid] == R.Finished
    ensures p in R.Survivors(v)
    ensures var i, k := R.IndexOf(v.queue, p), R.IndexOf(v.queue, v.cursor.pid);
            R.IndexOf(R.Survivors(v), p) == if i > k then i - 1 else i
  {
    R.CandidatesBelow(v);
    var i, k := R.IndexOf(v.queue, p), R.IndexOf(v.queue, v.cursor.pid);
    var j := if i > k then i - 1 else i;
    assert R.Survivors(v)[j] == p;
    R.IndexOfUnique(R.Survivors(v), j);
  }

  /** What a dispatch does to the positions of the cursor and of a task it passes by. */
  lemma TickPositions(v: R.View, w: R.View, p: nat) returns (removed: bool, k': nat, i': nat)
    requires R.WellFormed(v) && R.CanDispatch(v) && p in v.queue && v.state[p] == R.Running
    requires v.cursor != R.At(p) && R.Next(v) != p && R.WellFormed(w) && w == R.Tick(v)
    ensures removed <==> v.cursor.At? && v.state[v.cursor.pid] == R.Finished
    ensures var i, k := R.IndexOf(v.queue, p), CursorIndex(v);
            var j := if removed then k else k + 1;
            && i != k && i' == (if removed && i > k then i - 1 else i)
            && p in w.queue && i' == R.IndexOf(w.queue, p) && k' == CursorIndex(w)
            && |w.queue| == |v.queue| - (if removed then 1 else 0) && k' < |w.queue| && k' != i'
            && (if k' >= j then !(j <= i' < k') else !(i' < k') && !(j <= i'))
  {
    removed := v.cursor.At? && v.state[v.cursor.pid] == R.Finished;
    R.SurvivorsAre(v, p);
    R.CandidatesBelow(v);
    k' := NextIndex(v);
    R.IndexOfUnique(R.Survivors(v), k');
    i' := R.IndexOf(R.Survivors(v), p);
    if removed { SurvivorIndex(v, p); }
  }

  lemma TickDrops(v: R.View, w: R.View, asleep: bool, p: nat)
    requires R.WellFormed(v) && R.CanDispatch(v) && p in v.queue && v.state[p] == R.Running
    requires v.cursor != R.At(p) && R.Next(v) != p
    requires v.cursor.AtSentinel? ==> asleep
    requires v.cursor.At? && v.state[v.cursor.pid] == R.Finished ==> !asleep
    requires R.WellFormed(w) && w == R.Tick(v)
    ensures p in w.queue && w.cursor.At? && PatienceIn(w, false, p) < PatienceIn(v, asleep, p)
  {
    AtMostN(v.queue, |v.state|);
    var removed, k', i' := TickPositions(v, w, p);
    var n, len, k, b, i := |v.state|, |v.queue|, CursorIndex(v), Behind(v, asleep), R.IndexOf(v.queue, p);
    BoundDrops(n, len, k, i, removed, b, |w.queue|, k', i');
    assert PatienceIn(v, asleep, p) == Bound(n, len, k, b, i);
    assert PatienceIn(w, false, p) == Bound(n, |w.queue|, k', k', i');
  }

  lemma ScheduleLowers(v: R.View, c: nat, p: nat, w: R.View)
    requires R.WellFormed(v) && c < |v.state| && c !in v.queue && v.cursor.At? && p in v.queue && v.cursor.pid != p
    requires R.WellFormed(w) && w == R.Schedule(v, c, v.cursor)
    ensures p in w.queue && PatienceIn(w, true, p) <= PatienceIn(v, false, p)
  {
    IndexOfPrefix(v.queue, [c], p);
    IndexOfPrefix(v.queue, [c], v.cursor.pid);
    AtMostN(w.queue, |w.state|);
    var n, len, k, i := |v.state|, |v.queue|, CursorIndex(v), R.IndexOf(v.queue, p);
    LapsDrop(n, k, k + 1);
    assert PatienceIn(v, false, p) == Bound(n, len, k, k, i);
    assert PatienceIn(w, true, p) == Bound(n, len + 1, k, k + 1, i);
  }

  // ---- steps ----

  lemma WaitingInQueue(s: State, p: nat)
    requires Inv(s) && Waiting(s, p)
    ensures p in s.run.queue && P.Leaf(s.procs, p)
    ensures !s.trap ==> p != s.procs.curr
  {
  }

  lemma DispatchLowers(s: State, p: nat)
    requires Inv(s) && Waiting(s, p) && Dispatch(s).procs.curr != p
    ensures Inv(Dispatch(s)) && Waiting(Dispatch(s), p)
    ensures Patience(Dispatch(s), p) < Patience(s, p)
  {
    DispatchInv(s);
    ChainEndRuns(s, 0);
    WaitingInQueue(s, p);
    TickDrops(s.run, R.Tick(s.run), Asleep(s), p);
  }

  lemma ExecuteLowers(s: State, program: Program, p: nat)
    requires Inv(s) && !s.trap && Waiting(s, p)
    ensures Inv(ExecuteBody(s, program)) && Waiting(ExecuteBody(s, program), p)
    ensures Patience(ExecuteBody(s, program), p) <= Patience(s, p)
  {
    ExecuteInv(s, program);
    WaitingInQueue(s, p);
    var c := P.FreePid(s.procs.live);
    if c < s.Size() && program == Loads {
      ShellsLive(s);
      var r := ExecuteBody(s, program);
      ScheduleLowers(s.run, c, p, r.run);
      assert Patience(s, p) == PatienceIn(s.run, false, p);
      assert Waiting(r, p) && Asleep(r);
      assert Patience(r, p) == PatienceIn(r.run, true, p);
    }
  }

  lemma HaltKeeps(s: State, status: Byte, p: nat)
    requires Inv(s) && !s.trap && Waiting(s, p)
    ensures Inv(HaltBody(s, status)) && Waiting(HaltBody(s, status), p)
    ensures Patience(HaltBody(s, status), p) == Patience(s, p)
  {
    HaltInv(s, status);
    WaitingInQueue(s, p);
  }

  /** Until it is dispatched, a waiting process keeps waiting, and every dispatch brings it closer. */
  lemma StepLowersPatience(s: State, e: Event, p: nat)
    requires Inv(s) && Enabled(s, e) && Waiting(s, p)
    requires !(e.Tick? && Dispatch(s).procs.curr == p)
    ensures Inv(Step(s, e)) && Waiting(Step(s, e), p)
    ensures Patience(Step(s, e), p) <= Patience(s, p) - (if e.Tick? then 1 else 0)
  {
    match e
    case Tick => DispatchLowers(s, p);
    case Execute(program) => ExecuteLowers(s, program, p);
    case Halt(status) => HaltKeeps(s, status, p);
    case _ => StepInv(s, e);
  }

  // ---- runs ----

  function Ticks(es: seq<Event>): (n: nat) {
    if es == [] then 0 else (if es[0].Tick? then 1 else 0) + Ticks(es[1..])
  }

  /** Along the run `es` from `s`, `p` is dispatched, and it can run in every state before that. */
  ghost predicate DispatchedIn(s: State, es: seq<Event>, p: nat)
    requires Inv(s) && Legal(s, es)
    decreases |es|
  {
    && es != [] && p < s.Size() && s.run.state[p] == R.Running
    && (StepInv(s, es[0]);
        var r := Step(s, es[0]);
        (es[0].Tick? && r.procs.curr == p) || DispatchedIn(r, es[1..], p))
  }

  lemma {:induction false} DispatchedWithinPatience(s: State, es: seq<Event>, p: nat)
    requires Inv(s) && Legal(s, es) && Waiting(s, p) && Ticks(es) >= Patience(s, p)
    ensures DispatchedIn(s, es, p)
    decreases |es|
  {
    PatiencePositive(s, p);
    StepInv(s, es[0]);
    if !(es[0].Tick? && Dispatch(s).procs.curr == p) {
      StepLowersPatience(s, es[0], p);
      DispatchedWithinPatience(Step(s, es[0]), es[1..], p);
    }
  }

  lemma PatiencePositive(s: State, p: nat)
    requires Inv(s) && Waiting(s, p)
    ensures 0 < Patience(s, p) <= s.Size() * (s.Size() + 3)
  {
    AtMostN(s.run.queue, s.Size());
    WaitingInQueue(s, p);
    BoundRange(s.Size(), |s.run.queue|, CursorIndex(s.run), Behind(s.run, Asleep(s)), R.IndexOf(s.run.queue, p));
  }

  /** A process that can run is dispatched within n * (n + 3) dispatches, n being the size of the pid table. */
  lemma NoStarvation(s: State, es: seq<Event>, p: nat)
    requires Inv(s) && Legal(s, es)
    requires Waiting(s, p) && Ticks(es) >= s.Size() * (s.Size() + 3)
    ensures DispatchedIn(s, es, p)
  {
    PatiencePositive(s, p);
    DispatchedWithinPatience(s, es, p);
  }

  /** The timer can always fire: every state has runs with any number of ticks. */
  lemma {:induction false} TicksAlwaysLegal(s: State, k: nat) returns (es: seq<Event>)
    requires Inv(s)
    ensures Legal(s, es) && Ticks(es) == k
    decreases k
  {
    if k == 0 {
      es := [];
    } else {
      StepInv(s, Tick);
      var rest := TicksAlwaysLegal(Step(s, Tick), k - 1);
      es := [Tick] + rest;
      assert es[1..] == rest;
    }
  }
}
