/**
  `kexecute` sleeps until its child halts and then returns the status byte stored in
  its own control block. Whatever the other terminals do in between, and even if the
  child's pid is taken again, that byte is the one the child's halt delivered.
 */
module ExitStatus {
  import opened KernelBase
  import opened Machine
  import opened Runs
  import F = Fairness
  import R = RunQueueView
  import P = ProcessView

  datatype Outcome = Pending | Got(status: Byte)

  /** The status byte `p` finds when it is first dispatched along `es`. */
  ghost function Returned(s: State, es: seq<Event>, p: nat): (o: Outcome)
    requires Inv(s) && Legal(s, es) && p < s.Size()
    decreases |es|
  {
    if es == [] then Pending
    else
      StepInv(s, es[0]);
      var r := Step(s, es[0]);
      if es[0].Tick? && r.procs.curr == p then Got(r.procs.status[p]) else Returned(r, es[1..], p)
  }

  /** The status with which `c` first halts along `es`. */
  ghost function HaltedWith(s: State, es: seq<Event>, c: nat): (o: Outcome)
    requires Inv(s) && Legal(s, es)
    decreases |es|
  {
    if es == [] then Pending
    else if es[0].Halt? && s.procs.curr == c then Got(es[0].status)
    else
      StepInv(s, es[0]);
      HaltedWith(Step(s, es[0]), es[1..], c)
  }

  ghost predicate ParentAndChild(v: P.View, p: nat, c: nat)
    requires P.WellFormed(v)
  {
    c < |v.live| && v.live[c] && P.ParentIn(v, c) == P.To(p)
  }

  /** A process that can run but does not have the processor. */
  ghost predicate Ready(v: P.View, p: nat)
    requires P.WellFormed(v)
  {
    P.Leaf(v, p) && v.curr != p
  }

  // ---- what one step does to a pair in the process table ----

  lemma SpawnKeeps(v: P.View, pid: nat, displayed: nat, p: nat, c: nat)
    requires P.WellFormed(v) && P.Leaf(v, v.curr) && SHELLS <= pid < |v.live| && !v.live[pid]
    ensures Ready(v, p) ==> Ready(P.Spawn(v, pid, displayed), p)
    ensures ParentAndChild(v, p, c) ==> ParentAndChild(P.Spawn(v, pid, displayed), p, c)
  {
    if ParentAndChild(v, p, c) { P.SpawnLinks(v, pid, displayed, c); }
  }

  lemma ReapKeeps(v: P.View, status: Byte, p: nat, c: nat)
    requires P.WellFormed(v) && P.Leaf(v, v.curr) && SHELLS <= v.curr
    ensures Ready(v, p) ==> Ready(P.Reap(v, status), p) && P.Reap(v, status).status[p] == v.status[p]
    ensures ParentAndChild(v, p, c) && c != v.curr ==> ParentAndChild(P.Reap(v, status), p, c)
  {
    assert P.Seated(v, v.home[v.curr], v.depth[v.curr]);
    assert P.Seated(v, v.home[v.curr], v.depth[v.curr] - 1);
    if ParentAndChild(v, p, c) && c != v.curr { P.ReapLinks(v, status, c); }
  }

  lemma ResumeKeeps(v: P.View, q: nat, p: nat, c: nat)
    requires P.WellFormed(v) && q < |v.live|
    ensures Ready(v, p) && q != p ==> Ready(P.Resume(v, q), p)
    ensures ParentAndChild(v, p, c) ==> ParentAndChild(P.Resume(v, q), p, c)
  {
  }

  /** A parent sleeps as long as it has a child. */
  lemma ParentIsNoLeaf(v: P.View, p: nat, c: nat)
    requires P.WellFormed(v) && ParentAndChild(v, p, c)
    ensures v.live[p] && !P.Leaf(v, p)
  {
    assert P.OnChain(v, c) && P.Seated(v, v.home[c], v.depth[c] - 1);
  }

  lemma ExecuteKeeps(s: State, program: Program, p: nat, c: nat)
    requires Inv(s) && !s.trap
    ensures Inv(ExecuteBody(s, program))
    ensures Ready(s.procs, p) ==> Ready(ExecuteBody(s, program).procs, p)
    ensures ExecuteBody(s, program).procs.status == s.procs.status
    ensures ParentAndChild(s.procs, p, c) ==> ParentAndChild(ExecuteBody(s, program).procs, p, c)
  {
    ExecuteInv(s, program);
    ShellsLive(s);
    var free := P.FreePid(s.procs.live);
    if free < s.Size() { SpawnKeeps(s.procs, free, s.video.displayed, p, c); }
  }

  lemma HaltKeeps(s: State, status: Byte, p: nat, c: nat)
    requires Inv(s) && !s.trap
    ensures Inv(HaltBody(s, status))
    ensures Ready(s.procs, p) ==>
              Ready(HaltBody(s, status).procs, p) && HaltBody(s, status).procs.status[p] == s.procs.status[p]
    ensures ParentAndChild(s.procs, p, c) && c != s.procs.curr ==> ParentAndChild(HaltBody(s, status).procs, p, c)
  {
    HaltInv(s, status);
    if SHELLS <= s.procs.curr { ReapKeeps(s.procs, status, p, c); }
  }

  lemma DispatchKeeps(s: State, p: nat, c: nat)
    requires Inv(s)
    ensures Inv(Dispatch(s)) && Dispatch(s).procs.status == s.procs.status
    ensures Ready(s.procs, p) && Dispatch(s).procs.curr != p ==> Ready(Dispatch(s).procs, p)
    ensures ParentAndChild(s.procs, p, c) ==> ParentAndChild(Dispatch(s).procs, p, c) && Dispatch(s).procs.curr != p
  {
    DispatchInv(s);
    ChainEndRuns(s, 0);
    ResumeKeeps(s.procs, R.Next(s.run), p, c);
    if ParentAndChild(s.procs, p, c) { ParentIsNoLeaf(s.procs, p, c); }
  }

  // ---- after the child's halt ----

  /** Until a ready process is dispatched it stays ready, and nobody touches its status byte. */
  lemma ReadyStep(s: State, e: Event, p: nat)
    requires Inv(s) && Enabled(s, e) && Ready(s.procs, p)
    requires !(e.Tick? && Dispatch(s).procs.curr == p)
    ensures Inv(Step(s, e)) && Ready(Step(s, e).procs, p)
    ensures Step(s, e).procs.status[p] == s.procs.status[p]
  {
    match e
    case Execute(program) => ExecuteKeeps(s, program, p, p);
    case Halt(status) => HaltKeeps(s, status, p, p);
    case Tick => DispatchKeeps(s, p, p);
    case _ => StepInv(s, e);
  }

  lemma {:induction false} ReadyKeepsStatus(s: State, es: seq<Event>, p: nat)
    requires Inv(s) && Legal(s, es) && Ready(s.procs, p)
    ensures Returned(s, es, p).Got? ==> Returned(s, es, p).status == s.procs.status[p]
    decreases |es|
  {
    if es != [] {
      StepInv(s, es[0]);
      if es[0].Tick? && Dispatch(s).procs.curr == p {
        ChainEndRuns(s, 0);
      } else {
        ReadyStep(s, es[0], p);
        ReadyKeepsStatus(Step(s, es[0]), es[1..], p);
      }
    }
  }

  // ---- before it ----

  /** Until the child halts it stays its parent's child, and the parent is not dispatched. */
  lemma ChildStep(s: State, e: Event, p: nat, c: nat)
    requires Inv(s) && Enabled(s, e) && ParentAndChild(s.procs, p, c)
    requires !(e.Halt? && s.procs.curr == c)
    ensures Inv(Step(s, e)) && ParentAndChild(Step(s, e).procs, p, c)
    ensures e.Tick? ==> Step(s, e).procs.curr != p
  {
    match e
    case Execute(program) => ExecuteKeeps(s, program, p, c);
    case Halt(status) => HaltKeeps(s, status, p, c);
    case Tick => DispatchKeeps(s, p, c);
    case _ => StepInv(s, e);
  }

  /** The child's halt leaves its parent ready, with the delivered status. */
  lemma ChildHalts(s: State, status: Byte, p: nat, c: nat)
    requires Inv(s) && !s.trap && ParentAndChild(s.procs, p, c) && s.procs.curr == c
    ensures Inv(HaltBody(s, status)) && Ready(HaltBody(s, status).procs, p)
    ensures HaltBody(s, status).procs.status[p] == P.Delivered(status)
  {
    HaltInv(s, status);
    assert P.Seated(s.procs, s.procs.home[c], s.procs.depth[c]);
  }

  /** Right after `kexecute` its caller has the new process as a child. */
  lemma ExecuteMakesChild(s: State)
    requires Inv(s) && !s.trap && P.FreePid(s.procs.live) < s.Size()
    ensures Inv(ExecuteBody(s, Loads))
    ensures ParentAndChild(ExecuteBody(s, Loads).procs, s.procs.curr, P.FreePid(s.procs.live))
  {
    ExecuteInv(s, Loads);
    ShellsLive(s);
  }

  lemma {:induction false} ParentGetsStatus(s: State, es: seq<Event>, p: nat, c: nat)
    requires Inv(s) && Legal(s, es) && ParentAndChild(s.procs, p, c)
    ensures p < s.Size()
    ensures Returned(s, es, p).Got? ==>
              HaltedWith(s, es, c).Got? && Returned(s, es, p).status == P.Delivered(HaltedWith(s, es, c).status)
    decreases |es|
  {
    if es != [] {
      StepInv(s, es[0]);
      if es[0].Halt? && s.procs.curr == c {
        ChildHalts(s, es[0].status, p, c);
        ReadyKeepsStatus(Step(s, es[0]), es[1..], p);
      } else {
        ChildStep(s, es[0], p, c);
        ParentGetsStatus(Step(s, es[0]), es[1..], p, c);
      }
    }
  }

  lemma StatusArrives(s: State, es: seq<Event>, p: nat, c: nat, halted: Outcome, returned: Outcome)
    requires Inv(s) && Legal(s, es) && ParentAndChild(s.procs, p, c) && p < s.Size()
    requires halted == HaltedWith(s, es, c) && returned == Returned(s, es, p) && returned.Got?
    ensures halted.Got? && returned.status == P.Delivered(halted.status)
  {
    ParentGetsStatus(s, es, p, c);
  }

  lemma DeliveredIff(status: Byte)
    ensures P.Delivered(status) == P.Intended(status) <==> status != P.EHALT
    ensures P.Delivered(status) == if status == 239 then 0 else status
    ensures P.Intended(status) == if status == 239 then 256 else status
  {
  }

  /**
    A successful `kexecute` that returns yields what its own child's halt delivers. That is
    the intended value exactly if the child was not killed by an exception: status 239,
    meant to become 256, is stored in one byte and arrives as 0.
   */
  lemma ExecuteReturnsChildStatus(s: State, started: State, es: seq<Event>, p: nat, c: nat, halted: Outcome, returned: Outcome)
    requires Inv(s) && Enabled(s, Execute(Loads)) && c == P.FreePid(s.procs.live) < s.Size() && p == s.procs.curr
    requires started == Step(s, Execute(Loads)) && Inv(started) && Legal(started, es) && p < started.Size()
    requires halted == HaltedWith(started, es, c) && returned == Returned(started, es, p) && returned.Got?
    ensures halted.Got? && returned.status == P.Delivered(halted.status)
    ensures returned.status == P.Intended(halted.status) <==> halted.status != 239
    ensures returned.status == if halted.status == 239 then 0 else halted.status
  {
    ExecuteMakesChild(s);
    StatusArrives(started, es, p, c, halted, returned);
    DeliveredIff(halted.status);
  }

  // ---- and it does return ----

  lemma {:induction false} DispatchedReturns(s: State, es: seq<Event>, p: nat)
    requires Inv(s) && Legal(s, es) && F.DispatchedIn(s, es, p)
    ensures p < s.Size() && Returned(s, es, p).Got?
    decreases |es|
  {
    StepInv(s, es[0]);
    var r := Step(s, es[0]);
    if !(es[0].Tick? && r.procs.curr == p) { DispatchedReturns(r, es[1..], p); }
  }

  lemma ParentWaits(s: State, status: Byte, p: nat, c: nat, r: State)
    requires Inv(s) && !s.trap && ParentAndChild(s.procs, p, c) && s.procs.curr == c && r == HaltBody(s, status)
    ensures Inv(r) && F.Waiting(r, p) && r.Size() == s.Size()
  {
    ChildHalts(s, status, p, c);
    StepInv(s, Halt(status));
    assert P.Leaf(r.procs, p) && r.procs.live[p];
  }

  /** Once the child halts, its parent returns exactly the delivered status in every run with n * (n + 3) ticks. */
  lemma ParentReturns(s: State, status: Byte, p: nat, c: nat, r: State, es: seq<Event>)
    requires Inv(s) && !s.trap && ParentAndChild(s.procs, p, c) && s.procs.curr == c && r == HaltBody(s, status)
    requires Inv(r) && Legal(r, es) && F.Ticks(es) >= r.Size() * (r.Size() + 3)
    ensures p < r.Size() && Returned(r, es, p) == Got(if status == 239 then 0 else status)
  {
    DeliveredIff(status);
    ParentWaits(s, status, p, c, r);
    ChildHalts(s, status, p, c);
    F.NoStarvation(r, es, p);
    DispatchedReturns(r, es, p);
    ReadyKeepsStatus(r, es, p);
  }
}
