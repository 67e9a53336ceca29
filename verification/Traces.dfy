/**
  Runs from boot that show the kernel's failures happening: a child halting with status
  239, a process labelled with the wrong terminal, and a failed load that leaves the
  caller in another address space.
 */
module Traces {
  import opened KernelBase
  import opened Machine
  import opened Runs
  import E = ExitStatus
  import F = FileSystem
  import G = VideoView
  import L = Loader
  import P = ProcessView
  import R = RunQueueView

  // ---- dispatching in turn ----

  /** If the task right behind the current one can run, it is next. */
  lemma NextInLine(v: R.View, q: seq<nat>, i: nat)
    requires R.WellFormed(v) && R.CanDispatch(v) && q == R.Survivors(v)
    requires i < |q| && i == (if R.Ahead(v) < |q| then R.Ahead(v) else 0) && q[i] < |v.state| && v.state[q[i]] == R.Running
    ensures R.Next(v) == q[i] && R.Tick(v) == R.View(q, R.At(q[i]), v.state)
  {
    R.CandidatesBelow(v);
    assert R.Candidates(v)[0] == q[i];
  }

  /** The queue of three shells and a child of the first, with the cursor at `k`. */
  ghost predicate FourQueued(v: R.View, k: nat) {
    && v.queue == [0, 1, 2, 3] && v.cursor == R.At(k) && k < 4 && |v.state| >= 4
    && v.state[1] == v.state[2] == v.state[3] == R.Running && v.state[0] == R.Inactive
  }

  lemma TurnPasses(s: State, k: nat, r: State)
    requires Inv(s) && FourQueued(s.run, k) && k < 3 && r == Dispatch(s) && E.ParentAndChild(s.procs, 0, 3)
    ensures Inv(r) && FourQueued(r.run, k + 1) && r.procs.curr == k + 1 && !r.trap && E.ParentAndChild(r.procs, 0, 3)
  {
    E.DispatchKeeps(s, 0, 3);
    ChainEndRuns(s, 0);
    R.IndexOfUnique(s.run.queue, k);
    NextInLine(s.run, s.run.queue, k + 1);
  }

  /** After the child has halted the turn goes back to its parent. */
  lemma TurnReturns(s: State, r: State)
    requires Inv(s) && s.run.queue == [0, 1, 2, 3] && s.run.cursor == R.At(3) && r == Dispatch(s)
    requires s.run.state[3] == R.Finished && s.run.state[0] == R.Running
    ensures Inv(r) && r.procs.curr == 0 && r.procs.status == s.procs.status
  {
    E.DispatchKeeps(s, 0, 3);
    ChainEndRuns(s, 0);
    R.IndexOfUnique(s.run.queue, 3);
    var q := R.Survivors(s.run);
    assert q == [0, 1, 2];
    NextInLine(s.run, q, 0);
  }

  // ---- the first steps after boot ----

  /** Boot and the first tick: shell 0 runs on the displayed terminal 0. */
  lemma FirstTick(n: nat, frames: seq<G.Page>, s: State)
    requires 4 <= n && |frames| == SHELLS + 1 && s == Boot(n, frames)
    ensures Inv(s) && Legal(s, [Tick])
    ensures var r := Dispatch(s);
            && Inv(r) && r.Size() == n && !r.trap && r.procs == P.Booted(n) && P.FreePid(r.procs.live) == 3
            && r.run == R.View([0, 1, 2], R.At(0), s.run.state) && r.video == s.video
  {
    BootInv(n, frames);
    DispatchInv(s);
    ChainEndRuns(s, 0);
    NextInLine(s.run, [0, 1, 2], 0);
    assert s.procs.live[0] && s.procs.live[1] && s.procs.live[2] && !s.procs.live[3];
    assert [Tick][1..] == [];
  }

  /** At boot terminal 0 is displayed, shell 0 writes to the VGA page and shells 1 and 2 to pages 0xba and 0xbb. */
  lemma BootVideo(n: nat, frames: seq<G.Page>, v: G.View)
    requires 3 <= n && |frames| == 4 && v == Boot(n, frames).video
    ensures v.frames == frames && |v.frames[0]| == 4096 && v.displayed == 0 && v.cr3 == 0 && |v.entry| == n
    ensures v.entry[0] == 0xb8 && v.entry[1] == 0xba && v.entry[2] == 0xbb
  {
  }

  /** The first write after boot, by shell 0, changes the VGA page and no other; one after a switch to terminal 1 changes page 0xb9. */
  lemma FirstWrite(n: nat, frames: seq<G.Page>, s: State, r: State, contents: G.Page)
    requires 4 <= n && |frames| == 4 && s == Boot(n, frames)
    requires Inv(s) && r == Dispatch(s) && Inv(r) && Inv(SwitchTo(r, 1))
    ensures !r.trap && Step(r, Write(contents)).video.frames == frames[0 := contents]
    ensures !SwitchTo(r, 1).trap
    ensures Step(SwitchTo(r, 1), Write(contents)).video.frames == [frames[2], contents, frames[2], frames[3]]
  {
    FirstTick(n, frames, s);
    BootVideo(n, frames, s.video);
    var w := SwitchTo(r, 1);
    assert w.video.frames == [frames[2], frames[0], frames[2], frames[3]];
    assert r.procs.chains == [[0], [1], [2]];
    assert w.video.entry[0] == 0xb9 && w.video.cr3 == 0;
  }

  /** Shell 0 then starts a program. */
  lemma FirstExecute(n: nat, frames: seq<G.Page>, s: State, r: State)
    requires 4 <= n && |frames| == SHELLS + 1 && s == Boot(n, frames) && Inv(s) && Inv(Dispatch(s)) && !Dispatch(s).trap
    requires r == ExecuteBody(Dispatch(s), Loads)
    ensures Inv(r) && r.Size() == n && r.trap && FourQueued(r.run, 0) && E.ParentAndChild(r.procs, 0, 3)
  {
    FirstTick(n, frames, s);
    E.ExecuteMakesChild(Dispatch(s));
    StepInv(Dispatch(s), Execute(Loads));
  }

  // ---- status 239 ----

  lemma OneStep(s: State, e: Event, rest: seq<Event>, w: State, p: nat, c: nat)
    requires Inv(s) && Enabled(s, e) && w == Step(s, e) && Inv(w) && Legal(w, rest) && p < s.Size() == w.Size()
    ensures Legal(s, [e] + rest)
    ensures E.Returned(s, [e] + rest, p) ==
            if e.Tick? && w.procs.curr == p then E.Got(w.procs.status[p]) else E.Returned(w, rest, p)
    ensures E.HaltedWith(s, [e] + rest, c) ==
            if e.Halt? && s.procs.curr == c then E.Got(e.status) else E.HaltedWith(w, rest, c)
  {
    assert ([e] + rest)[1..] == rest;
  }

  lemma HaltAndReturn(s: State, status: Byte)
    requires Inv(s) && FourQueued(s.run, 3) && !s.trap && s.procs.curr == 3 && E.ParentAndChild(s.procs, 0, 3)
    ensures var h := HaltBody(s, status);
            && Inv(h) && h.Size() == s.Size() && Inv(Dispatch(h)) && Dispatch(h).Size() == s.Size()
            && Dispatch(h).procs.curr == 0 && Dispatch(h).procs.status[0] == P.Delivered(status)
  {
    var h := HaltBody(s, status);
    E.ChildHalts(s, status, 0, 3);
    StepInv(s, Halt(status));
    StepInv(h, Tick);
    assert P.ParentOf(s.procs, 3) == 0;
    TurnReturns(h, Dispatch(h));
  }

  /** A run from boot in which shell 0's execute returns 0 because its child halted with 239. */
  lemma StatusLost(n: nat, frames: seq<G.Page>, s: State, started: State) returns (es: seq<Event>)
    requires 4 <= n && |frames| == SHELLS + 1 && s == Boot(n, frames) && Inv(s) && Inv(Dispatch(s)) && !Dispatch(s).trap
    requires started == ExecuteBody(Dispatch(s), Loads)
    ensures Inv(started) && Legal(started, es) && 0 < started.Size()
    ensures E.HaltedWith(started, es, 3) == E.Got(239) && E.Returned(started, es, 0) == E.Got(0)
  {
    FirstExecute(n, frames, s, started);
    var s1 := Dispatch(started);
    TurnPasses(started, 0, s1);
    var s2 := Dispatch(s1);
    TurnPasses(s1, 1, s2);
    var s3 := Dispatch(s2);
    TurnPasses(s2, 2, s3);
    HaltAndReturn(s3, P.EHALT);
    es := Assemble(started, s1, s2, s3, HaltBody(s3, P.EHALT));
  }

  lemma Assemble(s: State, s1: State, s2: State, s3: State, h: State) returns (es: seq<Event>)
    requires Inv(s) && Inv(s1) && Inv(s2) && Inv(s3) && Inv(h) && Inv(Dispatch(h)) && !s3.trap
    requires s1 == Dispatch(s) && s2 == Dispatch(s1) && s3 == Dispatch(s2) && h == HaltBody(s3, P.EHALT)
    requires s1.procs.curr == 1 && s2.procs.curr == 2 && s3.procs.curr == 3
    requires Dispatch(h).procs.curr == 0 && Dispatch(h).procs.status[0] == P.Delivered(P.EHALT)
    requires 0 < s.Size() == s1.Size() == s2.Size() == s3.Size() == h.Size() == Dispatch(h).Size()
    ensures Legal(s, es) && E.HaltedWith(s, es, 3) == E.Got(P.EHALT) && E.Returned(s, es, 0) == E.Got(0)
  {
    var e4 := [Tick] + [];
    OneStep(h, Tick, [], Dispatch(h), 0, 3);
    var e3 := [Halt(P.EHALT)] + e4;
    OneStep(s3, Halt(P.EHALT), e4, h, 0, 3);
    var e2 := [Tick] + e3;
    OneStep(s2, Tick, e3, s3, 0, 3);
    var e1 := [Tick] + e2;
    OneStep(s1, Tick, e2, s2, 0, 3);
    es := [Tick] + e1;
    OneStep(s, Tick, e1, s1, 0, 3);
  }

  // ---- the wrong label ----

  /** Tick, a switch to terminal 1, and an execute by shell 0: the new process is labelled 1 but belongs to terminal 0. */
  lemma LabelWrong(n: nat, frames: seq<G.Page>, s: State)
    requires 4 <= n && |frames| == SHELLS + 1 && s == Boot(n, frames)
    ensures Inv(s) && Inv(Dispatch(s)) && Inv(SwitchTo(Dispatch(s), 1)) && !SwitchTo(Dispatch(s), 1).trap
    ensures Enabled(s, Tick) && Enabled(Dispatch(s), Switch(1)) && Enabled(SwitchTo(Dispatch(s), 1), Execute(Loads))
    ensures var r := ExecuteBody(SwitchTo(Dispatch(s), 1), Loads);
            |r.procs.live| == n && r.procs.live[3] && r.procs.terminal[3] == 1 && r.procs.home[3] == 0
  {
    FirstTick(n, frames, s);
    SwitchInv(Dispatch(s), 1);
  }

  // ---- the failed load ----

  /** Tick, and shell 0 executes a file whose second block does not exist: it gets an error, and pid 3's address space. */
  lemma FailedLoadSwitches(n: nat, frames: seq<G.Page>, s: State)
    requires 4 <= n && |frames| == SHELLS + 1 && s == Boot(n, frames)
    ensures Inv(s) && Inv(Dispatch(s)) && !Dispatch(s).trap
    ensures F.ValidImage(L.Broken()) && Enabled(Dispatch(s), Execute(L.Outcome(L.Broken(), [97, 0])))
    ensures var r := ExecuteBody(Dispatch(s), L.Outcome(L.Broken(), [97, 0]));
            !r.trap && r.procs.curr == 0 && r.video.cr3 == 3
  {
    FirstTick(n, frames, s);
    L.BrokenFailsToLoad(L.Broken());
  }
}
