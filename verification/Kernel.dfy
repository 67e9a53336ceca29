/**
  The kernel object: run queue, process control blocks and page tables updated in
  place by `kexecute`, `khalt`, `pit_handler` and `switch_terminals`. Every operation
  is proved to be the corresponding step of `Machine`.
 */
module Kernel {
  import opened KernelBase
  import opened Machine
  import opened Runs
  import R = RunQueueView
  import P = ProcessView
  import G = VideoView
  import RunQueue
  import ProcessTable
  import Video
  import F = FileSystem
  import L = Loader

  // ---- what the operations need to know of the machine's state ----

  lemma DispatchReady(s: State)
    requires Inv(s)
    ensures R.WellFormed(s.run) && R.CanDispatch(s.run) && P.WellFormed(s.procs) && Inv(Dispatch(s))
    ensures s.run.cursor.AtSentinel? ==> s.run.queue != [] && s.run.state[s.run.queue[0]] == R.Running
    ensures var run := R.Tick(s.run);
            && run.cursor.pid < s.Size()
            && Dispatch(s) == State(run, P.Resume(s.procs, run.cursor.pid), s.video.(cr3 := run.cursor.pid), false)
  {
    DispatchInv(s);
    ChainEndRuns(s, 0);
    assert P.Seated(s.procs, 0, 0);
  }

  lemma ExecuteReady(s: State)
    requires Inv(s) && !s.trap
    ensures R.WellFormed(s.run) && P.WellFormed(s.procs) && G.WellFormed(s.video) && P.Leaf(s.procs, s.procs.curr)
    ensures s.procs.curr < s.Size() == |s.run.state| == |s.video.entry|
    ensures var c := P.FreePid(s.procs.live);
            && SHELLS <= c <= s.Size()
            && (c < s.Size() ==> !s.procs.live[c] && c !in s.run.queue)
  {
    ShellsLive(s);
  }

  /** The run queue once the first `t` shells are scheduled. */
  function ShellQueue(n: nat, t: nat): (v: R.View) {
    R.View(seq(t, i => i), R.AtSentinel, seq(n, p => if p < t then R.Running else R.Inactive))
  }

  lemma ShellQueued(n: nat, t: nat, v: R.View)
    requires t < n && v == ShellQueue(n, t) && R.WellFormed(v)
    ensures t !in v.queue && R.Schedule(v, t, R.AtSentinel) == ShellQueue(n, t + 1)
  {
    assert v.state[t := R.Running] == ShellQueue(n, t + 1).state;
    assert v.queue + [t] == ShellQueue(n, t + 1).queue;
  }

  lemma BootState(n: nat, contents: seq<G.Page>)
    requires SHELLS <= n && |contents| == SHELLS + 1
    ensures Inv(Boot(n, contents))
    ensures Boot(n, contents) == State(ShellQueue(n, SHELLS), P.Booted(n), G.Initial(n, contents), true)
    ensures |ShellQueue(n, SHELLS).state| == |P.Booted(n).live| == |G.Initial(n, contents).entry| == n
  {
    BootInv(n, contents);
    assert ShellQueue(n, SHELLS) == Boot(n, contents).run;
  }

  class Kernel {
    const sched: RunQueue.Scheduler
    const procs: ProcessTable.Table
    const video: Video.Memory

    ghost predicate Fits()
      reads sched, sched.own, procs, procs.own, procs.pidArr, video, video.frames, video.tables
    {
      && sched.Valid() && procs.Valid() && video.Valid()
      && |sched.view.state| == |procs.view.live| == |video.view.entry|
    }

    /** `Fits` as a single fact. */
    ghost predicate Valid()
      reads sched, sched.own, procs, procs.own, procs.pidArr, video, video.frames, video.tables
    {
      Fits() == true
    }

    /** The state the object represents; `trap` says whether `int $32` is about to be raised. */
    ghost function Now(trap: bool): (s: State)
      reads sched, procs, video
    {
      State(sched.view, procs.view, video.view, trap)
    }

    /** The object is intact and the state it represents satisfies the machine's invariant. */
    ghost predicate Sound(trap: bool)
      reads sched, sched.own, procs, procs.own, procs.pidArr, video, video.frames, video.tables
    {
      Valid() && (Inv(Now(trap)) == true)
    }

    // ---- dispatch ----

    method ResetCurrProcess(pid: nat)
      requires Valid() && pid < |procs.view.live|
      modifies procs`currProcess, procs`view, video`cr3, video`view
      ensures Valid() && P.WellFormed(old(procs.view))
      ensures procs.view == P.Resume(old(procs.view), pid)
      ensures video.view == old(video.view).(cr3 := pid)
    {
      procs.Resume(pid);
      assert sched.Valid() && video.Valid();
      video.Activate(pid);
      assert sched.Valid() && procs.Valid();
    }

    method TickScheduler(ghost trap: bool) returns (next: nat)
      requires Sound(trap)
      modifies sched, sched.own
      ensures Valid() && sched.view == Dispatch(old(Now(trap))).run && next == sched.view.cursor.pid
    {
      DispatchReady(Now(trap));
      sched.PitHandler();
      assert procs.Valid() && video.Valid();
      next := sched.currNode.pid;
    }

    /** pit_handler, raised by the timer or by `int $32`. */
    method PitHandler(ghost trap: bool)
      requires Sound(trap)
      modifies sched, sched.own, procs`currProcess, procs`view, video`cr3, video`view
      ensures Sound(false) && Now(false) == Dispatch(old(Now(trap)))
    {
      DispatchReady(Now(trap));
      var next := TickScheduler(trap);
      ResetCurrProcess(next);
    }

    // ---- execute ----

    method InheritPaging(pid: nat, curr: nat)
      requires Valid() && pid < |procs.view.live| && curr < |procs.view.live|
      modifies video, video.tables
      ensures Valid() && G.WellFormed(old(video.view)) && video.view == G.Inherit(old(video.view), pid, curr)
    {
      video.Inherit(pid, curr);
      assert sched.Valid() && procs.Valid();
    }

    /** The new control block becomes current; the parent's page directory is made active again. */
    method AdoptChild(pid: nat, curr: nat)
      requires Valid() && P.WellFormed(procs.view) && P.Leaf(procs.view, procs.view.curr)
      requires SHELLS <= pid < |procs.view.live| && !procs.view.live[pid] && curr < |procs.view.live|
      modifies procs, procs.own, procs.pidArr, video`cr3, video`view
      ensures Valid() && procs.view == P.Spawn(old(procs.view), pid, old(video.view.displayed))
      ensures video.view == old(video.view).(cr3 := curr)
    {
      procs.Spawn(pid, video.currTerminal);
      assert sched.Valid() && video.Valid();
      video.Activate(curr);
      assert sched.Valid() && procs.Valid();
    }

    method Enlist(pid: nat, curr: nat)
      requires Valid() && pid < |procs.view.live| && curr < |procs.view.live| && pid !in sched.view.queue
      modifies sched, sched.own
      ensures Valid() && R.WellFormed(old(sched.view)) && sched.view == R.Schedule(old(sched.view), pid, R.At(curr))
    {
      sched.Schedule(pid, R.At(curr));
      assert procs.Valid() && video.Valid();
    }

    method StartProcess(pid: nat, curr: nat)
      requires Valid() && P.WellFormed(procs.view) && P.Leaf(procs.view, procs.view.curr)
      requires SHELLS <= pid < |procs.view.live| && !procs.view.live[pid] && curr < |procs.view.live|
      requires pid !in sched.view.queue
      modifies sched, sched.own, procs, procs.own, procs.pidArr, video, video.tables
      ensures Valid() && R.WellFormed(old(sched.view)) && G.WellFormed(old(video.view))
      ensures sched.view == R.Schedule(old(sched.view), pid, R.At(curr))
      ensures procs.view == P.Spawn(old(procs.view), pid, old(video.view.displayed))
      ensures video.view == G.Inherit(old(video.view), pid, curr).(cr3 := curr)
    {
      InheritPaging(pid, curr);
      AdoptChild(pid, curr);
      Enlist(pid, curr);
    }

    /** kexecute up to its `int $32`; false stands for its error return. */
    method Execute(program: Program) returns (started: bool)
      requires Sound(false)
      modifies sched, sched.own, procs, procs.own, procs.pidArr, video, video.tables
      ensures Sound(started) && Now(started) == ExecuteBody(old(Now(false)), program)
    {
      ExecuteInv(Now(false), program);
      ExecuteReady(Now(false));
      var pid := procs.FreePidIdx();
      if pid == -1 || program == NotExecutable { return false; }
      var curr := procs.currProcess.pid;
      if program == FailsToLoad {
        InheritPaging(pid, curr);
        return false;
      }
      StartProcess(pid, curr);
      return true;
    }

    /** kexecute on a command name: the image decides what becomes of it. */
    method ExecuteNamed(img: F.Image, fname: seq<Byte>) returns (started: bool)
      requires Sound(false) && F.ValidImage(img) && F.Scannable(fname)
      modifies sched, sched.own, procs, procs.own, procs.pidArr, video, video.tables
      ensures Sound(started) && Now(started) == ExecuteBody(old(Now(false)), L.Outcome(img, fname))
    {
      var program := L.Prepare(img, fname);
      assert Sound(false);
      started := Execute(program);
    }

    // ---- halt ----

    method Reap(status: Byte) returns (curr: nat, parent: nat)
      requires Valid() && P.WellFormed(procs.view) && P.Leaf(procs.view, procs.view.curr) && SHELLS <= procs.view.curr
      modifies procs, procs.own, procs.pidArr
      ensures Valid() && procs.view == P.Reap(old(procs.view), status)
      ensures curr == old(procs.view).curr && parent == P.ParentOf(old(procs.view), curr)
    {
      curr := procs.currProcess.pid;
      parent := procs.CurrentParent();
      procs.Reap(status);
      assert sched.Valid() && video.Valid();
    }

    method Retire(curr: nat, parent: nat)
      requires Valid() && curr < |procs.view.live| && parent < |procs.view.live|
      modifies sched, sched.own
      ensures Valid() && R.WellFormed(old(sched.view))
      ensures sched.view == R.Unschedule(old(sched.view), curr, parent, SHELLS)
    {
      sched.Unschedule(curr, parent, SHELLS);
      assert procs.Valid() && video.Valid();
    }

    /** khalt up to its `int $32`; a shell only restarts itself. */
    method Halt(status: Byte) returns (halted: bool)
      requires Sound(false)
      modifies sched, sched.own, procs, procs.own, procs.pidArr
      ensures Sound(halted) && Now(halted) == HaltBody(old(Now(false)), status)
    {
      HaltInv(Now(false), status);
      ExecuteReady(Now(false));
      if procs.currProcess.pid < SHELLS { return false; }
      var curr, parent := Reap(status);
      Retire(curr, parent);
      return true;
    }

    // ---- terminal switch ----

    /** One of the two walks of swap_vid_mem: redirects the entry of every process of terminal `t`. */
    method RedirectChain(t: nat, page: nat)
      requires Valid() && t < SHELLS && G.VGA <= page <= G.VGA + SHELLS && P.WellFormed(procs.view)
      modifies video`view, video.tables
      ensures Valid()
      ensures video.view == old(video.view).(entry := G.Redirect(old(video.view.entry), procs.view.chains[t], page))
    {
      ghost var c, i := procs.view.chains[t], 0;
      procs.ChildInChain(t, 0);
      var p: ProcessTable.Pcb? := procs.root[t];
      while p != null
        invariant Valid() && i <= |c|
        invariant p == if i < |c| then procs.pcbs[c[i]] else null
        invariant video.view == old(video.view).(entry := G.Redirect(old(video.view.entry), c[..i], page))
        decreases |c| - i
      {
        procs.ChildInChain(t, i);
        video.Remap(p.pid, page);
        assert sched.Valid() && procs.Valid();
        p := p.child;
        assert c[..i + 1] == c[..i] + [c[i]];
        i := i + 1;
      }
      assert c[..i] == c;
    }

    method SwapPages(term: nat)
      requires Valid() && term < SHELLS && term != video.view.displayed && G.WellFormed(video.view)
      modifies video`view, video.frames
      ensures Valid() && video.view == old(video.view).(frames := G.Switch(old(video.view), term, [], [], 0).frames)
    {
      video.SwapPages(term);
      assert sched.Valid() && procs.Valid();
    }

    method Show(term: nat, curr: nat)
      requires Valid() && term < SHELLS && curr < |procs.view.live|
      modifies video`view, video`cr3, video`currTerminal
      ensures Valid() && video.view == old(video.view).(cr3 := curr, displayed := term)
    {
      video.Activate(curr);
      video.SetDisplayed(term);
      assert sched.Valid() && procs.Valid();
    }

    /** The page copies and entry redirections of a switch to another terminal. */
    method SwitchVideo(term: nat)
      requires Valid() && term < SHELLS && term != video.view.displayed && P.WellFormed(procs.view)
      requires G.WellFormed(video.view)
      modifies video, video.frames, video.tables
      ensures Valid()
      ensures video.view == G.Switch(old(video.view), term, procs.view.chains[old(video.view.displayed)],
                                     procs.view.chains[term], procs.view.curr)
    {
      var shown := video.currTerminal;
      SwapPages(term);
      RedirectChain(shown, G.BackOf(shown));
      RedirectChain(term, G.VGA);
      Show(term, procs.currProcess.pid);
    }

    /** switch_terminals */
    method SwitchTerminals(term: nat, ghost trap: bool)
      requires Sound(trap) && term < SHELLS
      modifies video, video.frames, video.tables
      ensures Sound(trap) && Now(trap) == SwitchTo(old(Now(trap)), term)
    {
      SwitchInv(Now(trap), term);
      if term != video.currTerminal { SwitchVideo(term); }
    }

    // ---- output ----

    /** A program's output, through its entry for video memory. */
    method Write(contents: G.Page)
      requires Sound(false)
      modifies video, video.frames
      ensures Sound(false) && Now(false) == Step(old(Now(false)), Event.Write(contents))
    {
      StepInv(Now(false), Event.Write(contents));
      video.Write(contents);
      assert sched.Valid() && procs.Valid();
    }

    /** Keyboard echo, through the alias of the VGA page. */
    method Echo(contents: G.Page, ghost trap: bool)
      requires Sound(trap)
      modifies video, video.frames
      ensures Sound(trap) && Now(trap) == Step(old(Now(trap)), Key(contents))
    {
      StepInv(Now(trap), Key(contents));
      video.Echo(contents);
      assert sched.Valid() && procs.Valid();
    }

    // ---- whole runs ----

    method Perform(e: Event, ghost trap: bool) returns (ghost trapNow: bool)
      requires Sound(trap) && Enabled(Now(trap), e)
      modifies sched, sched.own, procs, procs.own, procs.pidArr, video, video.frames, video.tables
      ensures Sound(trapNow) && Now(trapNow) == Step(old(Now(trap)), e)
    {
      match e
      case Execute(program) =>
        var started := Execute(program);
        trapNow := started;
      case Halt(status) =>
        var halted := Halt(status);
        trapNow := halted;
      case Tick =>
        PitHandler(trap);
        trapNow := false;
      case Switch(term) =>
        SwitchTerminals(term, trap);
        trapNow := trap;
      case Write(contents) =>
        Write(contents);
        trapNow := trap;
      case Key(contents) =>
        Echo(contents, trap);
        trapNow := trap;
    }

    /** Any run of the object is a run of the machine. */
    method RunAll(es: seq<Event>, ghost trap: bool) returns (ghost trapNow: bool)
      requires Sound(trap) && Legal(Now(trap), es)
      modifies sched, sched.own, procs, procs.own, procs.pidArr, video, video.frames, video.tables
      ensures Sound(trapNow) && Now(trapNow) == Run(old(Now(trap)), es)
    {
      trapNow := trap;
      for i := 0 to |es|
        invariant Sound(trapNow) && Legal(Now(trapNow), es[i..])
        invariant Run(Now(trapNow), es[i..]) == Run(old(Now(trap)), es)
      {
        assert es[i..][1..] == es[i + 1..];
        trapNow := Perform(es[i], trapNow);
      }
    }

    static method ScheduleShells(n: nat) returns (s: RunQueue.Scheduler)
      requires SHELLS <= n
      ensures s.Valid() && fresh(s) && fresh(s.own) && s.view == ShellQueue(n, SHELLS)
    {
      s := new RunQueue.Scheduler(n);
      assert s.view == ShellQueue(n, 0);
      for t := 0 to SHELLS
        invariant s.Valid() && fresh(s) && fresh(s.own) && s.view == ShellQueue(n, t)
      {
        s.SizeAndOrder();
        ShellQueued(n, t, s.view);
        s.Schedule(t, R.AtSentinel);
      }
    }

    /** Boot: the first `kexecute` has opened three shells and is about to raise the first dispatch. */
    constructor (n: nat, contents: seq<G.Page>)
      requires SHELLS <= n && |contents| == SHELLS + 1
      ensures Sound(true) && Now(true) == Boot(n, contents)
      ensures fresh(sched) && fresh(sched.own) && fresh(procs) && fresh(procs.own) && fresh(procs.pidArr)
      ensures fresh(video) && fresh(video.frames) && fresh(video.tables)
    {
      var s := ScheduleShells(n);
      var t := new ProcessTable.Table(n);
      assert s.Valid();
      var m := new Video.Memory(n, contents);
      assert s.Valid() && t.Valid();
      sched, procs, video := s, t, m;
      new;
      BootState(n, contents);
      assert sched.Valid() && procs.Valid() && video.Valid();
      assert Valid();
      assert Now(true) == Boot(n, contents);
    }

    /** From boot through any legal sequence of events. */
    static method BootAndRun(n: nat, contents: seq<G.Page>, es: seq<Event>) returns (k: Kernel, ghost trap: bool)
      requires SHELLS <= n && |contents| == SHELLS + 1 && (BootInv(n, contents); Legal(Boot(n, contents), es))
      ensures fresh(k) && k.Sound(trap) && Inv(Boot(n, contents)) && k.Now(trap) == Run(Boot(n, contents), es)
    {
      BootInv(n, contents);
      k := new Kernel(n, contents);
      trap := k.RunAll(es, true);
    }

    // ---- what holds of the tables and the control blocks themselves ----

    /** The alias maps the VGA page and the backing pages map themselves; the 0xb8 entry follows the terminal. */
    lemma TablesHold(trap: bool, p: nat)
      requires Sound(trap) && p < video.tables.Length0
      ensures video.tables.Length0 == |procs.view.live| && video.tables.Length1 == Video.ENTRIES
      ensures video.tables[p, 0xb7] == 0xb8
      ensures video.tables[p, 0xb9] == 0xb9 && video.tables[p, 0xba] == 0xba && video.tables[p, 0xbb] == 0xbb
      ensures p < |procs.view.home| && (procs.view.live[p] ==>
                video.tables[p, 0xb8] ==
                if procs.view.home[p] == video.currTerminal then 0xb8 else 0xb9 + procs.view.home[p])
    {
      assert video.FixedEntries(p);
      assert video.tables[p, G.BackOf(0)] == 0xb9 && video.tables[p, G.BackOf(1)] == 0xba && video.tables[p, G.BackOf(2)] == 0xbb;
      assert Inv(Now(trap));
    }

    /**
      Between operations the run queue is one ring through the sentinel, next and prev are
      inverse, and it contains the node of a pid exactly if the pid is marked.
     */
    lemma RingHolds(p: nat, k: nat)
      requires Sound(false) && p < |sched.nodes| && k < |sched.ring|
      ensures Distinct(sched.ring) && sched.ring[0] == sched.sentinel && sched.sentinel.prev == sched.tail
      ensures p < procs.pidArr.Length && (procs.pidArr[p] <==> sched.nodes[p] in sched.ring)
      ensures var n := sched.ring[k];
              n.next != null && n.next.prev == n && n.prev != null && n.prev.next == n &&
              n.next == sched.ring[if k + 1 < |sched.ring| then k + 1 else 0]
    {
      sched.SizeAndOrder();
      sched.RingHolds(k);
      sched.InRingIff(p);
      assert Inv(Now(false));
      assert procs.pidArr[p] == procs.view.live[p];
    }

    /** Among live processes parent and child pointers are inverse. */
    lemma PointersInverse(trap: bool, p: nat, q: nat)
      requires Sound(trap) && p < |procs.pcbs| && q < |procs.pcbs| && p < procs.pidArr.Length && q < procs.pidArr.Length
      requires procs.pidArr[p] && procs.pidArr[q]
      ensures procs.pcbs[p].parent == procs.pcbs[q] <==> procs.pcbs[q].child == procs.pcbs[p]
    {
      procs.PointersInverse(p, q);
    }
  }
}
