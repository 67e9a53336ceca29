/**
  The kernel as a state machine. A state is the run queue, the process table and
  video memory, plus whether the processor is about to raise the `int $32` that ends
  the bodies of `kexecute` and `khalt`. A step is one of: the body of `kexecute`, the
  body of `khalt`, a dispatch by `pit_handler`, a terminal switch, a program's write
  to its terminal, and keyboard echo.
 */
module Machine {
  import opened KernelBase
  import R = RunQueueView
  import P = ProcessView
  import G = VideoView

  datatype State = State(run: R.View, procs: P.View, video: G.View, trap: bool) {
    function Size(): nat { |procs.live| }
  }

  /** What `kexecute` finds under the command: no executable, one that fails to load, or a good one. */
  datatype Program = NotExecutable | FailsToLoad | Loads

  datatype Event =
    | Execute(program: Program)
    | Halt(status: Byte)
    | Tick
    | Switch(term: nat)
    | Write(contents: G.Page)
    | Key(contents: G.Page)

  /** While `int $32` is pending the current process does nothing else; interrupts still arrive. */
  predicate Enabled(s: State, e: Event) {
    match e
    case Tick => true
    case Key(_) => true
    case Switch(t) => t < SHELLS
    case _ => !s.trap
  }

  ghost predicate Sized(s: State) {
    && R.WellFormed(s.run) && P.WellFormed(s.procs) && G.WellFormed(s.video)
    && |s.run.state| == |s.video.entry| == s.Size()
  }

  /** A halted process whose node still sits in the ring, under the cursor. */
  predicate Halting(s: State, p: nat)
  {
    s.trap && s.run.cursor == R.At(p)
  }

  /** The ring holds every live pid, and beside them at most the process that has just halted. */
  ghost predicate QueueIsLive(s: State)
    requires Sized(s)
  {
    forall p :: 0 <= p < s.Size() ==> (p in s.run.queue <==> s.procs.live[p] || Halting(s, p))
  }

  /** A chain's last process can run, all others wait for their child. */
  ghost predicate LeavesRun(s: State)
    requires Sized(s)
  {
    forall p :: 0 <= p < s.Size() && s.procs.live[p] ==>
      s.run.state[p] == if P.Leaf(s.procs, p) then R.Running else R.Inactive
  }

  ghost predicate CursorFits(s: State)
    requires Sized(s)
  {
    match s.run.cursor
    case AtSentinel =>
      s.trap && s.run.queue == [0, 1, 2] && s.procs.chains == [[0], [1], [2]]
    case At(p) =>
      if !s.trap then p == s.procs.curr && P.Leaf(s.procs, p)
      else if p < s.Size() && s.procs.live[p] then !P.Leaf(s.procs, p)
      else p < s.Size() && s.run.state[p] == R.Finished
  }

  /** Each live pid's video entry maps the VGA page exactly while its chain's terminal is displayed. */
  ghost predicate EntriesFit(s: State)
    requires Sized(s)
  {
    && (forall p :: 0 <= p < s.Size() && s.procs.live[p] ==>
         s.video.entry[p] == G.PageFor(s.procs.home[p], s.video.displayed))
    && (!s.trap ==> s.video.entry[s.video.cr3] == s.video.entry[s.procs.curr])
  }

  ghost predicate Inv(s: State) {
    Sized(s) && QueueIsLive(s) && LeavesRun(s) && CursorFits(s) && EntriesFit(s)
  }

  function Boot(n: nat, frames: seq<G.Page>): (s: State)
    requires SHELLS <= n && |frames| == SHELLS + 1
  {
    var run := R.View([0, 1, 2], R.AtSentinel, seq(n, p => if p < SHELLS then R.Running else R.Inactive));
    State(run, P.Booted(n), G.Initial(n, frames), true)
  }

  lemma ShellsLive(s: State)
    requires Sized(s)
    ensures forall t :: 0 <= t < SHELLS ==> s.procs.live[t]
    ensures P.FreePid(s.procs.live) >= SHELLS
  {
    forall t | 0 <= t < SHELLS ensures s.procs.live[t] { assert P.Seated(s.procs, t, 0); }
  }

  /** The last process of a chain can always be dispatched. */
  lemma ChainEndRuns(s: State, t: nat)
    requires Inv(s) && t < SHELLS
    ensures var p := s.procs.chains[t][|s.procs.chains[t]| - 1];
            p < s.Size() && s.run.state[p] == R.Running && p in R.Survivors(s.run)
    ensures R.CanDispatch(s.run)
  {
    var p := s.procs.chains[t][|s.procs.chains[t]| - 1];
    assert P.Seated(s.procs, t, |s.procs.chains[t]| - 1);
    assert P.Leaf(s.procs, p);
    R.SurvivorsAre(s.run, p);
    R.RunningSurvivorSuffices(s.run, p);
  }

  function ExecuteBody(s: State, program: Program): (r: State)
    requires Inv(s) && !s.trap
  {
    var c, curr := P.FreePid(s.procs.live), s.procs.curr;
    if c == s.Size() || program == NotExecutable then s
    else
      ShellsLive(s);
      if program == FailsToLoad then s.(video := G.Inherit(s.video, c, curr))
      else
        State(R.Schedule(s.run, c, R.At(curr)),
              P.Spawn(s.procs, c, s.video.displayed),
              G.Inherit(s.video, c, curr).(cr3 := curr),
              true)
  }

  function HaltBody(s: State, status: Byte): (r: State)
    requires Inv(s) && !s.trap
  {
    var curr := s.procs.curr;
    if curr < SHELLS then s
    else
      State(R.Unschedule(s.run, curr, P.ParentOf(s.procs, curr), SHELLS), P.Reap(s.procs, status), s.video, true)
  }

  function Dispatch(s: State): (r: State)
    requires Inv(s)
  {
    ChainEndRuns(s, 0);
    var next := R.Next(s.run);
    State(R.Tick(s.run), P.Resume(s.procs, next), s.video.(cr3 := next), false)
  }

  function SwitchTo(s: State, t: nat): (r: State)
    requires Inv(s) && t < SHELLS
  {
    s.(video := G.Switch(s.video, t, s.procs.chains[s.video.displayed], s.procs.chains[t], s.procs.curr))
  }

  function Step(s: State, e: Event): (r: State)
    requires Inv(s) && Enabled(s, e)
  {
    match e
    case Execute(program) => ExecuteBody(s, program)
    case Halt(status) => HaltBody(s, status)
    case Tick => Dispatch(s)
    case Switch(t) => SwitchTo(s, t)
    case Write(contents) => s.(video := G.Write(s.video, contents))
    case Key(contents) => s.(video := G.Echo(s.video, contents))
  }

  // ---- what the steps do, as far as no invariant says it ----

  /** A process starts exactly if there is a free pid and the program loads; otherwise nothing changes for any live process. */
  lemma ExecuteStartsIff(s: State, program: Program, r: State)
    requires Inv(s) && !s.trap && r == ExecuteBody(s, program)
    ensures r.trap <==> program == Loads && exists p :: 0 <= p < s.Size() && !s.procs.live[p]
    ensures r.video.frames == s.video.frames && r.video.displayed == s.video.displayed && |r.video.entry| == s.Size()
    ensures forall p :: 0 <= p < s.Size() && s.procs.live[p] ==> r.video.entry[p] == s.video.entry[p]
    ensures !r.trap ==> r.run == s.run && r.procs == s.procs
  {
  }

  /** A process that has started is current, but the address space is its parent's again. */
  lemma StartedIsCurrent(s: State, r: State)
    requires Inv(s) && !s.trap && P.FreePid(s.procs.live) < s.Size() && r == ExecuteBody(s, Loads)
    ensures r.procs.curr == P.FreePid(s.procs.live) && r.video.cr3 == s.procs.curr
  {
  }

  /** A halt ends the current process exactly if it is no shell. */
  lemma HaltEndsIff(s: State, status: Byte, r: State)
    requires Inv(s) && !s.trap && r == HaltBody(s, status)
    ensures r.trap <==> s.procs.curr >= 3
    ensures r.video == s.video && r.procs.curr == s.procs.curr && (!r.trap ==> r == s)
    ensures forall p :: 0 <= p < s.Size() ==> r.procs.live[p] == (s.procs.live[p] && !(r.trap && p == s.procs.curr))
  {
  }

  /** Queue, control block and address space agree on who runs after a dispatch, and nothing else of them changes. */
  lemma DispatchAgrees(s: State, r: State)
    requires Inv(s) && r == Dispatch(s)
    ensures !r.trap && r.run.cursor == R.At(r.procs.curr) && r.video.cr3 == r.procs.curr
    ensures r.procs == s.procs.(curr := r.procs.curr) && r.video == s.video.(cr3 := r.procs.curr) && r.run.state == s.run.state
  {
  }

  /** A switch shows the terminal asked for and activates the current process's address space; to the displayed one it does nothing. */
  lemma SwitchDisplays(s: State, t: nat, r: State)
    requires Inv(s) && t < 3 && r == SwitchTo(s, t)
    ensures r.video.displayed == t && r.run == s.run && r.procs == s.procs && r.trap == s.trap
    ensures t == s.video.displayed ==> r == s
    ensures t != s.video.displayed ==> r.video.cr3 == s.procs.curr
  {
  }

  /** Interrupts can always come; the current process can do anything unless it is about to raise one itself. */
  lemma EnabledIff(s: State, e: Event)
    ensures Enabled(s, e) <==> e.Tick? || e.Key? || (e.Switch? && e.term < 3) || (!s.trap && !e.Switch?)
  {
  }

  // ---- every step keeps the invariant ----

  lemma BootInv(n: nat, frames: seq<G.Page>)
    requires SHELLS <= n && |frames| == SHELLS + 1
    ensures Inv(Boot(n, frames))
  {
    var s := Boot(n, frames);
    assert forall p :: 0 <= p < n ==> (p in s.run.queue <==> p < SHELLS);
  }

  lemma ExecuteLeaves(s: State, c: nat, r: State)
    requires Inv(s) && !s.trap && c == P.FreePid(s.procs.live) < s.Size() && r == ExecuteBody(s, Loads)
    ensures Sized(r) && LeavesRun(r)
  {
    ShellsLive(s);
    forall p | 0 <= p < s.Size() && r.procs.live[p]
      ensures r.run.state[p] == if P.Leaf(r.procs, p) then R.Running else R.Inactive
    {
      if p != c { assert P.OnChain(s.procs, p); }
    }
  }

  lemma ExecuteEntries(s: State, c: nat, r: State)
    requires Inv(s) && !s.trap && c == P.FreePid(s.procs.live) < s.Size() && r == ExecuteBody(s, Loads) && Sized(r)
    ensures QueueIsLive(r) && CursorFits(r) && EntriesFit(r)
  {
    ShellsLive(s);
  }

  lemma ExecuteInv(s: State, program: Program)
    requires Inv(s) && !s.trap
    ensures Inv(ExecuteBody(s, program))
  {
    var c := P.FreePid(s.procs.live);
    if c < s.Size() && program == Loads {
      var r := ExecuteBody(s, program);
      ExecuteLeaves(s, c, r);
      ExecuteEntries(s, c, r);
    }
  }

  lemma HaltInv(s: State, status: Byte)
    requires Inv(s) && !s.trap
    ensures Inv(HaltBody(s, status))
  {
    var curr := s.procs.curr;
    if SHELLS <= curr {
      var r := HaltBody(s, status);
      forall p | 0 <= p < s.Size() && r.procs.live[p]
        ensures r.run.state[p] == if P.Leaf(r.procs, p) then R.Running else R.Inactive
      {
        assert P.OnChain(s.procs, p);
      }
    }
  }

  lemma DispatchSized(s: State, run: R.View, next: nat)
    requires Inv(s) && R.WellFormed(run) && |run.state| == s.Size() && next < s.Size()
    ensures Sized(State(run, P.Resume(s.procs, next), s.video.(cr3 := next), false))
  {
  }

  lemma DispatchInv(s: State)
    requires Inv(s)
    ensures Inv(Dispatch(s))
  {
    ChainEndRuns(s, 0);
    DispatchSized(s, R.Tick(s.run), R.Next(s.run));
    var r := Dispatch(s);
    forall p | 0 <= p < s.Size() ensures p in r.run.queue <==> r.procs.live[p] {
      R.SurvivorsAre(s.run, p);
    }
  }

  lemma SwitchInv(s: State, t: nat)
    requires Inv(s) && t < SHELLS
    ensures Inv(SwitchTo(s, t))
  {
    forall p | 0 <= p < s.Size() && s.procs.live[p]
      ensures forall u :: 0 <= u < SHELLS ==> (p in s.procs.chains[u] <==> u == s.procs.home[p])
    {
      assert P.OnChain(s.procs, p);
      forall u, i | 0 <= u < SHELLS && 0 <= i < |s.procs.chains[u]| && s.procs.chains[u][i] == p
        ensures u == s.procs.home[p]
      {
        assert P.Seated(s.procs, u, i);
      }
    }
  }

  lemma StepInv(s: State, e: Event)
    requires Inv(s) && Enabled(s, e)
    ensures Inv(Step(s, e)) && Step(s, e).Size() == s.Size()
  {
    match e
    case Execute(program) => ExecuteInv(s, program);
    case Halt(status) => HaltInv(s, status);
    case Tick => DispatchInv(s);
    case Switch(t) => SwitchInv(s, t);
    case Write(contents) =>
    case Key(contents) =>
  }
}
