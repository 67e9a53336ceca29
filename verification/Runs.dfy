/** Runs of the kernel: sequences of enabled steps, and what holds in every state they reach. */
module Runs {
  import opened KernelBase
  import opened Machine
  import R = RunQueueView
  import P = ProcessView
  import G = VideoView

  ghost predicate Legal(s: State, es: seq<Event>)
    requires Inv(s)
    decreases |es|
  {
    es == [] || (Enabled(s, es[0]) && (StepInv(s, es[0]); Legal(Step(s, es[0]), es[1..])))
  }

  ghost function Run(s: State, es: seq<Event>): (r: State)
    requires Inv(s) && Legal(s, es)
    ensures Inv(r) && r.Size() == s.Size()
    decreases |es|
  {
    if es == [] then s else (StepInv(s, es[0]); Run(Step(s, es[0]), es[1..]))
  }

  /** A state some run from boot leads to. */
  ghost predicate Reachable(s: State) {
    exists n: nat, frames: seq<G.Page>, es: seq<Event> ::
      && SHELLS <= n && |frames| == SHELLS + 1
      && (BootInv(n, frames); Legal(Boot(n, frames), es))
      && s == (BootInv(n, frames); Run(Boot(n, frames), es))
  }

  lemma ReachableInv(s: State)
    requires Reachable(s)
    ensures Inv(s)
  {
  }

  /** The run queue holds each live pid exactly once; only a process that has just halted may linger. */
  lemma QueueHoldsLivePids(s: State)
    requires Reachable(s)
    ensures Distinct(s.run.queue)
    ensures forall p: nat :: p < s.Size() && s.procs.live[p] ==> p in s.run.queue
    ensures !s.trap ==> forall p: nat :: p in s.run.queue <==> p < s.Size() && s.procs.live[p]
    ensures forall p :: p in s.run.queue && !(p < s.Size() && s.procs.live[p]) ==>
              s.trap && s.run.cursor == R.At(p) && p < |s.run.state| && s.run.state[p] == R.Finished
  {
    ReachableInv(s);
  }

  /** A chain's processes wait for one another: only the last can run. */
  lemma ChainsWait(s: State, t: nat, i: nat)
    requires Reachable(s) && t < |s.procs.chains| && i < |s.procs.chains[t]|
    ensures |s.procs.chains| == SHELLS && s.procs.chains[t][0] == t
    ensures var p := s.procs.chains[t][i];
            && p < s.Size() && s.procs.live[p]
            && s.run.state[p] == if i == |s.procs.chains[t]| - 1 then R.Running else R.Inactive
  {
    ReachableInv(s);
    assert P.Seated(s.procs, t, i) && P.Seated(s.procs, t, 0);
  }

  /** No process is in two chains or twice in one, and every live one is in some chain. */
  lemma ChainsPartition(s: State, p: nat)
    requires Reachable(s) && p < s.Size()
    ensures s.procs.live[p] <==> exists t, i :: 0 <= t < |s.procs.chains| && 0 <= i < |s.procs.chains[t]| && s.procs.chains[t][i] == p
    ensures forall t, i, u, j ::
              (0 <= t < |s.procs.chains| && 0 <= i < |s.procs.chains[t]| && s.procs.chains[t][i] == p &&
               0 <= u < |s.procs.chains| && 0 <= j < |s.procs.chains[u]| && s.procs.chains[u][j] == p)
              ==> t == u && i == j
  {
    ReachableInv(s);
    if s.procs.live[p] {
      assert P.OnChain(s.procs, p);
    }
    forall t, i | 0 <= t < |s.procs.chains| && 0 <= i < |s.procs.chains[t]| && s.procs.chains[t][i] == p
      ensures s.procs.live[p] && t == s.procs.home[p] && i == s.procs.depth[p]
    {
      assert P.Seated(s.procs, t, i);
    }
  }

  /** Every live process's video entry follows the terminal at the root of its chain. */
  lemma EntriesFollowTerminals(s: State, t: nat, i: nat)
    requires Reachable(s) && t < |s.procs.chains| && i < |s.procs.chains[t]|
    ensures s.procs.chains[t][i] < |s.video.entry|
    ensures s.video.entry[s.procs.chains[t][i]] == G.VGA <==> t == s.video.displayed
    ensures t != s.video.displayed ==> s.video.entry[s.procs.chains[t][i]] == G.BackOf(t)
  {
    ReachableInv(s);
    assert P.Seated(s.procs, t, i);
  }
}
