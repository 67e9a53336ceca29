/**
  One VGA page and three backing pages behave like three independent screens: a run of
  the kernel shows on each terminal exactly what its own processes wrote and what was
  typed while it was on display.
 */
module Screens {
  import opened KernelBase
  import opened Machine
  import opened Runs
  import P = ProcessView
  import G = VideoView

  function ScreensOf(v: G.View): (screens: seq<G.Page>)
    requires G.WellFormed(v)
  {
    [G.Screen(v, 0), G.Screen(v, 1), G.Screen(v, 2)]
  }

  /** What a step does to three independent screens; the writer's screen is that of the shell its chain starts from. */
  ghost function Show(screens: seq<G.Page>, s: State, e: Event): (r: seq<G.Page>)
    requires Inv(s) && Enabled(s, e) && |screens| == SHELLS
    ensures |r| == SHELLS
  {
    match e
    case Write(contents) =>
      assert P.OnChain(s.procs, s.procs.curr);
      screens[s.procs.home[s.procs.curr] := contents]
    case Key(contents) => screens[s.video.displayed := contents]
    case _ => screens
  }

  ghost function ShowAll(screens: seq<G.Page>, s: State, es: seq<Event>): (r: seq<G.Page>)
    requires Inv(s) && Legal(s, es) && |screens| == SHELLS
    decreases |es|
  {
    if es == [] then screens
    else (StepInv(s, es[0]); ShowAll(Show(screens, s, es[0]), Step(s, es[0]), es[1..]))
  }

  /** A terminal switch copies pages and redirects entries, and changes no screen. */
  lemma SwitchShowsNothing(s: State, t: nat)
    requires Inv(s) && t < SHELLS
    ensures Inv(SwitchTo(s, t)) && ScreensOf(SwitchTo(s, t).video) == ScreensOf(s.video)
  {
    SwitchInv(s, t);
    forall u | 0 <= u < SHELLS ensures G.Screen(SwitchTo(s, t).video, u) == G.Screen(s.video, u) {
      G.SwitchKeepsScreens(s.video, t, s.procs.chains[s.video.displayed], s.procs.chains[t], s.procs.curr, u);
    }
  }

  /** A program's write lands on the screen of the terminal at its chain's root and nowhere else. */
  lemma WriteShowsAtHome(s: State, contents: G.Page)
    requires Inv(s) && !s.trap
    ensures var r := s.(video := G.Write(s.video, contents));
            && s.procs.home[s.procs.curr] < SHELLS && Inv(r)
            && ScreensOf(r.video) == ScreensOf(s.video)[s.procs.home[s.procs.curr] := contents]
  {
    StepInv(s, Write(contents));
    assert P.OnChain(s.procs, s.procs.curr);
  }

  /** Echo lands on the displayed terminal's screen only. */
  lemma KeyShowsOnDisplay(s: State, contents: G.Page)
    requires Inv(s)
    ensures var r := s.(video := G.Echo(s.video, contents));
            Inv(r) && ScreensOf(r.video) == ScreensOf(s.video)[s.video.displayed := contents]
  {
    StepInv(s, Key(contents));
  }

  /** The scheduler's steps touch no page. */
  lemma QuietStep(s: State, e: Event)
    requires Inv(s) && Enabled(s, e) && (e.Execute? || e.Halt? || e.Tick?)
    ensures Step(s, e).video.frames == s.video.frames && Step(s, e).video.displayed == s.video.displayed
  {
  }

  lemma SameFrames(v: G.View, w: G.View)
    requires G.WellFormed(v) && G.WellFormed(w) && v.frames == w.frames && v.displayed == w.displayed
    ensures ScreensOf(v) == ScreensOf(w)
  {
  }

  lemma StepShows(s: State, e: Event)
    requires Inv(s) && Enabled(s, e)
    ensures Inv(Step(s, e)) && ScreensOf(Step(s, e).video) == Show(ScreensOf(s.video), s, e)
  {
    StepInv(s, e);
    match e
    case Switch(t) => SwitchShowsNothing(s, t);
    case Write(contents) => WriteShowsAtHome(s, contents);
    case Key(contents) => KeyShowsOnDisplay(s, contents);
    case _ =>
      QuietStep(s, e);
      SameFrames(s.video, Step(s, e).video);
  }

  /** The page tables refine three independent screens over every run. */
  lemma {:induction false} RunShows(s: State, es: seq<Event>)
    requires Inv(s) && Legal(s, es)
    ensures ScreensOf(Run(s, es).video) == ShowAll(ScreensOf(s.video), s, es)
    decreases |es|
  {
    if es != [] {
      StepShows(s, es[0]);
      RunShows(Step(s, es[0]), es[1..]);
    }
  }

  /** The shell at the root of the chain decides: a process's home is the terminal whose shell its ancestors lead to. */
  lemma HomeIsRoot(s: State, p: nat)
    requires Inv(s) && p < s.Size() && s.procs.live[p]
    ensures s.procs.home[p] < SHELLS
    ensures p in s.procs.chains[s.procs.home[p]] && s.procs.chains[s.procs.home[p]][0] == s.procs.home[p]
  {
    assert P.OnChain(s.procs, p) && P.Seated(s.procs, s.procs.home[p], 0);
  }

  /**
    The terminal number in a control block is the displayed one, so a new process is
    labelled with its own terminal exactly if that terminal is on display when it starts.
   */
  lemma LabelIsHomeIffDisplayed(s: State)
    requires Inv(s) && !s.trap && P.FreePid(s.procs.live) < s.Size()
    ensures var c := P.FreePid(s.procs.live);
            var r := ExecuteBody(s, Loads);
            r.procs.terminal[c] == r.procs.home[c] <==> s.procs.home[s.procs.curr] == s.video.displayed
  {
    ShellsLive(s);
  }
}
