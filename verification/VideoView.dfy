/**
  Video memory as a value: one VGA page and a backing page per terminal, the page
  each process's kernel video entry maps to, and the terminal on display.
 */
module VideoView {
  import opened KernelBase

  /** Page numbers: the VGA page, its fixed alias, and the backing page of terminal t at `BackOf(t)`. */
  const VGA: nat := 0xb8
  const ALIAS: nat := 0xb7
  const PAGE_SIZE: nat := 4096

  function BackOf(t: nat): (page: nat) {
    VGA + t + 1
  }

  type Page = p: seq<Byte> | |p| == PAGE_SIZE witness seq(PAGE_SIZE, _ => 0)

  /** `frames[k]` is the physical page `VGA + k`; `entry[p]` is the page pid p's entry at 0xb8 maps to. */
  datatype View = View(frames: seq<Page>, entry: seq<nat>, displayed: nat, cr3: nat)

  ghost predicate WellFormed(v: View) {
    && |v.frames| == SHELLS + 1
    && v.displayed < SHELLS
    && v.cr3 < |v.entry|
    && (forall p :: 0 <= p < |v.entry| ==> VGA <= v.entry[p] <= VGA + SHELLS)
  }

  /** The page a process of terminal `t` writes to while terminal `displayed` is shown. */
  function PageFor(t: nat, displayed: nat): (page: nat) {
    if t == displayed then VGA else BackOf(t)
  }

  /** What terminal `t` shows, or would show if it were on display. */
  function Screen(v: View, t: nat): (p: Page)
    requires WellFormed(v) && t < SHELLS
  {
    v.frames[PageFor(t, v.displayed) - VGA]
  }

  function Redirect(entry: seq<nat>, pids: seq<nat>, page: nat): (r: seq<nat>)
    ensures |r| == |entry|
    ensures forall p :: 0 <= p < |entry| ==> r[p] == if p in pids then page else entry[p]
  {
    seq(|entry|, p requires 0 <= p < |entry| => if p in pids then page else entry[p])
  }

  /**
    A terminal switch: the VGA page is saved to the old terminal's backing page and
    filled from the new one's, and both chains' entries are redirected.
   */
  function Switch(v: View, t: nat, from: seq<nat>, to: seq<nat>, curr: nat): (w: View)
    requires WellFormed(v) && t < SHELLS && curr < |v.entry|
    ensures WellFormed(w) && w.displayed == t
  {
    if t == v.displayed then v
    else
      View(v.frames[v.displayed + 1 := v.frames[0]][0 := v.frames[t + 1]],
           Redirect(Redirect(v.entry, from, BackOf(v.displayed)), to, VGA),
           t, curr)
  }

  /** A new process's entry starts as a copy of its parent's; its directory becomes the active one. */
  function Inherit(v: View, pid: nat, parent: nat): (w: View)
    requires WellFormed(v) && pid < |v.entry| && parent < |v.entry|
    ensures WellFormed(w)
  {
    v.(entry := v.entry[pid := v.entry[parent]], cr3 := pid)
  }

  /** A program's output goes through the active directory's entry at 0xb8. */
  function Write(v: View, contents: Page): (w: View)
    requires WellFormed(v)
    ensures WellFormed(w)
  {
    v.(frames := v.frames[v.entry[v.cr3] - VGA := contents])
  }

  /** Keyboard echo goes through the alias, which always maps the VGA page. */
  function Echo(v: View, contents: Page): (w: View)
    requires WellFormed(v)
    ensures WellFormed(w)
  {
    v.(frames := v.frames[0 := contents])
  }

  function Initial(n: nat, frames: seq<Page>): (v: View)
    requires SHELLS <= n && |frames| == SHELLS + 1
    ensures WellFormed(v)
  {
    View(frames, seq(n, p => if 0 < p < SHELLS then BackOf(p) else VGA), 0, 0)
  }

  /** Redirecting entries and swapping pages leaves all three screens as they were. */
  lemma SwitchKeepsScreens(v: View, t: nat, from: seq<nat>, to: seq<nat>, curr: nat, u: nat)
    requires WellFormed(v) && t < SHELLS && curr < |v.entry| && u < SHELLS
    ensures Screen(Switch(v, t, from, to, curr), u) == Screen(v, u)
  {
  }
}
