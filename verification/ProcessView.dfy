/**
  The process table as a value: which pids are taken, and for each of the three
  terminals the chain of processes started there, the shell first and every
  process behind the one that executed it.
 */
module ProcessView {
  import opened KernelBase

  /** A halt status that stands for an exception, and what the parent is meant to see then. */
  const EHALT: Byte := 239
  const EXCEPTION_RETURN: nat := 256

  /**
    `home` and `depth` locate a live pid in the chains; `terminal` is the terminal number
    stored in the process control block, `status` its stored return status.
   */
  datatype View = View(
    live: seq<bool>,
    chains: seq<seq<nat>>,
    home: seq<nat>,
    depth: seq<nat>,
    terminal: seq<nat>,
    status: seq<Byte>,
    curr: nat)

  ghost predicate Sized(v: View) {
    && |v.chains| == SHELLS
    && |v.live| == |v.home| == |v.depth| == |v.terminal| == |v.status|
    && SHELLS <= |v.live|
    && v.curr < |v.live|
  }

  /** The pid at place `i` of terminal `t`'s chain is live, sits nowhere else, and is a shell exactly at the root. */
  ghost predicate Seated(v: View, t: nat, i: nat)
    requires Sized(v) && t < SHELLS && i < |v.chains[t]|
  {
    var p := v.chains[t][i];
    p < |v.live| && v.live[p] && v.home[p] == t && v.depth[p] == i && (if i == 0 then p == t else SHELLS <= p)
  }

  ghost predicate OnChain(v: View, p: nat)
    requires Sized(v) && p < |v.live|
  {
    v.home[p] < SHELLS && v.depth[p] < |v.chains[v.home[p]]| && v.chains[v.home[p]][v.depth[p]] == p
  }

  /** The live pids form exactly three disjoint chains, each rooted at its shell. */
  ghost predicate WellFormed(v: View) {
    && Sized(v)
    && (forall t :: 0 <= t < SHELLS ==> |v.chains[t]| > 0)
    && (forall t, i :: 0 <= t < SHELLS && 0 <= i < |v.chains[t]| ==> Seated(v, t, i))
    && (forall p :: 0 <= p < |v.live| && v.live[p] ==> OnChain(v, p))
  }

  /** A live process without a child. */
  ghost predicate Leaf(v: View, p: nat)
    requires Sized(v)
  {
    p < |v.live| && v.live[p] && OnChain(v, p) && v.depth[p] == |v.chains[v.home[p]]| - 1
  }

  function FreePid(live: seq<bool>): (p: nat)
    ensures p <= |live| && (forall q :: 0 <= q < p ==> live[q]) && (p < |live| ==> !live[p])
  {
    if live == [] || !live[0] then 0 else 1 + FreePid(live[1..])
  }

  /** What the parent's one-byte status field holds after its child halts with `status`. */
  function Delivered(status: Byte): (r: Byte) {
    (if status == EHALT then EXCEPTION_RETURN else status) % 256
  }

  /** What the parent is meant to see: 256 for a child killed by an exception. */
  function Intended(status: Byte): (r: nat) {
    if status == EHALT then EXCEPTION_RETURN else status
  }

  /** The running process starts a child under the free pid `c`; the child becomes current. */
  function Spawn(v: View, c: nat, displayed: nat): (w: View)
    requires WellFormed(v) && Leaf(v, v.curr)
    requires SHELLS <= c < |v.live| && !v.live[c]
    ensures WellFormed(w) && Leaf(w, c)
  {
    var t := v.home[v.curr];
    var w := View(v.live[c := true], v.chains[t := v.chains[t] + [c]], v.home[c := t],
                  v.depth[c := |v.chains[t]|], v.terminal[c := displayed], v.status, c);
    assert forall u, i :: 0 <= u < SHELLS && 0 <= i < |w.chains[u]| ==> Seated(w, u, i) by {
      forall u, i | 0 <= u < SHELLS && 0 <= i < |w.chains[u]| ensures Seated(w, u, i) {
        if i < |v.chains[u]| { assert Seated(v, u, i); }
      }
    }
    assert forall p :: 0 <= p < |w.live| && w.live[p] ==> OnChain(w, p) by {
      forall p | 0 <= p < |w.live| && w.live[p] ensures OnChain(w, p) {
        if p != c { assert OnChain(v, p); }
      }
    }
    w
  }

  datatype Link = NoOne | To(pid: nat)

  /** The process that executed `p`, and the one `p` is waiting for. */
  function ParentIn(v: View, p: nat): (l: Link)
    requires WellFormed(v) && p < |v.live| && v.live[p]
    ensures l.To? ==> l.pid < |v.live| && v.live[l.pid]
  {
    assert OnChain(v, p);
    if v.depth[p] == 0 then NoOne
    else (assert Seated(v, v.home[p], v.depth[p] - 1); To(v.chains[v.home[p]][v.depth[p] - 1]))
  }

  function ChildIn(v: View, p: nat): (l: Link)
    requires WellFormed(v) && p < |v.live| && v.live[p]
    ensures l.To? ==> l.pid < |v.live| && v.live[l.pid]
  {
    assert OnChain(v, p);
    if v.depth[p] == |v.chains[v.home[p]]| - 1 then NoOne
    else (assert Seated(v, v.home[p], v.depth[p] + 1); To(v.chains[v.home[p]][v.depth[p] + 1]))
  }

  /** A process that is not a shell has a parent. */
  function ParentOf(v: View, p: nat): (q: nat)
    requires WellFormed(v) && p < |v.live| && v.live[p] && SHELLS <= p
    ensures q < |v.live| && v.live[q] && q != p && ParentIn(v, p) == To(q)
  {
    assert OnChain(v, p);
    assert Seated(v, v.home[p], v.depth[p]);
    assert Seated(v, v.home[p], v.depth[p] - 1);
    ParentIn(v, p).pid
  }

  /** The running non-shell process leaves its chain and passes its status up. */
  function Reap(v: View, status: Byte): (w: View)
    requires WellFormed(v) && Leaf(v, v.curr) && SHELLS <= v.curr
    ensures WellFormed(w) && Leaf(w, ParentOf(v, v.curr))
  {
    var c, parent := v.curr, ParentOf(v, v.curr);
    var t, d := v.home[c], v.depth[c];
    assert Seated(v, t, d);
    var w := v.(live := v.live[c := false], chains := v.chains[t := v.chains[t][..d]],
                status := v.status[c := status][parent := Delivered(status)]);
    assert forall u, i :: 0 <= u < SHELLS && 0 <= i < |w.chains[u]| ==> Seated(w, u, i) by {
      forall u, i | 0 <= u < SHELLS && 0 <= i < |w.chains[u]| ensures Seated(w, u, i) {
        assert Seated(v, u, i);
      }
    }
    assert forall p :: 0 <= p < |w.live| && w.live[p] ==> OnChain(w, p) by {
      forall p | 0 <= p < |w.live| && w.live[p] ensures OnChain(w, p) {
        assert OnChain(v, p);
      }
    }
    assert Seated(w, t, d - 1);
    w
  }

  /** Child and parent links are inverse. */
  lemma LinksInverse(v: View, p: nat, q: nat)
    requires WellFormed(v) && p < |v.live| && v.live[p] && q < |v.live| && v.live[q]
    ensures ParentIn(v, p) == To(q) <==> ChildIn(v, q) == To(p)
  {
    assert OnChain(v, p) && OnChain(v, q);
    if ParentIn(v, p) == To(q) { assert Seated(v, v.home[p], v.depth[p] - 1); }
    if ChildIn(v, q) == To(p) { assert Seated(v, v.home[q], v.depth[q] + 1); }
  }

  lemma SpawnLinks(v: View, c: nat, displayed: nat, p: nat)
    requires WellFormed(v) && Leaf(v, v.curr) && SHELLS <= c < |v.live| && !v.live[c] && p < |v.live|
    ensures var w := Spawn(v, c, displayed);
            && (p == c ==> ParentIn(w, p) == To(v.curr) && ChildIn(w, p) == NoOne)
            && (v.live[p] ==> w.live[p] && ParentIn(w, p) == ParentIn(v, p))
            && (v.live[p] ==> ChildIn(w, p) == if p == v.curr then To(c) else ChildIn(v, p))
  {
    if v.live[p] { assert OnChain(v, p); }
  }

  lemma ReapLinks(v: View, status: Byte, p: nat)
    requires WellFormed(v) && Leaf(v, v.curr) && SHELLS <= v.curr && p < |v.live| && p != v.curr && v.live[p]
    ensures var w := Reap(v, status);
            && w.live[p] && ParentIn(w, p) == ParentIn(v, p)
            && ChildIn(w, p) == (if p == ParentOf(v, v.curr) then NoOne else ChildIn(v, p))
  {
    var c := v.curr;
    assert OnChain(v, p) && Seated(v, v.home[c], v.depth[c]);
    assert Seated(v, v.home[c], v.depth[c] - 1);
  }

  /** Another live process becomes the current one. */
  function Resume(v: View, p: nat): (w: View)
    requires WellFormed(v) && p < |v.live|
    ensures WellFormed(w)
    ensures forall q :: 0 <= q < |v.live| ==> Leaf(w, q) == Leaf(v, q)
  {
    var w := v.(curr := p);
    assert forall t, i :: 0 <= t < SHELLS && 0 <= i < |w.chains[t]| ==> Seated(w, t, i) by {
      forall t, i | 0 <= t < SHELLS && 0 <= i < |w.chains[t]| ensures Seated(w, t, i) { assert Seated(v, t, i); }
    }
    assert forall q :: 0 <= q < |w.live| && w.live[q] ==> OnChain(w, q) by {
      forall q | 0 <= q < |w.live| && w.live[q] ensures OnChain(w, q) { assert OnChain(v, q); }
    }
    w
  }

  /** The three shells right after boot, the first one current. */
  function Booted(n: nat): (v: View)
    requires SHELLS <= n
    ensures WellFormed(v) && |v.live| == n && v.curr == 0
    ensures forall p :: 0 <= p < n ==> v.live[p] == (p < SHELLS)
  {
    View(seq(n, p => p < SHELLS), [[0], [1], [2]], seq(n, p => p), seq(n, _ => 0),
         seq(n, p => if p < SHELLS then p else 0), seq(n, _ => 0), 0)
  }

  /** At boot every shell is labelled with its own terminal and no status has been reported. */
  lemma BootedLabels(n: nat, p: nat)
    requires 3 <= n && p < n
    ensures Booted(n).terminal[p] == (if p < 3 then p else 0) && Booted(n).status[p] == 0
    ensures Booted(n).chains == [[0], [1], [2]]
  {
  }

  /** Starting a process changes labels and places of no other one and no status; ending one changes two statuses only. */
  lemma OthersKept(v: View, c: nat, displayed: nat, status: Byte, p: nat)
    requires WellFormed(v) && Leaf(v, v.curr) && p < |v.live|
    ensures SHELLS <= c < |v.live| && !v.live[c] ==>
              var w := Spawn(v, c, displayed);
              && w.curr == c && w.status == v.status && w.terminal[c] == displayed && w.home[c] == v.home[v.curr]
              && (p != c ==> w.terminal[p] == v.terminal[p] && w.home[p] == v.home[p] && w.live[p] == v.live[p])
    ensures SHELLS <= v.curr ==>
              var w := Reap(v, status);
              && w.terminal == v.terminal && w.home == v.home && w.curr == v.curr && w.status[v.curr] == status
              && (p != v.curr && p != ParentOf(v, v.curr) ==> w.status[p] == v.status[p])
  {
  }

  lemma BootedLinks(n: nat, p: nat)
    requires SHELLS <= n && p < SHELLS
    ensures ParentIn(Booted(n), p) == NoOne && ChildIn(Booted(n), p) == NoOne
  {
    assert OnChain(Booted(n), p);
  }
}
