/**
  The process control blocks and the pid allocator of student-distrib/file_array.c,
  linked through parent and child pointers and updated in place.
 */
module ProcessTable {
  import opened KernelBase
  import opened V = ProcessView

  class Pcb {
    const pid: nat
    var parent: Pcb?
    var child: Pcb?
    var terminal: nat
    var retStatus: Byte

    constructor (pid: nat, terminal: nat)
      ensures this.pid == pid && this.terminal == terminal && retStatus == 0
      ensures parent == null && child == null
    {
      this.pid, this.terminal, retStatus := pid, terminal, 0;
      parent, child := null, null;
    }
  }

  class Table {
    const pcbs: seq<Pcb>          // the control block of every pid, at its fixed address
    const pidArr: array<bool>
    var currProcess: Pcb
    const root: seq<Pcb>          // root1, root2 and root3
    ghost const own: set<Pcb>     // all control blocks
    ghost var view: View

    ghost predicate Blocks() {
      && (forall p :: 0 <= p < |pcbs| ==> pcbs[p].pid == p && pcbs[p] in own)
      && SHELLS <= |pcbs| == pidArr.Length
      && root == pcbs[..SHELLS]
    }

    function Block(l: Link): (b: Pcb?)
      requires l.To? ==> l.pid < |pcbs|
    {
      if l.To? then pcbs[l.pid] else null
    }

    /** The block of a live pid points to those of its parent and child. */
    ghost predicate LinkedAt(p: nat)
      reads this, own
      requires Blocks() && WellFormed(view) && |view.live| == |pcbs| && p < |pcbs|
    {
      view.live[p] ==> pcbs[p].parent == Block(ParentIn(view, p)) && pcbs[p].child == Block(ChildIn(view, p))
    }

    ghost predicate FieldsMatch()
      reads this, own, pidArr
      requires Blocks() && WellFormed(view) && |view.live| == |pcbs|
    {
      && (forall p :: 0 <= p < |pcbs| ==> pidArr[p] == view.live[p])
      && (forall p :: 0 <= p < |pcbs| ==> pcbs[p].terminal == view.terminal[p])
      && (forall p :: 0 <= p < |pcbs| ==> pcbs[p].retStatus == view.status[p])
      && currProcess == pcbs[view.curr]
    }

    ghost predicate Intact()
      reads this, own, pidArr
    {
      && Blocks()
      && WellFormed(view) && |view.live| == |pcbs|
      && FieldsMatch()
      && (forall p :: 0 <= p < |pcbs| ==> LinkedAt(p))
    }

    /** `Intact` as a single fact, which callers pass on without looking inside. */
    ghost predicate Valid()
      reads this, own, pidArr
    {
      Intact() == true
    }

    /** The state in which `open_shells` leaves the table: three shells, the first one current. */
    constructor (n: nat)
      requires SHELLS <= n
      ensures Valid() && fresh(pidArr) && fresh(own)
      ensures view == Booted(n)
    {
      var all: seq<Pcb> := [];
      for p := 0 to n
        invariant |all| == p
        invariant forall i :: 0 <= i < p ==> all[i].pid == i && fresh(all[i])
        invariant forall i :: 0 <= i < p ==> all[i].parent == null && all[i].child == null
        invariant forall i :: 0 <= i < p ==> all[i].terminal == (if i < SHELLS then i else 0) && all[i].retStatus == 0
      {
        var b := new Pcb(p, if p < SHELLS then p else 0);
        all := all + [b];
      }
      pcbs, own, root, currProcess := all, (set b | b in all), all[..SHELLS], all[0];
      pidArr := new bool[n](p => p < SHELLS);
      view := Booted(n);
      forall p | 0 <= p < SHELLS { BootedLinks(n, p); }
    }

    lemma PointersInverse(p: nat, q: nat)
      requires Valid() && p < |pcbs| && q < |pcbs| && view.live[p] && view.live[q]
      ensures pcbs[p].parent == pcbs[q] <==> pcbs[q].child == pcbs[p]
    {
      assert LinkedAt(p) && LinkedAt(q);
      LinksInverse(view, p, q);
      assert forall i :: 0 <= i < |pcbs| ==> pcbs[i].pid == i;
    }

    /** Following child pointers from a root visits the terminal's chain in order and ends in null. */
    lemma ChildInChain(t: nat, i: nat)
      requires Valid() && t < SHELLS && i < |view.chains[t]|
      ensures var c := view.chains[t];
              && (forall k :: 0 <= k < |c| ==> c[k] < |pcbs|) && root[t] == pcbs[c[0]]
              && pcbs[c[i]].child == (if i + 1 < |c| then pcbs[c[i + 1]] else null)
    {
      forall k | 0 <= k < |view.chains[t]| ensures view.chains[t][k] < |pcbs| { assert Seated(view, t, k); }
      assert Seated(view, t, 0) && Seated(view, t, i);
      assert LinkedAt(view.chains[t][i]);
    }

    method FreePidIdx() returns (idx: int)
      requires Valid()
      ensures idx == (if FreePid(view.live) < |pcbs| then FreePid(view.live) else -1)
    {
      for i := 0 to pidArr.Length
        invariant forall q :: 0 <= q < i ==> view.live[q]
      {
        if !pidArr[i] { return i; }
      }
      return -1;
    }

    /** The part of `kexecute` that records the new process as a child of the current one. */
    method Spawn(pid: nat, displayed: nat)
      requires Valid() && Leaf(view, view.curr)
      requires SHELLS <= pid < |pcbs| && !view.live[pid]
      modifies this`currProcess, this`view, pidArr, own`parent, own`child, own`terminal
      ensures Valid()
      ensures view == V.Spawn(old(view), pid, displayed)
    {
      ghost var before := view;
      pidArr[pid] := true;
      var pcb := pcbs[pid];
      pcb.parent := currProcess;
      pcb.child := null;
      currProcess.child := pcb;
      pcb.terminal := displayed;
      currProcess := pcb;
      view := V.Spawn(view, pid, displayed);
      forall p | 0 <= p < |pcbs| ensures LinkedAt(p) {
        assert old(LinkedAt(p));
        SpawnLinks(before, pid, displayed, p);
      }
    }

    method CurrentParent() returns (pid: nat)
      requires Valid() && view.live[view.curr] && SHELLS <= view.curr
      ensures pid == ParentOf(view, view.curr)
    {
      assert LinkedAt(view.curr) && ParentIn(view, view.curr) == To(ParentOf(view, view.curr));
      pid := currProcess.parent.pid;
    }

    /** The part of `reset_curr_process` that concerns the control blocks. */
    method Resume(pid: nat)
      requires Valid() && pid < |pcbs|
      modifies this`currProcess, this`view
      ensures Valid()
      ensures view == V.Resume(old(view), pid)
    {
      currProcess := pcbs[pid];
      view := V.Resume(view, pid);
      forall p | 0 <= p < |pcbs| ensures LinkedAt(p) { assert old(LinkedAt(p)); }
    }

    /** The part of `khalt` that takes the current process out of its chain. */
    method Reap(status: Byte)
      requires Valid() && Leaf(view, view.curr) && SHELLS <= view.curr
      modifies this`view, pidArr, own`parent, own`child, own`retStatus
      ensures Valid()
      ensures view == V.Reap(old(view), status)
    {
      ghost var before, parentPid := view, ParentOf(view, view.curr);
      assert LinkedAt(view.curr);
      var parent := currProcess.parent;
      assert parent == pcbs[parentPid];
      pidArr[currProcess.pid] := false;
      currProcess.retStatus := status;
      parent.child := null;
      currProcess.parent := null;
      parent.retStatus := (if currProcess.retStatus == EHALT then EXCEPTION_RETURN else currProcess.retStatus) % 256;
      view := V.Reap(view, status);
      forall p | 0 <= p < |pcbs| ensures LinkedAt(p) {
        assert old(LinkedAt(p));
        if before.live[p] && p != before.curr { ReapLinks(before, status, p); }
      }
    }
  }
}
