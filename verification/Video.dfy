/**
  The page tables of student-distrib/paging.c, and the screen pages that
  student-distrib/terminal.c copies when terminals are switched.
 */
module Video {
  import opened KernelBase
  import opened V = VideoView

  const ENTRIES: nat := 1024

  class Memory {
    const frames: array<Page>      // physical pages VGA .. VGA + 3
    const tables: array2<nat>      // tables[pid, virtual page] is the physical page
    var cr3: nat                   // the pid whose directory is active
    var currTerminal: nat
    ghost var view: View

    /** The alias maps the VGA page and the backing pages map themselves, for every pid. */
    ghost predicate FixedEntries(p: nat)
      reads tables
      requires p < tables.Length0 && tables.Length1 == ENTRIES
    {
      && tables[p, ALIAS] == VGA
      && (forall t :: 0 <= t < SHELLS ==> tables[p, BackOf(t)] == BackOf(t))
    }

    ghost predicate Intact()
      reads this, frames, tables
    {
      && WellFormed(view)
      && frames.Length == SHELLS + 1 && frames[..] == view.frames
      && tables.Length0 == |view.entry| && tables.Length1 == ENTRIES
      && (forall p :: 0 <= p < tables.Length0 ==> FixedEntries(p))
      && (forall p :: 0 <= p < tables.Length0 ==> tables[p, VGA] == view.entry[p])
      && cr3 == view.cr3 && currTerminal == view.displayed
    }

    /** `Intact` as a single fact, which callers pass on without looking inside. */
    ghost predicate Valid()
      reads this, frames, tables
    {
      Intact() == true
    }

    /** The tables after new_init: terminal 0 is displayed, and its shell alone maps the VGA page. */
    lemma TablesAtBoot(n: nat, contents: seq<Page>, p: nat)
      requires SHELLS <= n && |contents| == SHELLS + 1 && Valid() && view == Initial(n, contents) && p < n
      ensures currTerminal == 0 && cr3 == 0 && tables.Length0 == n && tables.Length1 == 1024
      ensures tables[0, 0xb8] == 0xb8 && tables[1, 0xb8] == 0xba && tables[2, 0xb8] == 0xbb
      ensures tables[p, 0xb7] == 0xb8 && tables[p, 0xb9] == 0xb9 && tables[p, 0xba] == 0xba && tables[p, 0xbb] == 0xbb
    {
      assert FixedEntries(p);
      assert tables[p, BackOf(0)] == 0xb9 && tables[p, BackOf(1)] == 0xba && tables[p, BackOf(2)] == 0xbb;
    }

    /** new_init. The contents of the pages are whatever is in memory. */
    constructor (n: nat, contents: seq<Page>)
      requires SHELLS <= n && |contents| == SHELLS + 1
      ensures Valid() && fresh(frames) && fresh(tables)
      ensures view == Initial(n, contents)
    {
      frames := new Page[SHELLS + 1](i requires 0 <= i < SHELLS + 1 => contents[i]);
      tables := new nat[n, ENTRIES]((p, v) => v);
      cr3, currTerminal, view := 0, 0, Initial(n, contents);
      new;
      for pid := 0 to n
        modifies tables
        invariant forall p, v :: 0 <= p < n && 0 <= v < ENTRIES && v != VGA && v != ALIAS ==> tables[p, v] == v
        invariant forall p :: 0 <= p < n ==> tables[p, VGA] == (if p < pid && 0 < p < SHELLS then BackOf(p) else VGA)
        invariant forall p :: 0 <= p < pid ==> tables[p, ALIAS] == VGA
      {
        if 0 < pid < SHELLS { tables[pid, VGA] := VGA + pid + 1; }
        tables[pid, ALIAS] := VGA;
      }
    }

    /** switch_vid_mem_out and switch_vid_mem_in, which differ in the page only. */
    method Remap(pid: nat, page: nat)
      requires Valid() && pid < tables.Length0 && VGA <= page <= VGA + SHELLS
      modifies this`view, tables
      ensures Valid()
      ensures view == old(view).(entry := old(view.entry)[pid := page])
    {
      tables[pid, VGA] := page;
      view := view.(entry := view.entry[pid := page]);
      forall p | 0 <= p < tables.Length0 ensures FixedEntries(p) { assert old(FixedEntries(p)); }
    }

    /** switch_paging */
    method Activate(pid: nat)
      requires Valid() && pid < tables.Length0
      modifies this`cr3, this`view
      ensures Valid()
      ensures view == old(view).(cr3 := pid)
    {
      cr3 := pid;
      view := view.(cr3 := pid);
    }

    /** new_paging */
    method Inherit(pid: nat, parent: nat)
      requires Valid() && pid < tables.Length0 && parent < tables.Length0
      modifies this`cr3, this`view, tables
      ensures Valid()
      ensures view == V.Inherit(old(view), pid, parent)
    {
      Remap(pid, tables[parent, VGA]);
      Activate(pid);
    }

    /** The two page copies of switch_terminals, through the active page table. */
    method SwapPages(term: nat)
      requires Valid() && term < SHELLS && term != currTerminal
      modifies this`view, frames
      ensures Valid()
      ensures view == old(view).(frames := V.Switch(old(view), term, [], [], 0).frames)
    {
      assert FixedEntries(cr3);
      var vga := tables[cr3, ALIAS] - VGA;
      frames[tables[cr3, BackOf(currTerminal)] - VGA] := frames[vga];
      frames[vga] := frames[tables[cr3, BackOf(term)] - VGA];
      view := view.(frames := frames[..]);
    }

    method SetDisplayed(term: nat)
      requires Valid() && term < SHELLS
      modifies this`view, this`currTerminal
      ensures Valid()
      ensures view == old(view).(displayed := term)
    {
      currTerminal := term;
      view := view.(displayed := term);
    }

    method Write(contents: Page)
      requires Valid()
      modifies this`view, frames
      ensures Valid()
      ensures view == V.Write(old(view), contents)
    {
      frames[tables[cr3, VGA] - VGA] := contents;
      view := V.Write(view, contents);
    }

    method Echo(contents: Page)
      requires Valid()
      modifies this`view, frames
      ensures Valid()
      ensures view == V.Echo(old(view), contents)
    {
      assert FixedEntries(cr3);
      frames[tables[cr3, ALIAS] - VGA] := contents;
      view := V.Echo(view, contents);
    }
  }
}
