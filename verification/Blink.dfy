/**
  The blinking characters of fish/blink.S and fish/fish.c: a linked list threaded through
  a fixed pool of slots, where a slot is free if its location is zero.
 */
module Blink {
  import opened KernelBase

  const POOL: nat := 2000

  type Half = x: nat | x < 0x1_0000

  datatype Link = Null | To(slot: nat)

  datatype Slot = Slot(location: Half, onChar: char, offChar: char, onLength: Half, offLength: Half,
                       countdown: Half, status: Half, next: Link)

  const FREE: Slot := Slot(0, '\0', '\0', 0, 0, 0, 0, Null)

  /** The pool and the head pointer. */
  datatype State = State(pool: seq<Slot>, head: Link)

  /** The slot `mp1_malloc` returns: the first free one from `i` on, or the pool's size. */
  function FirstFree(pool: seq<Slot>, i: nat): (k: nat)
    requires i <= |pool|
    ensures i <= k <= |pool| && (k < |pool| ==> pool[k].location == 0)
    ensures forall j :: i <= j < k ==> pool[j].location != 0
    decreases |pool| - i
  {
    if i == |pool| || pool[i].location == 0 then i else FirstFree(pool, i + 1)
  }

  /** The link to place `i` of the list. */
  function LinkAt(list: seq<nat>, i: nat): (l: Link) {
    if i < |list| then To(list[i]) else Null
  }

  /** The list from `head` visits exactly the slots in use, each once, and ends. */
  ghost predicate Represents(st: State, list: seq<nat>) {
    && |st.pool| == POOL
    && st.head == LinkAt(list, 0)
    && (forall i :: 0 <= i < |list| ==> list[i] < POOL)
    && (forall i {:trigger st.pool[list[i]].next} :: 0 <= i < |list| ==> st.pool[list[i]].next == LinkAt(list, i + 1))
    && Distinct(list)
    && (forall s :: 0 <= s < POOL ==> (st.pool[s].location != 0 <==> s in list))
  }

  /** The first place from `i` on with this location. */
  function FindFrom(pool: seq<Slot>, list: seq<nat>, loc: Half, i: nat): (k: nat)
    requires i <= |list| && forall j :: 0 <= j < |list| ==> list[j] < |pool|
    ensures i <= k <= |list| && (k < |list| ==> pool[list[k]].location == loc)
    ensures forall j :: i <= j < k ==> pool[list[j]].location != loc
    decreases |list| - i
  {
    if i == |list| || pool[list[i]].location == loc then i else FindFrom(pool, list, loc, i + 1)
  }

  // ---- adding ----

  function Armed(user: Slot, next: Link): (s: Slot) {
    user.(status := 1, countdown := user.onLength, next := next)
  }

  /** mp1_ioctl_add, on success. */
  function Added(st: State, user: Slot): (r: State)
    requires FirstFree(st.pool, 0) < |st.pool|
  {
    var s := FirstFree(st.pool, 0);
    State(st.pool[s := Armed(user, st.head)], To(s))
  }

  /** A successful add is cons. */
  lemma AddIsCons(st: State, list: seq<nat>, user: Slot)
    requires Represents(st, list) && FirstFree(st.pool, 0) < POOL && user.location != 0
    ensures Represents(Added(st, user), [FirstFree(st.pool, 0)] + list)
  {
    var s, r := FirstFree(st.pool, 0), Added(st, user);
    var after := [s] + list;
    forall i | 0 <= i < |after| ensures r.pool[after[i]].next == LinkAt(after, i + 1) {
      if i > 0 { assert after[i] == list[i - 1] && st.pool[list[i - 1]].next == LinkAt(list, i); }
    }
  }

  /** The new entry is the first with its location, holds what the user gave, and no other slot changes. */
  lemma AddIsFound(st: State, list: seq<nat>, user: Slot, s: nat, r: State, after: seq<nat>)
    requires Represents(st, list) && s == FirstFree(st.pool, 0) < POOL && user.location != 0
    requires r == Added(st, user) && after == [s] + list
    ensures (forall i :: 0 <= i < |after| ==> after[i] < |r.pool|) && FindFrom(r.pool, after, user.location, 0) == 0
    ensures var e := r.pool[s];
            && e.location == user.location && e.onChar == user.onChar && e.offChar == user.offChar
            && e.onLength == user.onLength && e.offLength == user.offLength
            && e.countdown == user.onLength && e.status == 1 && e.next == st.head
    ensures |r.pool| == |st.pool| && forall t :: 0 <= t < |st.pool| && t != s ==> r.pool[t] == st.pool[t]
  {
  }

  /** Removing the location right after adding it restores the list and frees the slot again. */
  lemma RemoveUndoesAdd(st: State, list: seq<nat>, user: Slot, s: nat, r: State, after: seq<nat>)
    requires Represents(st, list) && s == FirstFree(st.pool, 0) < POOL && user.location != 0
    requires r == Added(st, user) && after == [s] + list
    ensures |r.pool| == POOL && (forall i :: 0 <= i < |after| ==> after[i] < POOL)
    ensures FindFrom(r.pool, after, user.location, 0) == 0 && after[..0] + after[1..] == list
    ensures Removed(r, after, 0) == State(st.pool[s := FREE], st.head) && FirstFree(Removed(r, after, 0).pool, 0) == s
  {
    AddIsFound(st, list, user, s, r, after);
    StillFirstFree(st.pool, s, st.pool[s := FREE]);
  }

  lemma StillFirstFree(pool: seq<Slot>, s: nat, after: seq<Slot>)
    requires s == FirstFree(pool, 0) < |pool| && after == pool[s := FREE]
    ensures FirstFree(after, 0) == s
  {
    assert after[s].location == 0 && forall t :: 0 <= t < s ==> after[t] == pool[t];
  }

  /** It leaves a list exactly if the location is not zero. */
  lemma AddLeavesList(st: State, list: seq<nat>, user: Slot)
    requires Represents(st, list) && FirstFree(st.pool, 0) < POOL
    ensures (exists after :: Represents(Added(st, user), after)) <==> user.location != 0
  {
    var s, r := FirstFree(st.pool, 0), Added(st, user);
    if user.location != 0 { AddIsCons(st, list, user); }
    forall after | Represents(r, after) ensures user.location != 0 {
      assert after[0] == s && r.pool[s].location == user.location;
    }
  }

  /** Adding location zero and then anything makes the head slot its own successor. */
  lemma ZeroLocationLoops(st: State, list: seq<nat>, first: Slot, second: Slot)
    requires Represents(st, list) && FirstFree(st.pool, 0) < POOL && first.location == 0
    ensures var once := Added(st, first);
            && FirstFree(once.pool, 0) < |once.pool|
            && var twice := Added(once, second);
            && twice.head.To? && twice.head.slot < |twice.pool| && twice.pool[twice.head.slot].next == twice.head
  {
    var s, once := FirstFree(st.pool, 0), Added(st, first);
    assert once.pool[s].location == 0 && once.pool[..s] == st.pool[..s];
    assert forall j :: 0 <= j < s ==> once.pool[j].location == st.pool[j].location;
  }

  // ---- removing and synchronising ----

  /** Place `k` is unlinked from its predecessor, or from the head, and its slot is cleared. */
  function Removed(st: State, list: seq<nat>, k: nat): (r: State)
    requires |st.pool| == POOL && k < |list| && forall i :: 0 <= i < |list| ==> list[i] < POOL
  {
    var next := st.pool[list[k]].next;
    var unlinked := if k == 0 then State(st.pool, next)
                    else st.(pool := st.pool[list[k - 1] := st.pool[list[k - 1]].(next := next)]);
    unlinked.(pool := unlinked.pool[list[k] := FREE])
  }

  lemma WithoutMembers(list: seq<nat>, k: nat, s: nat)
    requires k < |list| && Distinct(list)
    ensures s in list[..k] + list[k + 1..] <==> s in list && s != list[k]
  {
    var after := list[..k] + list[k + 1..];
    if s in list && s != list[k] {
      var o :| 0 <= o < |list| && list[o] == s;
      assert after[if o < k then o else o - 1] == s;
    }
  }

  lemma WithoutDistinct(list: seq<nat>, k: nat)
    requires k < |list| && Distinct(list)
    ensures Distinct(list[..k] + list[k + 1..])
  {
    var after := list[..k] + list[k + 1..];
    forall i, j | 0 <= i < j < |after| ensures after[i] != after[j] {
      assert after[i] == list[if i < k then i else i + 1] && after[j] == list[if j < k then j else j + 1];
    }
  }

  lemma RemoveRelinks(st: State, list: seq<nat>, k: nat, i: nat)
    requires Represents(st, list) && k < |list| && i < |list| - 1
    ensures var after := list[..k] + list[k + 1..];
            Removed(st, list, k).pool[after[i]].next == LinkAt(after, i + 1)
  {
    var after := list[..k] + list[k + 1..];
    var o := if i < k then i else i + 1;
    assert after[i] == list[o];
    assert st.pool[list[o]].next == LinkAt(list, o + 1) && st.pool[list[k]].next == LinkAt(list, k + 1);
  }

  lemma RemoveFrees(st: State, list: seq<nat>, k: nat, s: nat)
    requires Represents(st, list) && k < |list| && s < POOL
    ensures Removed(st, list, k).pool[s].location != 0 <==> s in list[..k] + list[k + 1..]
  {
    WithoutMembers(list, k, s);
  }

  /** Removing the entry at place `k` deletes it from the list and frees its slot. */
  lemma RemoveDeletes(st: State, list: seq<nat>, k: nat, r: State, after: seq<nat>)
    requires Represents(st, list) && k < |list|
    requires r == Removed(st, list, k) && after == list[..k] + list[k + 1..]
    ensures Represents(r, after)
  {
    WithoutDistinct(list, k);
    assert st.pool[list[k]].next == LinkAt(list, k + 1);
    assert r.head == LinkAt(after, 0);
    assert forall i :: 0 <= i < |after| ==> after[i] < POOL;
    forall i | 0 <= i < |after| ensures r.pool[after[i]].next == LinkAt(after, i + 1) { RemoveRelinks(st, list, k, i); }
    forall s | 0 <= s < POOL ensures r.pool[s].location != 0 <==> s in after { RemoveFrees(st, list, k, s); }
  }

  /** A remove clears its slot and changes nothing of the others but the link that led to it. */
  lemma RemoveSparesOthers(st: State, list: seq<nat>, k: nat, r: State, t: nat)
    requires Represents(st, list) && k < |list| && r == Removed(st, list, k) && t < POOL
    ensures r.pool[t] == if t == list[k] then Slot(0, '\0', '\0', 0, 0, 0, 0, Null) else st.pool[t].(next := r.pool[t].next)
    ensures t != list[k] && r.pool[t].next != st.pool[t].next ==> k > 0 && t == list[k - 1]
  {
  }

  /** mp1_ioctl_sync: the target takes over the source's timing. */
  function Synced(pool: seq<Slot>, from: nat, to: nat): (r: seq<Slot>)
    requires from < |pool| && to < |pool|
  {
    var s := pool[from];
    pool[to := pool[to].(onLength := s.onLength, offLength := s.offLength, countdown := s.countdown, status := s.status)]
  }

  lemma SyncKeepsList(st: State, list: seq<nat>, from: nat, to: nat)
    requires Represents(st, list) && from < POOL && to < POOL
    ensures Represents(st.(pool := Synced(st.pool, from, to)), list)
  {
    var r := st.(pool := Synced(st.pool, from, to));
    assert forall s :: 0 <= s < POOL ==> r.pool[s].next == st.pool[s].next && r.pool[s].location == st.pool[s].location;
  }

  /** A sync changes no slot but its target, and of that neither location, nor characters, nor link. */
  lemma SyncSparesOthers(pool: seq<Slot>, from: nat, to: nat, t: nat)
    requires from < |pool| && to < |pool| && t < |pool|
    ensures var r := Synced(pool, from, to);
            && (t != to ==> r[t] == pool[t])
            && r[to].location == pool[to].location && r[to].next == pool[to].next
            && r[to].onChar == pool[to].onChar && r[to].offChar == pool[to].offChar
  {
  }

  // ---- blinking ----

  /** One tasklet run on one slot: count down, and toggle once the count is no longer positive as a signed number. */
  function Ticked(s: Slot): (r: Slot) {
    var count := (s.countdown - 1) % 0x1_0000;
    if 0 < count < 0x8000 then s.(countdown := count)
    else if s.status % 2 == 1 then s.(countdown := s.offLength, status := s.status - 1)
    else s.(countdown := s.onLength, status := s.status + 1)
  }

  /** The number of runs a length lasts: itself up to 32768, and a single one for zero or a negative 16-bit number. */
  function Lasts(length: Half): (n: nat)
    ensures n > 0
  {
    if 1 <= length <= 0x8000 then length else 1
  }

  lemma TickedCounts(s: Slot)
    ensures var r := Ticked(s);
            && r.onLength == s.onLength && r.offLength == s.offLength && r.location == s.location && r.next == s.next
            && r.onChar == s.onChar && r.offChar == s.offChar
            && (Lasts(s.countdown) > 1 ==> r.status == s.status && Lasts(r.countdown) == Lasts(s.countdown) - 1)
            && (Lasts(s.countdown) == 1 ==>
                 r.status % 2 != s.status % 2 && r.countdown == if s.status % 2 == 1 then s.offLength else s.onLength)
  {
  }

  function TickedTimes(s: Slot, t: nat): (r: Slot) {
    if t == 0 then s else Ticked(TickedTimes(s, t - 1))
  }

  predicate SameTiming(a: Slot, b: Slot) {
    a.onLength == b.onLength && a.offLength == b.offLength && a.countdown == b.countdown && a.status == b.status
  }

  lemma {:induction false} TimingStays(a: Slot, b: Slot, t: nat)
    requires SameTiming(a, b)
    ensures SameTiming(TickedTimes(a, t), TickedTimes(b, t))
  {
    if t > 0 {
      TimingStays(a, b, t - 1);
    }
  }

  /** What sync is for: from then on the target blinks in step with the source, whose schedule is unchanged. */
  lemma SyncedInStep(pool: seq<Slot>, from: nat, to: nat, t: nat)
    requires from < |pool| && to < |pool|
    ensures var r := Synced(pool, from, to);
            && SameTiming(TickedTimes(r[to], t), TickedTimes(pool[from], t))
            && SameTiming(TickedTimes(r[from], t), TickedTimes(pool[from], t))
  {
    var r := Synced(pool, from, to);
    TimingStays(r[to], pool[from], t);
    TimingStays(r[from], pool[from], t);
  }

  lemma ModStep(t: nat, p: nat)
    requires p > 0
    ensures (t + 1) % p == if t % p == p - 1 then 0 else t % p + 1
  {
    var q, m := t / p, t % p;
    assert t == p * q + m;
    if m == p - 1 {
      assert t + 1 == p * (q + 1);
      ModUnique(t + 1, q + 1, 0, p);
    } else {
      assert t + 1 == p * q + (m + 1);
      ModUnique(t + 1, q, m + 1, p);
    }
  }

  lemma MulSign(p: nat, d: int)
    ensures d >= 1 ==> p * d >= p
    ensures d <= -1 ==> p * d <= 0 - p
  {
  }

  lemma ModUnique(v: nat, q: nat, m: nat, p: nat)
    requires v == p * q + m && m < p
    ensures v % p == m
  {
    var d := v / p - q;
    assert p * d == p * (v / p) - p * q;
    assert p * d == m - v % p;
    MulSign(p, d);
  }

  /**
    After t runs a freshly added entry is on exactly in the first part of each period, for all
    16-bit lengths; how far it is into the period shows in the countdown.
   */
  /** The slot stands at place `m` of its cycle of `on + off` runs. */
  predicate InPhase(r: Slot, on: nat, off: nat, m: nat) {
    && on == Lasts(r.onLength) && off == Lasts(r.offLength) && m < on + off
    && (r.status % 2 == 1 <==> m < on)
    && Lasts(r.countdown) == (if m < on then on else on + off) - m
  }

  lemma PhaseMoves(r: Slot, next: Slot, on: nat, off: nat, m: nat)
    requires InPhase(r, on, off, m) && next == Ticked(r)
    ensures InPhase(next, on, off, if m == on + off - 1 then 0 else m + 1)
    ensures next.onLength == r.onLength && next.offLength == r.offLength
  {
    TickedCounts(r);
  }

  lemma {:induction false} BlinkPhase(s: Slot, t: nat)
    requires s.status == 1 && s.countdown == s.onLength
    ensures var r, on, off := TickedTimes(s, t), Lasts(s.onLength), Lasts(s.offLength);
            && r.onLength == s.onLength && r.offLength == s.offLength
            && (r.status % 2 == 1 <==> t % (on + off) < on)
            && Lasts(r.countdown) == (if t % (on + off) < on then on else on + off) - t % (on + off)
  {
    var on, off := Lasts(s.onLength), Lasts(s.offLength);
    if t == 0 {
      ModUnique(0, 0, 0, on + off);
    } else {
      BlinkPhase(s, t - 1);
      ModStep(t - 1, on + off);
      PhaseMoves(TickedTimes(s, t - 1), TickedTimes(s, t), on, off, (t - 1) % (on + off));
    }
  }

  /** With lengths in 1..32768 that is the plain rule. */
  lemma BlinkRule(s: Slot, t: nat)
    requires s.status == 1 && s.countdown == s.onLength
    requires 1 <= s.onLength <= 0x8000 && 1 <= s.offLength <= 0x8000
    ensures TickedTimes(s, t).status % 2 == 1 <==> t % (s.onLength + s.offLength) < s.onLength
  {
    BlinkPhase(s, t);
  }

  function TickedPool(pool: seq<Slot>, list: seq<nat>): (r: seq<Slot>)
    ensures |r| == |pool| && forall s :: 0 <= s < |pool| ==> r[s] == if s in list then Ticked(pool[s]) else pool[s]
  {
    seq(|pool|, s requires 0 <= s < |pool| => if s in list then Ticked(pool[s]) else pool[s])
  }

  lemma TickKeepsList(st: State, list: seq<nat>, r: State)
    requires Represents(st, list) && r == st.(pool := TickedPool(st.pool, list))
    ensures Represents(r, list)
  {
    forall s | 0 <= s < POOL ensures r.pool[s].next == st.pool[s].next && r.pool[s].location == st.pool[s].location {
      TickedCounts(st.pool[s]);
    }
  }

  class BlinkList {
    const pool: array<Slot>
    var head: Link
    ghost var list: seq<nat>

    ghost predicate Valid()
      reads this, pool
    {
      Represents(State(pool[..], head), list) == true
    }

    constructor ()
      ensures Valid() && fresh(pool) && list == []
    {
      pool := new Slot[POOL](_ => FREE);
      head, list := Null, [];
    }

    method Malloc() returns (l: Link)
      requires Valid()
      ensures l == var k := FirstFree(pool[..], 0); if k < POOL then To(k) else Null
    {
      for i := 0 to pool.Length
        invariant FirstFree(pool[..], 0) >= i
      {
        if pool[i].location == 0 { return To(i); }
      }
      return Null;
    }

    /**
      mp1_ioctl_add. It fails exactly if the location is off the screen or the pool is full.
      A zero location is accepted, and then there is no list any more.
     */
    method Add(user: Slot) returns (ret: int)
      requires Valid()
      modifies this, pool
      ensures if user.location >= POOL || FirstFree(old(pool[..]), 0) == POOL
              then ret == -1 && pool[..] == old(pool[..]) && head == old(head) && list == old(list) && Valid()
              else ret == 0 && State(pool[..], head) == Added(State(old(pool[..]), old(head)), user) &&
                   (user.location != 0 ==> Valid() && list == [FirstFree(old(pool[..]), 0)] + old(list))
      ensures ret == -1 <==> user.location >= 2000 || forall t :: 0 <= t < 2000 ==> old(pool[..])[t].location != 0
    {
      if user.location >= POOL { return -1; }
      var l := Malloc();
      if l.Null? { return -1; }
      ghost var before := State(pool[..], head);
      pool[l.slot] := Armed(user, head);
      head := l;
      if user.location != 0 { AddIsCons(before, list, user); }
      list := [l.slot] + list;
      return 0;
    }

    /** mp1_find_helper */
    method Find(loc: Half) returns (l: Link)
      requires Valid()
      ensures l == LinkAt(list, FindFrom(pool[..], list, loc, 0))
    {
      l := head;
      ghost var i := 0;
      while l.To? && pool[l.slot].location != loc
        invariant i <= FindFrom(pool[..], list, loc, 0) && l == LinkAt(list, i)
        decreases |list| - i
      {
        assert pool[..][list[i]].next == LinkAt(list, i + 1);
        l := pool[l.slot].next;
        i := i + 1;
      }
    }

    /** mp1_ioctl_remove: deletes the first entry with this location. */
    method Remove(loc: Half) returns (ret: int)
      requires Valid()
      modifies this, pool
      ensures Valid()
      ensures var k := FindFrom(old(pool[..]), old(list), loc, 0);
              if k == |old(list)| then ret == -1 && list == old(list) && pool[..] == old(pool[..])
              else ret == 0 && list == old(list)[..k] + old(list)[k + 1..] &&
                   State(pool[..], head) == Removed(State(old(pool[..]), old(head)), old(list), k)
    {
      var found := Find(loc);
      if found.Null? { return -1; }
      ghost var before, k := State(pool[..], head), FindFrom(pool[..], list, loc, 0);
      Unlink(found.slot, k);
      pool[found.slot] := FREE;
      ghost var after := list[..k] + list[k + 1..];
      RemoveDeletes(before, list, k, State(pool[..], head), after);
      list := after;
      return 0;
    }

    /** Walks to the pointer that leads to `slot` and makes it skip the slot. */
    method Unlink(slot: nat, ghost k: nat)
      requires Valid() && k < |list| && list[k] == slot
      modifies this`head, pool
      ensures var next := old(pool[..])[slot].next;
              if k == 0 then head == next && pool[..] == old(pool[..])
              else head == old(head) && list[k - 1] < POOL &&
                   pool[..] == old(pool[..])[list[k - 1] := old(pool[..])[list[k - 1]].(next := next)]
    {
      if head == To(slot) {
        head := pool[slot].next;
        return;
      }
      var prev := head.slot;
      ghost var i := 0;
      assert pool[..][list[i]].next == LinkAt(list, i + 1);
      while pool[prev].next != To(slot)
        invariant i < k && prev == list[i] && pool[..][list[i]].next == LinkAt(list, i + 1)
        decreases k - i
      {
        prev := pool[prev].next.slot;
        i := i + 1;
        assert pool[..][list[i]].next == LinkAt(list, i + 1);
      }
      pool[prev] := pool[prev].(next := pool[slot].next);
    }

    /** mp1_ioctl_sync */
    method Sync(from: Half, to: Half) returns (ret: int)
      requires Valid()
      modifies pool
      ensures Valid() && list == old(list)
      ensures var i, j := FindFrom(old(pool[..]), list, from, 0), FindFrom(old(pool[..]), list, to, 0);
              if i == |list| || j == |list| then ret == -1 && pool[..] == old(pool[..])
              else ret == 0 && list[i] < POOL && list[j] < POOL && pool[..] == Synced(old(pool[..]), list[i], list[j])
    {
      var src := Find(from);
      if src.Null? { return -1; }
      var dst := Find(to);
      if dst.Null? { return -1; }
      SyncKeepsList(State(pool[..], head), list, src.slot, dst.slot);
      var s := pool[src.slot];
      pool[dst.slot] := pool[dst.slot].(onLength := s.onLength, offLength := s.offLength,
                                        countdown := s.countdown, status := s.status);
      return 0;
    }

    /** mp1_rtc_tasklet: every entry of the list counts down once. */
    method Tasklet()
      requires Valid()
      modifies pool
      ensures Valid() && list == old(list) && pool[..] == TickedPool(old(pool[..]), list)
    {
      var l := head;
      ghost var i, before := 0, pool[..];
      while l.To?
        invariant i <= |list| && l == LinkAt(list, i)
        invariant forall s :: 0 <= s < POOL ==> pool[s] == if s in list[..i] then Ticked(before[s]) else before[s]
        decreases |list| - i
      {
        assert before[list[i]].next == LinkAt(list, i + 1);
        assert list[i] !in list[..i];
        TickedCounts(pool[l.slot]);
        pool[l.slot] := Ticked(pool[l.slot]);
        l := pool[l.slot].next;
        i := i + 1;
      }
      assert list[..i] == list;
      TickKeepsList(State(before, head), list, State(pool[..], head));
    }
  }
}
