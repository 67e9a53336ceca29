/**
  The blink list over whole series of calls: entries are added, removed and synced while
  the tasklet runs, and each keeps blinking on its own schedule.
 */
module BlinkRuns {
  import opened KernelBase
  import opened Blink

  /** The pool and the order in which the list visits its slots. */
  datatype Model = Model(pool: seq<Slot>, list: seq<nat>)

  datatype Call = Add(user: Slot) | Remove(loc: Half) | Sync(from: Half, to: Half) | Tick

  ghost predicate Ok(m: Model) {
    Represents(StateOf(m), m.list)
  }

  function StateOf(m: Model): (st: State) {
    State(m.pool, LinkAt(m.list, 0))
  }

  /** Location 0 is accepted by the source but leaves no list behind. */
  predicate Proper(c: Call) {
    c.Add? ==> c.user.location != 0
  }

  function Do(m: Model, c: Call): (r: Model)
    requires Ok(m) && Proper(c)
    ensures Ok(r)
  {
    match c
    case Add(user) =>
      var k := FirstFree(m.pool, 0);
      if user.location >= POOL || k == POOL then m
      else
        AddIsCons(StateOf(m), m.list, user);
        Model(Added(StateOf(m), user).pool, [k] + m.list)
    case Remove(loc) =>
      var k := FindFrom(m.pool, m.list, loc, 0);
      if k == |m.list| then m
      else
        var after := m.list[..k] + m.list[k + 1..];
        var r := Removed(StateOf(m), m.list, k);
        RemoveDeletes(StateOf(m), m.list, k, r, after);
        Model(r.pool, after)
    case Sync(from, to) =>
      var i, j := FindFrom(m.pool, m.list, from, 0), FindFrom(m.pool, m.list, to, 0);
      if i == |m.list| || j == |m.list| then m
      else
        SyncKeepsList(StateOf(m), m.list, m.list[i], m.list[j]);
        Model(Synced(m.pool, m.list[i], m.list[j]), m.list)
    case Tick =>
      var r := Model(TickedPool(m.pool, m.list), m.list);
      TickKeepsList(StateOf(m), m.list, StateOf(r));
      r
  }

  ghost function DoAll(m: Model, cs: seq<Call>): (r: Model)
    requires Ok(m) && forall i :: 0 <= i < |cs| ==> Proper(cs[i])
    ensures Ok(r)
    decreases |cs|
  {
    if cs == [] then m else DoAll(Do(m, cs[0]), cs[1..])
  }

  // ---- one slot along a series ----

  /** The call neither removes the slot nor makes it the target of a sync. */
  ghost predicate Spares(m: Model, c: Call, s: nat)
    requires Ok(m)
  {
    match c
    case Remove(loc) => var k := FindFrom(m.pool, m.list, loc, 0); k < |m.list| ==> m.list[k] != s
    case Sync(_, to) => var j := FindFrom(m.pool, m.list, to, 0); j < |m.list| ==> m.list[j] != s
    case _ => true
  }

  ghost predicate SparedBy(m: Model, cs: seq<Call>, s: nat)
    requires Ok(m) && forall i :: 0 <= i < |cs| ==> Proper(cs[i])
    decreases |cs|
  {
    cs == [] || (Spares(m, cs[0], s) && SparedBy(Do(m, cs[0]), cs[1..], s))
  }

  function Ticks(cs: seq<Call>): (n: nat) {
    if cs == [] then 0 else (if cs[0].Tick? then 1 else 0) + Ticks(cs[1..])
  }

  lemma AddSpares(m: Model, user: Slot, s: nat, r: Model)
    requires Ok(m) && Proper(Add(user)) && s in m.list && r == Do(m, Add(user))
    ensures s in r.list && s < POOL && SameTiming(r.pool[s], m.pool[s])
  {
    assert m.pool[s].location != 0;
  }

  lemma RemoveSpares(m: Model, loc: Half, s: nat, r: Model)
    requires Ok(m) && s in m.list && Spares(m, Remove(loc), s) && r == Do(m, Remove(loc))
    ensures s in r.list && s < POOL && SameTiming(r.pool[s], m.pool[s])
  {
    var k := FindFrom(m.pool, m.list, loc, 0);
    if k < |m.list| { WithoutMembers(m.list, k, s); }
  }

  lemma CallSpares(m: Model, c: Call, s: nat, r: Model)
    requires Ok(m) && Proper(c) && s in m.list && Spares(m, c, s) && r == Do(m, c)
    ensures s in r.list && s < POOL && SameTiming(r.pool[s], if c.Tick? then Ticked(m.pool[s]) else m.pool[s])
  {
    match c
    case Add(user) => AddSpares(m, user, s, r);
    case Remove(loc) => RemoveSpares(m, loc, s, r);
    case Sync(_, _) =>
    case Tick =>
  }

  lemma {:induction false} TickedFirst(x: Slot, t: nat)
    ensures TickedTimes(Ticked(x), t) == TickedTimes(x, t + 1)
  {
    if t > 0 { TickedFirst(x, t - 1); }
  }

  /** Along any series that spares it, a slot keeps the timing that as many tasklet runs alone would give it. */
  lemma {:induction false} SparedTicks(m: Model, cs: seq<Call>, s: nat, r: Model)
    requires Ok(m) && (forall i :: 0 <= i < |cs| ==> Proper(cs[i])) && s in m.list && SparedBy(m, cs, s) && r == DoAll(m, cs)
    ensures s in r.list && s < POOL && SameTiming(r.pool[s], TickedTimes(m.pool[s], Ticks(cs)))
    decreases |cs|
  {
    if cs != [] {
      var next := Do(m, cs[0]);
      CallSpares(m, cs[0], s, next);
      SparedTicks(next, cs[1..], s, r);
      var x := if cs[0].Tick? then Ticked(m.pool[s]) else m.pool[s];
      TimingStays(next.pool[s], x, Ticks(cs[1..]));
      if cs[0].Tick? { TickedFirst(m.pool[s], Ticks(cs[1..])); }
    }
  }

  lemma AddArms(m: Model, user: Slot, s: nat, added: Model)
    requires Ok(m) && 0 < user.location < POOL && s == FirstFree(m.pool, 0) < POOL && added == Do(m, Add(user))
    ensures s in added.list && s < |added.pool| && added.pool[s] == Armed(user, LinkAt(m.list, 0))
  {
    assert added.list[0] == s;
  }

  lemma TimingBlinks(x: Slot, y: Slot, t: nat, on: nat, off: nat)
    requires x.status == 1 && x.countdown == x.onLength && on == Lasts(x.onLength) && off == Lasts(x.offLength)
    requires SameTiming(y, TickedTimes(x, t))
    ensures y.status % 2 == 1 <==> t % (on + off) < on
  {
    BlinkPhase(x, t);
  }

  /**
    From its add on, through any series of calls that neither removes it nor syncs it to
    another, an entry is on exactly while the number of tasklet runs since then, modulo
    both lengths, is below the on length.
   */
  lemma EveryEntryBlinks(m: Model, user: Slot, cs: seq<Call>, s: nat, added: Model, r: Model, on: nat, off: nat, t: nat)
    requires Ok(m) && 0 < user.location < POOL && s == FirstFree(m.pool, 0) < POOL && added == Do(m, Add(user))
    requires (forall i :: 0 <= i < |cs| ==> Proper(cs[i])) && SparedBy(added, cs, s) && r == DoAll(added, cs) && t == Ticks(cs)
    requires on == Lasts(user.onLength) && off == Lasts(user.offLength)
    ensures s in r.list && s < |r.pool|
    ensures r.pool[s].status % 2 == 1 <==> t % (on + off) < on
  {
    AddArms(m, user, s, added);
    SparedTicks(added, cs, s, r);
    TimingBlinks(added.pool[s], r.pool[s], t, on, off);
  }

  // ---- the calls on a real list ----

  method Perform(b: BlinkList, c: Call)
    requires b.Valid() && Proper(c)
    modifies b, b.pool
    ensures b.Valid() && Ok(Model(old(b.pool[..]), old(b.list)))
    ensures Model(b.pool[..], b.list) == Do(Model(old(b.pool[..]), old(b.list)), c)
  {
    match c
    case Add(user) =>
      var ret := b.Add(user);
    case Remove(loc) =>
      var ret := b.Remove(loc);
    case Sync(from, to) =>
      var ret := b.Sync(from, to);
    case Tick =>
      b.Tasklet();
  }

  /** Any series of calls on a real list is the series the theorem is about. */
  method PerformAll(b: BlinkList, cs: seq<Call>)
    requires b.Valid() && forall i :: 0 <= i < |cs| ==> Proper(cs[i])
    modifies b, b.pool
    ensures b.Valid() && Ok(Model(old(b.pool[..]), old(b.list)))
    ensures Model(b.pool[..], b.list) == DoAll(Model(old(b.pool[..]), old(b.list)), cs)
  {
    for k := 0 to |cs|
      invariant b.Valid() && Ok(Model(b.pool[..], b.list))
      invariant DoAll(Model(b.pool[..], b.list), cs[k..]) == DoAll(Model(old(b.pool[..]), old(b.list)), cs)
    {
      assert cs[k..][0] == cs[k] && cs[k..][1..] == cs[k + 1..];
      Perform(b, cs[k]);
    }
  }
}
