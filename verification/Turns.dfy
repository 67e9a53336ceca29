/**
  A file as one descriptor sees it: the sequence of reads of the file, its own and those
  through other descriptors, and what they do to the descriptor's position.
 */
module Turns {
  import opened KernelBase
  import opened Descriptors

  /** A read of the file: where the descriptor stood, what was delivered, and how far it moved. */
  datatype Turn = Turn(own: bool, position: Word, bytes: seq<Byte>, amount: int)

  predicate Plausible(t: Turn) {
    t.amount == |t.bytes| || (t.amount == -1 && t.bytes == [])
  }

  /** Each turn starts where the last one left the descriptor, the first at `p`, and the last leaves it at `q`. */
  ghost predicate Linked(ts: seq<Turn>, p: Word, q: Word) {
    if ts == [] then p == q
    else ts[0].position == p && Plausible(ts[0]) && Linked(ts[1..], Advance(p, ts[0].amount), q)
  }

  /** The bytes that all reads return, and how many reads fail. */
  function Bytes(ts: seq<Turn>): (n: nat) {
    if ts == [] then 0 else |ts[0].bytes| + Bytes(ts[1..])
  }

  function Failures(ts: seq<Turn>): (n: nat)
    ensures n <= |ts|
  {
    if ts == [] then 0 else (if ts[0].amount < 0 then 1 else 0) + Failures(ts[1..])
  }

  /** Everything the descriptor's own reads return, in order, and how much others fetch. */
  function Returned(ts: seq<Turn>): (s: seq<Byte>) {
    if ts == [] then [] else (if ts[0].own then ts[0].bytes else []) + Returned(ts[1..])
  }

  function Others(ts: seq<Turn>): (n: nat) {
    if ts == [] then 0 else (if ts[0].own then 0 else |ts[0].bytes|) + Others(ts[1..])
  }

  lemma AdvanceAdds(p: Word, a: int, b: int)
    ensures Advance(Advance(p, a), b) == Advance(p, a + b)
  {
  }

  lemma {:induction false} BytesSplit(ts: seq<Turn>)
    ensures Bytes(ts) == |Returned(ts)| + Others(ts)
  {
    if ts != [] { BytesSplit(ts[1..]); }
  }

  /** The position moves by the bytes returned less the number of failed reads. */
  lemma {:induction false} PositionMoves(ts: seq<Turn>, p: Word, q: Word)
    requires Linked(ts, p, q)
    ensures q == Advance(p, Bytes(ts) - Failures(ts))
  {
    if ts != [] {
      PositionMoves(ts[1..], Advance(p, ts[0].amount), q);
      AdvanceAdds(p, ts[0].amount, Bytes(ts[1..]) - Failures(ts[1..]));
    }
  }

  lemma SamePlaceIff(p: Word, bytes: int, failures: int)
    ensures Advance(p, bytes - failures) == Advance(p, bytes) <==> failures % WORDS == 0
  {
  }

  // ---- consecutive reads ----

  /** Every own read starts where the one before it ended, the first at `at`. */
  ghost predicate Consecutive(ts: seq<Turn>, at: Word) {
    if ts == [] then true
    else if ts[0].own then ts[0].position == at && Consecutive(ts[1..], Advance(at, |ts[0].bytes|))
    else Consecutive(ts[1..], at)
  }

  /** At every own read, all other movement since the one before it adds up to nothing. */
  ghost predicate Undisturbed(ts: seq<Turn>, drift: int) {
    if ts == [] then true
    else if ts[0].own then drift % WORDS == 0 && Undisturbed(ts[1..], ts[0].amount - |ts[0].bytes|)
    else Undisturbed(ts[1..], drift + ts[0].amount)
  }

  /** Exactly when a series of reads is consecutive, failed reads and other descriptors included. */
  lemma {:induction false} ConsecutiveIff(ts: seq<Turn>, p: Word, q: Word, at: Word, drift: int)
    requires Linked(ts, p, q) && p == Advance(at, drift)
    ensures Consecutive(ts, at) <==> Undisturbed(ts, drift)
    decreases |ts|
  {
    if ts != [] {
      var t, next := ts[0], Advance(p, ts[0].amount);
      SamePlaceIff(at, drift, drift);
      if !t.own {
        AdvanceAdds(at, drift, t.amount);
        ConsecutiveIff(ts[1..], next, q, at, drift + t.amount);
      } else if drift % WORDS == 0 {
        AdvanceAdds(at, |t.bytes|, t.amount - |t.bytes|);
        ConsecutiveIff(ts[1..], next, q, Advance(at, |t.bytes|), t.amount - |t.bytes|);
      }
    }
  }

  /** Before the first own read and between any two of them, others fetch nothing. */
  ghost predicate QuietBetween(ts: seq<Turn>, since: nat) {
    if ts == [] then true
    else if ts[0].own then since == 0 && QuietBetween(ts[1..], 0)
    else QuietBetween(ts[1..], since + |ts[0].bytes|)
  }

  lemma {:induction false} QuietIsUndisturbed(ts: seq<Turn>, p: Word, q: Word, since: nat)
    requires Linked(ts, p, q) && Failures(ts) == 0 && since + Others(ts) < WORDS
    ensures Undisturbed(ts, since) <==> QuietBetween(ts, since)
    decreases |ts|
  {
    if ts != [] {
      var t, next := ts[0], Advance(p, ts[0].amount);
      QuietIsUndisturbed(ts[1..], next, q, if t.own then 0 else since + |t.bytes|);
    }
  }

  lemma {:induction false} AloneIsQuiet(ts: seq<Turn>)
    requires Others(ts) == 0
    ensures QuietBetween(ts, 0)
  {
    if ts != [] { AloneIsQuiet(ts[1..]); }
  }

  // ---- summaries, given whether any read fails ----

  /** The position is the total of the bytes returned exactly if the failures are a multiple of 2^32. */
  lemma PositionIsTotalIff(ts: seq<Turn>, p: Word, q: Word, fails: bool, length: nat)
    requires Linked(ts, p, q) && (Failures(ts) > 0 <==> fails) && |ts| <= length
    ensures q == Advance(p, Bytes(ts)) <==> Failures(ts) % WORDS == 0
    ensures length < WORDS ==> (q == Advance(p, Bytes(ts)) <==> !fails)
  {
    PositionMoves(ts, p, q);
    SamePlaceIff(p, Bytes(ts), Failures(ts));
  }

  lemma MixedSeries(ts: seq<Turn>, p: Word, q: Word)
    requires Linked(ts, p, q)
    ensures q == Advance(p, |Returned(ts)| + Others(ts) - Failures(ts))
  {
    PositionMoves(ts, p, q);
    BytesSplit(ts);
  }

  lemma ConsecutiveIffQuiet(ts: seq<Turn>, p: Word, q: Word, fails: bool)
    requires Linked(ts, p, q) && (Failures(ts) > 0 <==> fails)
    ensures Consecutive(ts, p) <==> Undisturbed(ts, 0)
    ensures !fails && Others(ts) < WORDS ==> (Consecutive(ts, p) <==> QuietBetween(ts, 0))
  {
    ConsecutiveIff(ts, p, q, p, 0);
    if !fails && Others(ts) < WORDS { QuietIsUndisturbed(ts, p, q, 0); }
  }

  /** Alone and without failures a descriptor reads consecutively and stands where its bytes end. */
  lemma AloneIsConsecutive(ts: seq<Turn>, p: Word, q: Word)
    requires Linked(ts, p, q) && Failures(ts) == 0 && Others(ts) == 0
    ensures Consecutive(ts, p) && q == Advance(p, |Returned(ts)|)
  {
    AloneIsQuiet(ts);
    ConsecutiveIffQuiet(ts, p, q, false);
    MixedSeries(ts, p, q);
  }
}
