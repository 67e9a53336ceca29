/**
  What positions and returned bytes are over whole series of opens, reads and closes, with
  any number of descriptors on one file and with files that have unreadable blocks.
 */
module Reads {
  import opened KernelBase
  import opened FileSystem
  import opened Descriptors
  import T = Turns

  // ---- from events to the turns of one file ----

  /** The event reads inode `n`. */
  predicate Asks(ds: seq<Desc>, e: Event, n: nat) {
    e.Reads? && Reading(ds, e.fd) && ds[e.fd].inode.value == n
  }

  /** The event does not give the slot to another file. */
  ghost predicate Spares(img: Image, ds: seq<Desc>, e: Event, fd: nat)
    requires ValidImage(img)
  {
    e.Opens? && OpenSlot(img, ds, e.fname).Some? ==> OpenSlot(img, ds, e.fname).value.0 != fd
  }

  /** The slot holds inode `n`, throughout the series: it is not opened anew. */
  ghost predicate Stays(img: Image, ds: seq<Desc>, es: seq<Event>, fd: nat, n: nat)
    requires ValidImage(img)
    decreases |es|
  {
    && FD_START <= fd < |ds| && ds[fd].inode == Some(n)
    && (es == [] || (Spares(img, ds, es[0], fd) && Stays(img, Apply(img, ds, es[0]), es[1..], fd, n)))
  }

  function ApplyAll(img: Image, ds: seq<Desc>, es: seq<Event>): (r: seq<Desc>)
    requires ValidImage(img)
    ensures |r| == |ds|
    decreases |es|
  {
    if es == [] then ds else ApplyAll(img, Apply(img, ds, es[0]), es[1..])
  }

  /** What an event is for the descriptor `fd` on inode `n`: a read of the file, or nothing. */
  function TurnOf(img: Image, ds: seq<Desc>, e: Event, fd: nat, n: nat): (ts: seq<T.Turn>)
    requires ValidImage(img) && fd < |ds|
    ensures |ts| <= 1
  {
    if Asks(ds, e, n) then
      var f := FetchAt(img, n, ds[e.fd].position, e.count);
      [T.Turn(e.fd == fd, ds[fd].position, f.bytes, f.amount)]
    else []
  }

  function TurnsOf(img: Image, ds: seq<Desc>, es: seq<Event>, fd: nat, n: nat): (ts: seq<T.Turn>)
    requires ValidImage(img) && fd < |ds|
    ensures |ts| <= |es|
    decreases |es|
  {
    if es == [] then [] else TurnOf(img, ds, es[0], fd, n) + TurnsOf(img, Apply(img, ds, es[0]), es[1..], fd, n)
  }

  /** One event moves the slot by what it fetches of its inode, through whatever descriptor. */
  lemma EventMoves(img: Image, ds: seq<Desc>, e: Event, fd: nat, n: nat, next: seq<Desc>)
    requires ValidImage(img) && FD_START <= fd < |ds| && ds[fd].inode == Some(n) && Spares(img, ds, e, fd)
    requires next == Apply(img, ds, e)
    ensures if Asks(ds, e, n)
            then next[fd].position == Advance(ds[fd].position, FetchAt(img, n, ds[e.fd].position, e.count).amount)
            else next[fd].position == ds[fd].position
  {
  }

  lemma LinkTurn(first: seq<T.Turn>, rest: seq<T.Turn>, p: Word, m: Word, q: Word)
    requires T.Linked(rest, m, q)
    requires if first == [] then p == m
             else |first| == 1 && first[0].position == p && T.Plausible(first[0]) && m == Advance(p, first[0].amount)
    ensures T.Linked(first + rest, p, q)
  {
    if first == [] {
      assert first + rest == rest;
    } else {
      assert (first + rest)[1..] == rest;
    }
  }

  /** The turns of a series lead from the slot's position before it to the one after it. */
  lemma {:induction false} TurnsLinked(img: Image, ds: seq<Desc>, es: seq<Event>, fd: nat, n: nat)
    requires ValidImage(img) && Stays(img, ds, es, fd, n)
    ensures T.Linked(TurnsOf(img, ds, es, fd, n), ds[fd].position, ApplyAll(img, ds, es)[fd].position)
    decreases |es|
  {
    if es != [] {
      var next, rest := Apply(img, ds, es[0]), es[1..];
      TurnsLinked(img, next, rest, fd, n);
      EventMoves(img, ds, es[0], fd, n, next);
      LinkTurn(TurnOf(img, ds, es[0], fd, n), TurnsOf(img, next, rest, fd, n),
               ds[fd].position, next[fd].position, ApplyAll(img, next, rest)[fd].position);
    }
  }

  /** One call on a real table; what a device delivers does not reach the table. */
  method Perform(t: Table, img: Image, e: Event)
    requires t.Valid() && ValidImage(img) && (e.Opens? ==> Scannable(e.fname))
    modifies t.desc
    ensures t.Valid() && t.desc[..] == Apply(img, old(t.desc[..]), e)
  {
    match e
    case Opens(fname) =>
      var fd := t.Open(img, fname);
    case Reads(fd, count) =>
      var buf := new Byte[count];
      var ret := t.Read(img, fd, buf, count, []);
    case Closes(fd) =>
      var ret := t.Close(img, fd);
  }

  /** Any series of calls on a real table is the series the theorems are about. */
  method PerformAll(t: Table, img: Image, es: seq<Event>)
    requires t.Valid() && ValidImage(img) && forall i :: 0 <= i < |es| && es[i].Opens? ==> Scannable(es[i].fname)
    modifies t.desc
    ensures t.Valid() && t.desc[..] == ApplyAll(img, old(t.desc[..]), es)
  {
    for k := 0 to |es|
      invariant t.Valid() && ApplyAll(img, t.desc[..], es[k..]) == ApplyAll(img, old(t.desc[..]), es)
    {
      assert es[k..][0] == es[k] && es[k..][1..] == es[k + 1..];
      Perform(t, img, es[k]);
    }
  }

  // ---- bad blocks ----

  /** The read needs a byte from a block whose index is out of range. */
  ghost predicate NeedsBadBlock(img: Image, n: nat, position: Word, count: nat)
    requires ValidImage(img)
  {
    && Lookup(img, n).Some?
    && var ino := img.inodes[Lookup(img, n).value];
    && var stop := Stop(ino, position, count);
    && exists b :: 0 <= b < INODE_BLOCKS && position < (b + 1) * BLOCK_SIZE && b * BLOCK_SIZE < stop && position < stop &&
                   !InRange(img, ino.blocks[b])
  }

  lemma FailsIff(img: Image, n: nat, position: Word, count: nat)
    requires ValidImage(img)
    ensures FetchAt(img, n, position, count).amount < 0 <==> NeedsBadBlock(img, n, position, count)
  {
    if Lookup(img, n).Some? { ReadFailsIff(img, img.inodes[Lookup(img, n).value], position, count); }
  }

  /** Some read of the inode needs a bad block. */
  ghost predicate MeetsBadBlock(img: Image, ds: seq<Desc>, es: seq<Event>, n: nat)
    requires ValidImage(img)
    decreases |es|
  {
    es != [] &&
    ((Asks(ds, es[0], n) && NeedsBadBlock(img, n, ds[es[0].fd].position, es[0].count)) ||
     MeetsBadBlock(img, Apply(img, ds, es[0]), es[1..], n))
  }

  lemma FailuresAdd(first: seq<T.Turn>, rest: seq<T.Turn>)
    requires |first| <= 1
    ensures T.Failures(first + rest) == (if |first| == 1 && first[0].amount < 0 then 1 else 0) + T.Failures(rest)
  {
    if first == [] {
      assert first + rest == rest;
    } else {
      assert (first + rest)[1..] == rest;
    }
  }

  lemma {:induction false} FailuresIff(img: Image, ds: seq<Desc>, es: seq<Event>, fd: nat, n: nat)
    requires ValidImage(img) && fd < |ds|
    ensures T.Failures(TurnsOf(img, ds, es, fd, n)) > 0 <==> MeetsBadBlock(img, ds, es, n)
    decreases |es|
  {
    if es != [] {
      var next, rest := Apply(img, ds, es[0]), es[1..];
      FailuresIff(img, next, rest, fd, n);
      if Asks(ds, es[0], n) { FailsIff(img, n, ds[es[0].fd].position, es[0].count); }
      FailuresAdd(TurnOf(img, ds, es[0], fd, n), TurnsOf(img, next, rest, fd, n));
    }
  }

  /** A file whose every byte lies in a block in range; block entries behind its end do not matter. */
  ghost predicate Intact(img: Image, n: nat)
    requires ValidImage(img)
  {
    Lookup(img, n).Some? ==>
      var ino := img.inodes[Lookup(img, n).value];
      forall b :: 0 <= b < INODE_BLOCKS && b * BLOCK_SIZE < ino.length ==> InRange(img, ino.blocks[b])
  }

  lemma {:induction false} IntactNeverFails(img: Image, ds: seq<Desc>, es: seq<Event>, n: nat)
    requires ValidImage(img) && Intact(img, n)
    ensures !MeetsBadBlock(img, ds, es, n)
    decreases |es|
  {
    if es != [] {
      IntactNeverFails(img, Apply(img, ds, es[0]), es[1..], n);
      if Asks(ds, es[0], n) { IntactReads(img, n, ds[es[0].fd].position, es[0].count); }
    }
  }

  lemma IntactReads(img: Image, n: nat, position: Word, count: nat)
    requires ValidImage(img) && Intact(img, n)
    ensures !NeedsBadBlock(img, n, position, count)
  {
  }

  // ---- positions and consecutive reads ----

  /** What the theorems need to know of a series: its turns and whether one of them fails. */
  ghost predicate Series(img: Image, ds: seq<Desc>, es: seq<Event>, fd: nat, n: nat, ts: seq<T.Turn>, p: Word, q: Word, fails: bool)
  {
    && ValidImage(img) && Stays(img, ds, es, fd, n) && FD_START <= fd < |ds|
    && ts == TurnsOf(img, ds, es, fd, n) && p == ds[fd].position && q == ApplyAll(img, ds, es)[fd].position
    && (fails <==> MeetsBadBlock(img, ds, es, n))
  }

  lemma SeriesTurns(img: Image, ds: seq<Desc>, es: seq<Event>, fd: nat, n: nat, ts: seq<T.Turn>, p: Word, q: Word, fails: bool)
    requires Series(img, ds, es, fd, n, ts, p, q, fails)
    ensures T.Linked(ts, p, q) && (T.Failures(ts) > 0 <==> fails) && |ts| <= |es|
  {
    TurnsLinked(img, ds, es, fd, n);
    FailuresIff(img, ds, es, fd, n);
  }

  /**
    The position is where it was plus the bytes that reads of its inode returned exactly if
    the failed reads are a multiple of 2^32; in a series shorter than that, exactly if no
    read needed a bad block.
   */
  lemma PositionIsTotalIff(img: Image, ds: seq<Desc>, es: seq<Event>, fd: nat, n: nat,
                           ts: seq<T.Turn>, p: Word, q: Word, fails: bool)
    requires Series(img, ds, es, fd, n, ts, p, q, fails)
    ensures q == Advance(p, T.Bytes(ts)) <==> T.Failures(ts) % WORDS == 0
    ensures |es| < WORDS ==> (q == Advance(p, T.Bytes(ts)) <==> !fails)
  {
    SeriesTurns(img, ds, es, fd, n, ts, p, q, fails);
    T.PositionIsTotalIff(ts, p, q, fails, |es|);
  }

  /** In all cases it follows the slot's own reads, plus what others fetch, less the failures of all. */
  lemma MixedSeries(img: Image, ds: seq<Desc>, es: seq<Event>, fd: nat, n: nat,
                    ts: seq<T.Turn>, p: Word, q: Word, fails: bool)
    requires Series(img, ds, es, fd, n, ts, p, q, fails)
    ensures q == Advance(p, |T.Returned(ts)| + T.Others(ts) - T.Failures(ts))
  {
    SeriesTurns(img, ds, es, fd, n, ts, p, q, fails);
    T.MixedSeries(ts, p, q);
  }

  /**
    Each read through a descriptor starts where its last one ended exactly if all other
    movement in between adds up to nothing; while no read meets a bad block and others fetch
    fewer than 2^32 bytes, exactly if nobody else fetches a byte of the file in between.
   */
  lemma ConsecutiveIff(img: Image, ds: seq<Desc>, es: seq<Event>, fd: nat, n: nat,
                       ts: seq<T.Turn>, p: Word, q: Word, fails: bool)
    requires Series(img, ds, es, fd, n, ts, p, q, fails)
    ensures T.Consecutive(ts, p) <==> T.Undisturbed(ts, 0)
    ensures !fails && T.Others(ts) < WORDS ==> (T.Consecutive(ts, p) <==> T.QuietBetween(ts, 0))
  {
    SeriesTurns(img, ds, es, fd, n, ts, p, q, fails);
    T.ConsecutiveIffQuiet(ts, p, q, fails);
  }

  lemma PieceSplits(img: Image, ino: Inode, a: nat, b: nat, c: nat)
    requires Bounded(ino) && a <= b <= c && (a < c ==> c <= ino.length)
    ensures Piece(img, ino, a, c) == Piece(img, ino, a, b) + Piece(img, ino, b, c)
  {
  }

  /** The bytes are the file's from `at` on. */
  ghost predicate IsPiece(img: Image, ino: Inode, at: nat, bytes: seq<Byte>)
    requires Bounded(ino)
  {
    (bytes != [] ==> at + |bytes| <= ino.length) && bytes == Piece(img, ino, at, at + |bytes|)
  }

  lemma PiecesJoin(img: Image, ino: Inode, at: nat, a: seq<Byte>, b: seq<Byte>)
    requires Bounded(ino) && IsPiece(img, ino, at, a) && IsPiece(img, ino, at + |a|, b)
    ensures IsPiece(img, ino, at, a + b)
  {
    PieceSplits(img, ino, at, at + |a|, at + |a| + |b|);
  }

  ghost predicate TurnsArePieces(img: Image, ino: Inode, ts: seq<T.Turn>)
    requires Bounded(ino)
  {
    forall i :: 0 <= i < |ts| && ts[i].own ==> IsPiece(img, ino, ts[i].position, ts[i].bytes)
  }

  lemma FetchIsPiece(img: Image, n: nat, ino: Inode, at: Word, count: nat)
    requires ValidImage(img) && Lookup(img, n).Some? && ino == img.inodes[Lookup(img, n).value]
    ensures IsPiece(img, ino, at, FetchAt(img, n, at, count).bytes)
  {
  }

  lemma {:induction false} OwnTurnsArePieces(img: Image, ds: seq<Desc>, es: seq<Event>, fd: nat, n: nat, ino: Inode)
    requires ValidImage(img) && fd < |ds| && Lookup(img, n).Some? && ino == img.inodes[Lookup(img, n).value]
    ensures TurnsArePieces(img, ino, TurnsOf(img, ds, es, fd, n))
    decreases |es|
  {
    if es != [] {
      OwnTurnsArePieces(img, Apply(img, ds, es[0]), es[1..], fd, n, ino);
      if Asks(ds, es[0], n) { FetchIsPiece(img, n, ino, ds[es[0].fd].position, es[0].count); }
    }
  }

  lemma PieceEnds(img: Image, ino: Inode, at: Word, bytes: seq<Byte>)
    requires Bounded(ino) && IsPiece(img, ino, at, bytes)
    ensures Advance(at, |bytes|) == at + |bytes|
  {
  }

  lemma RestArePieces(img: Image, ino: Inode, ts: seq<T.Turn>)
    requires Bounded(ino) && TurnsArePieces(img, ino, ts) && ts != []
    ensures TurnsArePieces(img, ino, ts[1..]) && (ts[0].own ==> IsPiece(img, ino, ts[0].position, ts[0].bytes))
  {
    assert forall i :: 0 <= i < |ts| - 1 ==> ts[1..][i] == ts[i + 1];
  }

  /** Consecutive reads return consecutive pieces: together they are the file from `at` on. */
  lemma {:induction false} ConsecutivePieces(img: Image, ino: Inode, ts: seq<T.Turn>, at: Word)
    requires Bounded(ino) && TurnsArePieces(img, ino, ts) && T.Consecutive(ts, at)
    ensures IsPiece(img, ino, at, T.Returned(ts))
    decreases |ts|
  {
    if ts != [] {
      var t, rest := ts[0], ts[1..];
      RestArePieces(img, ino, ts);
      if t.own {
        PieceEnds(img, ino, at, t.bytes);
        var to := Advance(at, |t.bytes|);
        ConsecutivePieces(img, ino, rest, to);
        PiecesJoin(img, ino, at, t.bytes, T.Returned(rest));
      } else {
        ConsecutivePieces(img, ino, rest, at);
      }
    }
  }

  /** In every state of the series no other slot is open on the inode; closed ones may still hold it. */
  ghost predicate Sole(img: Image, ds: seq<Desc>, es: seq<Event>, fd: nat, n: nat)
    requires ValidImage(img)
    decreases |es|
  {
    && (forall i :: 0 <= i < |ds| && i != fd && Reading(ds, i) ==> ds[i].inode != Some(n))
    && (es == [] || Sole(img, Apply(img, ds, es[0]), es[1..], fd, n))
  }

  lemma OthersAdd(first: seq<T.Turn>, rest: seq<T.Turn>)
    requires |first| <= 1 && (|first| == 1 ==> first[0].own)
    ensures T.Others(first + rest) == T.Others(rest)
  {
    if first == [] {
      assert first + rest == rest;
    } else {
      assert (first + rest)[1..] == rest;
    }
  }

  lemma {:induction false} SoleIsAlone(img: Image, ds: seq<Desc>, es: seq<Event>, fd: nat, n: nat)
    requires ValidImage(img) && fd < |ds| && Sole(img, ds, es, fd, n)
    ensures T.Others(TurnsOf(img, ds, es, fd, n)) == 0
    decreases |es|
  {
    if es != [] {
      var next, rest := Apply(img, ds, es[0]), es[1..];
      SoleIsAlone(img, next, rest, fd, n);
      OthersAdd(TurnOf(img, ds, es[0], fd, n), TurnsOf(img, next, rest, fd, n));
    }
  }

  /** With one descriptor on an intact file, reads of any sizes return consecutive pieces up to where the descriptor stands. */
  lemma ReadsAreConsecutive(img: Image, ds: seq<Desc>, es: seq<Event>, fd: nat, n: nat, ino: Inode,
                            ts: seq<T.Turn>, p: Word, q: Word, fails: bool)
    requires Series(img, ds, es, fd, n, ts, p, q, fails) && Sole(img, ds, es, fd, n) && Intact(img, n)
    requires Lookup(img, n).Some? && ino == img.inodes[Lookup(img, n).value]
    ensures Bounded(ino) && IsPiece(img, ino, p, T.Returned(ts)) && q == p + |T.Returned(ts)|
  {
    SeriesTurns(img, ds, es, fd, n, ts, p, q, fails);
    IntactNeverFails(img, ds, es, n);
    SoleIsAlone(img, ds, es, fd, n);
    OwnTurnsArePieces(img, ds, es, fd, n, ino);
    AlonePieces(img, ino, ts, p, q);
  }

  lemma AlonePieces(img: Image, ino: Inode, ts: seq<T.Turn>, p: Word, q: Word)
    requires Bounded(ino) && TurnsArePieces(img, ino, ts)
    requires T.Linked(ts, p, q) && T.Failures(ts) == 0 && T.Others(ts) == 0
    ensures IsPiece(img, ino, p, T.Returned(ts)) && q == p + |T.Returned(ts)|
  {
    T.AloneIsConsecutive(ts, p, q);
    ConsecutivePieces(img, ino, ts, p);
  }

  // ---- where it goes wrong ----

  /** A file whose first block is bad is lost to its descriptor: one read strands it, and then all reads return nothing. */
  lemma BadBlockStrands(img: Image, ds: seq<Desc>, fd: nat, n: nat, count: nat, next: seq<Desc>)
    requires ValidImage(img) && FD_START <= fd && Reading(ds, fd) && ds[fd].inode == Some(n) && ds[fd].position == 0
    requires Lookup(img, n).Some? && img.inodes[Lookup(img, n).value].length > 0 && count > 0
    requires !InRange(img, img.inodes[Lookup(img, n).value].blocks[0])
    requires next == Apply(img, ds, Reads(fd, count))
    ensures FetchAt(img, n, 0, count).ret == ERROR && next[fd].position == 0xFFFF_FFFF
    ensures forall c: nat :: FetchAt(img, n, 0xFFFF_FFFF, c) == NOTHING
  {
    ReadFailsIff(img, img.inodes[Lookup(img, n).value], 0, count);
  }

  /** An image with a single file, named "a", of three bytes 0, 1, 2 in the given block; block 0 is the only one there is. */
  function Sample(block: Word): (img: Image)
    ensures ValidImage(img)
  {
    Image(1, seq(DIR_ENTRIES, _ => Dentry([97, 0], 2, 0)), [Inode(3, seq(INODE_BLOCKS, _ => block))], 1, (_, i: nat) => i % 256)
  }

  lemma SampleFound(img: Image, block: Word)
    requires img == Sample(block)
    ensures Name([97, 0]) == [97] && FindName(img, [97], 0) == 0 && Lookup(img, 0) == Some(0)
    ensures InRange(img, block) <==> block == 0
  {
    assert Prefix([0], 31) == [] && Prefix([97, 0], 32) == [97];
  }

  /** The failing read: a new table, a file in a bad block, one byte asked for. */
  method ReadStrands(count: nat) returns (t: Table, fd: int, first: int, second: int)
    ensures fresh(t) && t.Valid() && fd == 2 && first == ERROR && t.desc[2].position == 0xFFFF_FFFF && second == 0
  {
    var img := Sample(1);
    SampleFound(img, 1);
    t := new Table();
    fd := t.Open(img, [97, 0]);
    ghost var ds := t.desc[..];
    assert Reading(ds, 2) && ds[2].inode == Some(0) && ds[2].position == 0;
    var buf := new Byte[count + 1];
    first := t.Read(img, fd, buf, 1, []);
    BadBlockStrands(img, ds, 2, 0, 1, t.desc[..]);
    assert FetchAt(img, 0, 0xFFFF_FFFF, count) == NOTHING;
    second := t.Read(img, fd, buf, count, []);
  }

  lemma SampleByte(img: Image, i: Word)
    requires img == Sample(0) && i < 3
    ensures FetchAt(img, 0, i, 1) == Fetch([i], 1, 1)
  {
    SampleFound(img, 0);
    var ino := img.inodes[0];
    ReadFailsIff(img, ino, i, 1);
    assert i / BLOCK_SIZE == 0 && i % BLOCK_SIZE == i && i % 256 == i;
    assert FlatAt(img, ino, i) == i;
    assert Piece(img, ino, i, i + 1) == [i];
  }

  /** Two slots open on the sample file, both at byte `i`. */
  ghost predicate BothAt(ds: seq<Desc>, i: Word) {
    && |ds| == SLOTS && Reading(ds, 2) && Reading(ds, 3)
    && ds[2].inode == ds[3].inode == Some(0) && ds[2].position == ds[3].position == i
  }

  method OpenTwice(img: Image) returns (t: Table)
    requires img == Sample(0)
    ensures fresh(t) && fresh(t.desc) && t.Valid() && BothAt(t.desc[..], 0)
  {
    SampleFound(img, 0);
    t := new Table();
    var a := t.Open(img, [97, 0]);
    assert t.desc[2] == Desc(true, Regular, Some(0), 0) && !t.desc[3].inUse;
    assert FreeSlot(t.desc[..], FD_START) == 3;
    var b := t.Open(img, [97, 0]);
  }

  method ReadOne(t: Table, img: Image, fd: nat, ghost i: Word) returns (byte: Byte)
    requires img == Sample(0) && t.Valid() && BothAt(t.desc[..], i) && i < 3 && (fd == 2 || fd == 3)
    modifies t.desc
    ensures t.Valid() && BothAt(t.desc[..], i + 1) && byte == i
  {
    SampleByte(img, i);
    var buf := new Byte[1];
    var n := t.Read(img, fd, buf, 1, []);
    byte := buf[0];
  }

  /** Two descriptors on one file: after one byte through each, the first skips the byte the second got. */
  method TwoDescriptorsSkip() returns (first: Byte, other: Byte, second: Byte)
    ensures first == 0 && other == 1 && second == 2
  {
    var img := Sample(0);
    var t := OpenTwice(img);
    first := ReadOne(t, img, 2, 0);
    other := ReadOne(t, img, 3, 1);
    second := ReadOne(t, img, 2, 2);
  }

  lemma OneMoreByte(img: Image, ds: seq<Desc>, e: Event, i: Word)
    requires img == Sample(0) && BothAt(ds, i) && i < 3 && (e == Reads(2, 1) || e == Reads(3, 1))
    ensures BothAt(Apply(img, ds, e), i + 1) && TurnOf(img, ds, e, 2, 0) == [T.Turn(e.fd == 2, i, [i], 1)]
  {
    SampleByte(img, i);
  }

  lemma TurnsStep(img: Image, ds: seq<Desc>, e: Event, rest: seq<Event>, next: seq<Desc>, fd: nat, n: nat)
    requires ValidImage(img) && fd < |ds| && next == Apply(img, ds, e)
    ensures TurnsOf(img, ds, [e] + rest, fd, n) == TurnOf(img, ds, e, fd, n) + TurnsOf(img, next, rest, fd, n)
  {
    assert ([e] + rest)[1..] == rest;
  }

  /** As a series of events: the reads through the first descriptor are not consecutive, and it gets bytes 0 and 2. */
  lemma SharedReadsSkip(img: Image, ds: seq<Desc>, ts: seq<T.Turn>)
    requires img == Sample(0) && BothAt(ds, 0)
    requires ts == TurnsOf(img, ds, [Reads(2, 1)] + ([Reads(3, 1)] + ([Reads(2, 1)] + [])), 2, 0)
    ensures T.Returned(ts) == [0, 2] && T.Others(ts) == 1 && !T.Consecutive(ts, 0) && !T.QuietBetween(ts, 0)
  {
    var d1 := Apply(img, ds, Reads(2, 1));
    OneMoreByte(img, ds, Reads(2, 1), 0);
    var d2 := Apply(img, d1, Reads(3, 1));
    OneMoreByte(img, d1, Reads(3, 1), 1);
    var d3 := Apply(img, d2, Reads(2, 1));
    OneMoreByte(img, d2, Reads(2, 1), 2);
    TurnsStep(img, d2, Reads(2, 1), [], d3, 2, 0);
    TurnsStep(img, d1, Reads(3, 1), [Reads(2, 1)] + [], d2, 2, 0);
    TurnsStep(img, ds, Reads(2, 1), [Reads(3, 1)] + ([Reads(2, 1)] + []), d1, 2, 0);
    SkippingTurns(ts, T.Turn(true, 0, [0], 1), T.Turn(false, 1, [1], 1), T.Turn(true, 2, [2], 1));
  }

  lemma SkippingTurns(ts: seq<T.Turn>, a: T.Turn, b: T.Turn, c: T.Turn)
    requires a == T.Turn(true, 0, [0], 1) && b == T.Turn(false, 1, [1], 1) && c == T.Turn(true, 2, [2], 1)
    requires ts == [a] + ([b] + ([c] + []))
    ensures T.Returned(ts) == [0, 2] && T.Others(ts) == 1 && !T.Consecutive(ts, 0) && !T.QuietBetween(ts, 0)
  {
    var s := [b] + ([c] + []);
    assert ([c] + [])[1..] == [];
    assert T.Returned([c] + []) == [2] && T.Others([c] + []) == 0;
    assert !T.Consecutive([c] + [], 1) && !T.QuietBetween([c] + [], 1);
    assert s[1..] == [c] + [];
    assert T.Returned(s) == [2] && T.Others(s) == 1 && !T.Consecutive(s, 1) && !T.QuietBetween(s, 0);
    assert ts[1..] == s;
  }
}
