/**
  The file descriptors of student-distrib/file_array.c: opening, reading with a position
  per descriptor, and closing. The position update goes by inode, so descriptors of the
  same file move together.
 */
module Descriptors {
  import opened KernelBase
  import opened FileSystem

  const SLOTS: nat := 8
  const FD_START: nat := 2

  datatype Kind = Rtc | Directory | Regular | Stdin | Stdout

  datatype Desc = Desc(inUse: bool, kind: Kind, inode: Option<nat>, position: Word)

  /** A 32-bit addition; a read that fails adds -1. */
  function Advance(position: Word, amount: int): (p: Word) {
    (position + amount) % WORDS
  }

  /** increment_position: every slot from 2 on that holds this inode moves, open or not. */
  function Bump(ds: seq<Desc>, n: nat, amount: int): (r: seq<Desc>)
    ensures |r| == |ds|
    ensures forall i :: 0 <= i < |ds| ==>
              r[i] == if i >= FD_START && ds[i].inode == Some(n) then ds[i].(position := Advance(ds[i].position, amount)) else ds[i]
  {
    seq(|ds|, i requires 0 <= i < |ds| =>
      if i >= FD_START && ds[i].inode == Some(n) then ds[i].(position := Advance(ds[i].position, amount)) else ds[i])
  }

  /** The lowest free slot from `i` on. */
  function FreeSlot(ds: seq<Desc>, i: nat): (k: nat)
    requires i <= |ds|
    ensures i <= k <= |ds| && (k < |ds| ==> !ds[k].inUse) && forall j :: i <= j < k ==> ds[j].inUse
    decreases |ds| - i
  {
    if i == |ds| || !ds[i].inUse then i else FreeSlot(ds, i + 1)
  }

  /** What fd_init makes of a directory entry; other file types are refused. */
  function Fresh(d: Dentry): (r: Option<Desc>) {
    if d.fileType == 0 then Some(Desc(true, Rtc, None, 0))
    else if d.fileType == 1 then Some(Desc(true, Directory, None, 0))
    else if d.fileType == 2 then Some(Desc(true, Regular, Some(d.inode), 0))
    else None
  }

  /** Types 0, 1 and 2 give a clock, a directory and a file, open at position 0; no other type is opened. */
  lemma FreshKind(d: Dentry)
    ensures Fresh(d).Some? <==> d.fileType <= 2
    ensures Fresh(d).Some? ==> Fresh(d).value.inUse && Fresh(d).value.position == 0
    ensures d.fileType == 0 ==> Fresh(d).value.kind == Rtc && Fresh(d).value.inode == None
    ensures d.fileType == 1 ==> Fresh(d).value.kind == Directory && Fresh(d).value.inode == None
    ensures d.fileType == 2 ==> Fresh(d).value.kind == Regular && Fresh(d).value.inode == Some(d.inode)
  {
  }

  /** What a read delivers, what it returns, and by how much the descriptors of its file move. */
  datatype Fetch = Fetch(bytes: seq<Byte>, ret: int, amount: int)

  const NOTHING: Fetch := Fetch([], 0, 0)

  /** fs_read on inode `n`: only a file that its name finds again moves, and a failing read moves it by -1. */
  function FetchAt(img: Image, n: nat, position: Word, count: nat): (f: Fetch)
    requires ValidImage(img)
    ensures |f.bytes| <= count && (f.amount == |f.bytes| || (f.bytes == [] && f.amount == ERROR))
  {
    match Lookup(img, n)
    case None => Fetch([], ERROR, 0)
    case Some(m) =>
      var ino := img.inodes[m];
      var stop := Stop(ino, position, count);
      if FirstBad(img, ino, position, stop) < stop then Fetch([], ERROR, ERROR)
      else Fetch(Piece(img, ino, position, stop), stop - position, stop - position)
  }

  // ---- the three calls as steps of the table ----

  datatype Event = Opens(fname: seq<Byte>) | Reads(fd: int, count: nat) | Closes(fd: int)

  /** The slot and its new contents if opening succeeds. */
  function OpenSlot(img: Image, ds: seq<Desc>, fname: seq<Byte>): (r: Option<(nat, Desc)>)
    requires ValidImage(img)
    ensures r.Some? ==> FD_START <= r.value.0 < |ds| && !ds[r.value.0].inUse
  {
    if |ds| <= FD_START || FreeSlot(ds, FD_START) == |ds| || Name(fname) == [] then None
    else
      var e := FindName(img, Name(fname), 0);
      if e == DIR_ENTRIES || Fresh(img.entries[e]).None? then None
      else Some((FreeSlot(ds, FD_START), Fresh(img.entries[e]).value))
  }

  /** The slot is open on a regular file. */
  predicate Reading(ds: seq<Desc>, fd: int) {
    0 <= fd < |ds| && ds[fd].inUse && ds[fd].kind == Regular && ds[fd].inode.Some?
  }

  function Apply(img: Image, ds: seq<Desc>, e: Event): (r: seq<Desc>)
    requires ValidImage(img)
    ensures |r| == |ds|
  {
    match e
    case Opens(fname) =>
      (match OpenSlot(img, ds, fname) case None => ds case Some(slot) => ds[slot.0 := slot.1])
    case Reads(fd, count) =>
      if Reading(ds, fd) then Bump(ds, ds[fd].inode.value, FetchAt(img, ds[fd].inode.value, ds[fd].position, count).amount)
      else ds
    case Closes(fd) =>
      if FD_START <= fd < |ds| && ds[fd].inUse then ds[fd := ds[fd].(inUse := false)] else ds
  }

  /** A closed slot cannot be read or closed again, no other slot changes, and it is the next to be opened if no lower one is free. */
  lemma CloseFrees(img: Image, ds: seq<Desc>, fd: nat, r: seq<Desc>, count: nat)
    requires ValidImage(img) && 2 <= fd < |ds| && ds[fd].inUse && r == Apply(img, ds, Closes(fd))
    ensures !r[fd].inUse && forall i :: 0 <= i < |ds| && i != fd ==> r[i] == ds[i]
    ensures Apply(img, r, Reads(fd, count)) == r && Apply(img, r, Closes(fd)) == r
    ensures (forall i :: 2 <= i < fd ==> ds[i].inUse) <==> FreeSlot(r, 2) == fd
  {
  }

  /** An open followed by a close leaves the slot as free as before, with nothing but its old contents gone. */
  lemma CloseUndoesOpen(img: Image, ds: seq<Desc>, fname: seq<Byte>, fd: nat, r: seq<Desc>)
    requires ValidImage(img) && OpenSlot(img, ds, fname).Some? && fd == OpenSlot(img, ds, fname).value.0
    requires r == Apply(img, Apply(img, ds, Opens(fname)), Closes(fd))
    ensures |r| == |ds| && FreeSlot(r, 2) == fd && forall i :: 0 <= i < |ds| && i != fd ==> r[i] == ds[i]
  {
    var held := Apply(img, ds, Opens(fname));
    assert fd == FreeSlot(ds, 2) && held[fd].inUse && forall i :: 0 <= i < |ds| && i != fd ==> held[i] == ds[i];
    CloseFrees(img, held, fd, r, 0);
  }

  lemma Filled(bytes: seq<Byte>, before: seq<Byte>, after: seq<Byte>)
    requires |bytes| <= |before| == |after|
    requires forall j :: 0 <= j < |after| ==> after[j] == if j < |bytes| then bytes[j] else before[j]
    ensures after == bytes + before[|bytes|..]
  {
  }

  lemma BumpNothing(ds: seq<Desc>, n: nat)
    ensures Bump(ds, n, 0) == ds
  {
  }

  /** What FsRead promises of a file that its name finds again, as a fetch. */
  lemma FetchOf(img: Image, n: nat, ino: Inode, position: Word, count: nat, before: seq<Byte>, after: seq<Byte>, ret: int, stop: nat, k: nat)
    requires ValidImage(img) && Lookup(img, n).Some? && ino == img.inodes[Lookup(img, n).value] && count <= |before| == |after|
    requires stop == Stop(ino, position, count) && k == FirstBad(img, ino, position, stop)
    requires ret == if k == stop then stop - position else ERROR
    requires forall j :: 0 <= j < |after| ==> after[j] == if j < k - position then FlatAt(img, ino, position + j) else before[j]
    ensures var f := FetchAt(img, n, position, count);
            ret == f.ret == f.amount && (ret != ERROR ==> ret == |f.bytes| && after == f.bytes + before[ret..])
  {
    if k == stop {
      StopIs(ino, position, count, |after|);
      Filled(Piece(img, ino, position, stop), before, after);
    }
  }

  method FetchFile(img: Image, n: nat, position: Word, buf: array<Byte>, count: nat) returns (found: bool, ret: int)
    requires ValidImage(img) && count <= buf.Length
    modifies buf
    ensures var f := FetchAt(img, n, position, count);
            && ret == f.ret && f.amount == (if found then ret else 0)
            && (ret != ERROR ==> ret == |f.bytes| && buf[..] == f.bytes + old(buf[..])[ret..])
  {
    found, ret := FsRead(img, n, position, buf, count);
    if found {
      ghost var ino := img.inodes[Lookup(img, n).value];
      ghost var stop := Stop(ino, position, count);
      FetchOf(img, n, ino, position, count, old(buf[..]), buf[..], ret, stop, FirstBad(img, ino, position, stop));
    }
  }

  /** Which slot opening takes, what it then holds, and when it fails instead. */
  ghost predicate OpenIs(img: Image, ds: seq<Desc>, fname: seq<Byte>, fd: int, r: seq<Desc>)
    requires ValidImage(img) && |ds| == |r| == 8
  {
    var k := FindName(img, Name(fname), 0);
    && (fd == -1 <==> (forall i :: 2 <= i < 8 ==> ds[i].inUse) || Name(fname) == [] || k == 63 || img.entries[k].fileType > 2)
    && (fd == -1 ==> r == ds)
    && (fd != -1 ==>
         && 2 <= fd < 8 && !ds[fd].inUse && (forall i :: 2 <= i < fd ==> ds[i].inUse)
         && (forall i :: 0 <= i < 8 && i != fd ==> r[i] == ds[i])
         && r[fd].inUse && r[fd].position == 0
         && (img.entries[k].fileType == 0 ==> r[fd].kind == Rtc && r[fd].inode == None)
         && (img.entries[k].fileType == 1 ==> r[fd].kind == Directory && r[fd].inode == None)
         && (img.entries[k].fileType == 2 ==> r[fd].kind == Regular && r[fd].inode == Some(img.entries[k].inode)))
  }

  lemma OpenFacts(img: Image, ds: seq<Desc>, fname: seq<Byte>)
    requires ValidImage(img) && |ds| == 8
    ensures OpenIs(img, ds, fname, match OpenSlot(img, ds, fname) case None => ERROR case Some(slot) => slot.0,
                   Apply(img, ds, Opens(fname)))
  {
  }

  class Table {
    const desc: array<Desc>

    ghost predicate Valid()
      reads this, desc
    {
      desc.Length == SLOTS && forall i :: 0 <= i < SLOTS && desc[i].kind == Regular ==> desc[i].inode.Some?
    }

    constructor ()
      ensures Valid() && fresh(desc)
      ensures desc[..] == [Desc(true, Stdin, None, 0), Desc(true, Stdout, None, 0)] + seq(6, _ => Desc(false, Rtc, None, 0))
    {
      var stdin, stdout := Desc(true, Stdin, None, 0), Desc(true, Stdout, None, 0);
      desc := new Desc[SLOTS](i => if i == 0 then stdin else if i == 1 then stdout else Desc(false, Rtc, None, 0));
    }

    method FindFree() returns (chosen: nat)
      requires Valid()
      ensures chosen == FreeSlot(desc[..], FD_START)
    {
      chosen := FD_START;
      while chosen < SLOTS && desc[chosen].inUse
        invariant FD_START <= chosen <= SLOTS && forall j :: FD_START <= j < chosen ==> desc[j].inUse
      {
        chosen := chosen + 1;
      }
    }

    /** kopen: the lowest free slot from 2 on gets position 0, or nothing changes. */
    method Open(img: Image, fname: seq<Byte>) returns (fd: int)
      requires Valid() && ValidImage(img) && Scannable(fname)
      modifies desc
      ensures Valid() && desc[..] == Apply(img, old(desc[..]), Opens(fname))
      ensures fd == match OpenSlot(img, old(desc[..]), fname) case None => ERROR case Some(slot) => slot.0
      ensures OpenIs(img, old(desc[..]), fname, fd, desc[..])
    {
      OpenFacts(img, desc[..], fname);
      var chosen := FindFree();
      if chosen == SLOTS { return ERROR; }
      var data := ReadDentryByName(img, fname);
      if data.None? { return ERROR; }
      var d := Fresh(data.value);
      if d.None? { return ERROR; }
      desc[chosen] := d.value;
      return chosen;
    }

    method IncrementPosition(n: nat, amount: int)
      requires desc.Length == SLOTS
      modifies desc
      ensures desc[..] == Bump(old(desc[..]), n, amount)
    {
      for i := FD_START to SLOTS
        invariant forall j :: 0 <= j < SLOTS ==> desc[j] == if j < i then Bump(old(desc[..]), n, amount)[j] else old(desc[j])
      {
        if desc[i].inode == Some(n) {
          desc[i] := desc[i].(position := Advance(desc[i].position, amount));
        }
      }
    }

    /** fs_read with its position update. */
    method ReadFile(img: Image, n: nat, position: Word, buf: array<Byte>, count: nat) returns (ret: int)
      requires Valid() && ValidImage(img) && count <= buf.Length
      modifies desc, buf
      ensures var f := FetchAt(img, n, position, count);
              && Valid() && desc[..] == Bump(old(desc[..]), n, f.amount) && ret == f.ret
              && (ret != ERROR ==> ret == |f.bytes| && buf[..] == f.bytes + old(buf[..])[ret..])
    {
      var found;
      found, ret := FetchFile(img, n, position, buf, count);
      BumpNothing(desc[..], n);
      if found { IncrementPosition(n, ret); }
    }

    /** kread; `device` is what the clock, the directory or the keyboard delivers if the slot is open on one of them. */
    method Read(img: Image, fd: int, buf: array<Byte>, count: int, device: seq<Byte>) returns (ret: int)
      requires Valid() && ValidImage(img) && count <= buf.Length && |device| <= buf.Length
      modifies desc, buf
      ensures Valid() && desc[..] == (if count < 0 then old(desc[..]) else Apply(img, old(desc[..]), Reads(fd, count)))
      ensures if !(0 <= fd < SLOTS && count >= 0 && old(desc[fd]).inUse && old(desc[fd]).kind != Stdout) then
                ret == ERROR && buf[..] == old(buf[..])
              else if old(desc[fd]).kind == Regular then
                var f := FetchAt(img, old(desc[fd]).inode.value, old(desc[fd]).position, count);
                ret == f.ret && (ret != ERROR ==> ret == |f.bytes| && buf[..] == f.bytes + old(buf[..])[ret..])
              else ret == |device| && buf[..] == device + old(buf[..])[ret..]
    {
      if fd < 0 || fd >= SLOTS || count < 0 || !desc[fd].inUse || desc[fd].kind == Stdout { return ERROR; }
      if desc[fd].kind == Regular {
        ret := ReadFile(img, desc[fd].inode.value, desc[fd].position, buf, count);
      } else {
        ret := Deliver(device, buf);
      }
    }

    method Deliver(device: seq<Byte>, buf: array<Byte>) returns (ret: int)
      requires |device| <= buf.Length
      modifies buf
      ensures ret == |device| && buf[..] == device + old(buf[..])[ret..]
    {
      for i := 0 to |device|
        invariant forall j :: 0 <= j < buf.Length ==> buf[j] == if j < i then device[j] else old(buf[j])
      {
        buf[i] := device[i];
      }
      ret := |device|;
      Filled(device, old(buf[..]), buf[..]);
    }

    /** kclose: only the in-use flag goes; the inode and the position stay behind. */
    method Close(img: Image, fd: int) returns (ret: int)
      requires Valid() && ValidImage(img)
      modifies desc
      ensures Valid() && desc[..] == Apply(img, old(desc[..]), Closes(fd))
      ensures ret == if FD_START <= fd < SLOTS && old(desc[fd]).inUse then 0 else ERROR
      ensures ret == 0 ==> 2 <= fd < 8 && !desc[fd].inUse
      ensures forall i :: 0 <= i < 8 && !(ret == 0 && i == fd) ==> desc[i] == old(desc[i])
    {
      if fd < FD_START || fd >= SLOTS || !desc[fd].inUse { return ERROR; }
      desc[fd] := desc[fd].(inUse := false);
      return 0;
    }

    /** A slot that has been closed: reading it and closing it again are errors that change nothing, and opening takes it. */
    method CloseReadReopen(img: Image, fd: nat, buf: array<Byte>, count: nat, fname: seq<Byte>) returns (a: int, b: int, c: int, d: int)
      requires Valid() && ValidImage(img) && Scannable(fname) && count <= buf.Length
      requires 2 <= fd < 8 && desc[fd].inUse && forall i :: 2 <= i < fd ==> desc[i].inUse
      modifies desc, buf
      ensures a == 0 && b == ERROR && c == ERROR && buf[..] == old(buf[..]) && (d == fd || d == ERROR)
      ensures forall i :: 0 <= i < 8 && i != fd ==> desc[i] == old(desc[i])
      ensures Valid() && (d == ERROR ==> !desc[fd].inUse)
    {
      a := Close(img, fd);
      b := Read(img, fd, buf, count, []);
      c := Close(img, fd);
      d := Open(img, fname);
    }
  }
}
