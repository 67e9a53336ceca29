/**
  The read-only file system of student-distrib/file_system.c: files are index blocks
  pointing to data blocks, and names are looked up in a fixed directory.
 */
module FileSystem {
  import opened KernelBase

  const BLOCK_SIZE: nat := 4096
  const INODE_BLOCKS: nat := 1023
  const NAME_SIZE: nat := 32
  const DIR_ENTRIES: nat := 63
  const ERROR: int := -1

  datatype Inode = Inode(length: Word, blocks: seq<Word>)

  datatype Dentry = Dentry(name: seq<Byte>, fileType: Word, inode: nat)

  /** `data(b, i)` is byte i of what lies where data block b is or would be. */
  datatype Image = Image(numDir: nat, entries: seq<Dentry>, inodes: seq<Inode>, numBlocks: Word, data: (nat, nat) -> Byte)

  datatype Option<+T> = None | Some(value: T)

  // ---- reading ----

  /** An inode whose length its block list can cover. */
  predicate Bounded(ino: Inode) {
    |ino.blocks| == INODE_BLOCKS && ino.length <= INODE_BLOCKS * BLOCK_SIZE
  }

  /** The range check; with no data blocks at all the limit wraps around and every index passes. */
  predicate InRange(img: Image, block: Word) {
    block <= (img.numBlocks - 1) % 0x1_0000_0000
  }

  /** Byte `i` of the file as a flat sequence. */
  function FlatAt(img: Image, ino: Inode, i: nat): (b: Byte)
    requires Bounded(ino) && i < ino.length
  {
    img.data(ino.blocks[i / BLOCK_SIZE], i % BLOCK_SIZE)
  }

  /** The bytes of a file from one offset to another. */
  function Piece(img: Image, ino: Inode, from: nat, to: nat): (s: seq<Byte>)
    requires Bounded(ino) && from <= to && (from < to ==> to <= ino.length)
    ensures |s| == to - from
  {
    seq<Byte>(to - from, i requires 0 <= i < to - from => FlatAt(img, ino, from + i))
  }

  /** Data blocks laid end to end. */
  function Laid(img: Image, blocks: seq<Word>): (s: seq<Byte>) {
    if blocks == [] then [] else seq<Byte>(4096, j requires 0 <= j < 4096 => img.data(blocks[0], j)) + Laid(img, blocks[1..])
  }

  lemma {:induction false} LaidAt(img: Image, blocks: seq<Word>, b: nat, j: nat)
    requires b < |blocks| && j < 4096
    ensures |Laid(img, blocks)| == |blocks| * 4096 && Laid(img, blocks)[b * 4096 + j] == img.data(blocks[b], j)
    decreases |blocks|
  {
    if |blocks| > 1 { LaidAt(img, blocks[1..], if b > 0 then b - 1 else 0, j); }
  }

  /** The file is its blocks: byte j of block b comes at b * 4096 + j. */
  lemma FileIsItsBlocks(img: Image, ino: Inode, b: nat, j: nat)
    requires Bounded(ino) && j < 4096 && b * 4096 + j < ino.length
    ensures b < 1023 && FlatAt(img, ino, b * 4096 + j) == img.data(ino.blocks[b], j)
  {
    assert (b * 4096 + j) / 4096 == b && (b * 4096 + j) % 4096 == j;
  }

  /** Every piece of a file is that piece of its blocks laid end to end. */
  lemma PieceOfBlocks(img: Image, ino: Inode, from: nat, to: nat, laid: seq<Byte>)
    requires Bounded(ino) && from < to <= ino.length && laid == Laid(img, ino.blocks)
    ensures |laid| == 1023 * 4096 && Piece(img, ino, from, to) == laid[from..to]
  {
    LaidAt(img, ino.blocks, 0, 0);
    var piece := Piece(img, ino, from, to);
    forall i | 0 <= i < to - from ensures piece[i] == laid[from + i] {
      var b, j := (from + i) / 4096, (from + i) % 4096;
      FileIsItsBlocks(img, ino, b, j);
      LaidAt(img, ino.blocks, b, j);
    }
  }

  /** Where a read of `count` bytes at `offset` ends. */
  function Stop(ino: Inode, offset: nat, count: nat): (e: nat)
    ensures offset <= e && (offset < ino.length ==> e <= ino.length)
  {
    if offset >= ino.length then offset
    else if offset + count < ino.length then offset + count
    else ino.length
  }

  /** The first byte in offset..stop whose block is out of range, or `stop`. */
  function FirstBad(img: Image, ino: Inode, offset: nat, stop: nat): (k: nat)
    requires Bounded(ino) && offset <= stop && (offset < stop ==> stop <= ino.length)
    ensures offset <= k <= stop
    ensures forall i :: offset <= i < k ==> InRange(img, ino.blocks[i / BLOCK_SIZE])
    ensures k < stop ==> !InRange(img, ino.blocks[k / BLOCK_SIZE])
    decreases stop - offset
  {
    if offset == stop || !InRange(img, ino.blocks[offset / BLOCK_SIZE]) then offset
    else FirstBad(img, ino, offset + 1, stop)
  }

  /**
    read_data. A byte of the buffer changes exactly if it precedes the end of the range
    and the first block index out of range, and then it becomes the file's byte.
   */
  method ReadData(img: Image, ino: Inode, offset: Word, buf: array<Byte>, count: nat) returns (ret: int)
    requires Bounded(ino) && count <= buf.Length
    modifies buf
    ensures var stop := Stop(ino, offset, count);
            var k := FirstBad(img, ino, offset, stop);
            && ret == (if k == stop then stop - offset else ERROR)
            && forall j :: 0 <= j < buf.Length ==>
                 buf[j] == if j < k - offset then FlatAt(img, ino, offset + j) else old(buf[j])
  {
    var blockIdx := offset / BLOCK_SIZE;
    ghost var stop := Stop(ino, offset, count);
    ghost var k := FirstBad(img, ino, offset, stop);
    ret := 0;
    var i := 0;
    while i < count
      invariant i <= count && ret == i && offset + i <= k && blockIdx == (offset + i) / BLOCK_SIZE
      invariant forall j :: 0 <= j < buf.Length ==>
                  buf[j] == if j < i then FlatAt(img, ino, offset + j) else old(buf[j])
    {
      if offset + i >= ino.length { break; }
      var dataIdx := ino.blocks[blockIdx];
      if dataIdx > (img.numBlocks - 1) % 0x1_0000_0000 { return ERROR; }
      if (offset + i + 1) % BLOCK_SIZE == 0 { blockIdx := blockIdx + 1; }
      ret := ret + 1;
      buf[i] := img.data(dataIdx, (offset + i) % BLOCK_SIZE);
      i := i + 1;
    }
  }

  /** A read that does not fail delivers exactly the bytes asked for that the file has. */
  lemma StopIs(ino: Inode, offset: nat, count: nat, j: nat)
    ensures j < Stop(ino, offset, count) - offset <==> j < count && offset + j < ino.length
  {
  }

  /** Exactly the blocks there are have indices in range, unless there are none. */
  lemma InRangeIff(img: Image, block: Word)
    ensures InRange(img, block) <==> block < img.numBlocks || img.numBlocks == 0
  {
  }

  /** read_data on a range inside the file delivers that range of the file's blocks laid end to end. */
  method ReadRange(img: Image, ino: Inode, offset: Word, buf: array<Byte>, count: nat) returns (ret: int)
    requires Bounded(ino) && 0 < count <= buf.Length && offset + count <= ino.length
    modifies buf
    ensures ret == count || ret == ERROR
    ensures ret == count ==>
              && |Laid(img, ino.blocks)| == 1023 * 4096
              && buf[..count] == Laid(img, ino.blocks)[offset..offset + count] && buf[count..] == old(buf[count..])
  {
    ret := ReadData(img, ino, offset, buf, count);
    PieceOfBlocks(img, ino, offset, offset + count, Laid(img, ino.blocks));
    if ret == count { assert buf[..count] == Piece(img, ino, offset, offset + count); }
  }

  /** A read fails exactly if some block holding a byte of the range has an index out of range. */
  lemma ReadFailsIff(img: Image, ino: Inode, offset: nat, count: nat)
    requires Bounded(ino)
    ensures var stop := Stop(ino, offset, count);
            FirstBad(img, ino, offset, stop) < stop <==>
              exists b :: 0 <= b < INODE_BLOCKS && offset < (b + 1) * BLOCK_SIZE && b * BLOCK_SIZE < stop && offset < stop &&
                          !InRange(img, ino.blocks[b])
  {
    var stop := Stop(ino, offset, count);
    var k := FirstBad(img, ino, offset, stop);
    if k < stop {
      var b := k / BLOCK_SIZE;
      assert !InRange(img, ino.blocks[b]);
    }
    forall b | 0 <= b < INODE_BLOCKS && offset < (b + 1) * BLOCK_SIZE && b * BLOCK_SIZE < stop && offset < stop &&
               !InRange(img, ino.blocks[b])
      ensures k < stop
    {
      var i := if b * BLOCK_SIZE < offset then offset else b * BLOCK_SIZE;
      assert i / BLOCK_SIZE == b;
    }
  }

  // ---- names ----

  /** The part of a name that is compared: up to its terminator, at most `limit` bytes. */
  function Prefix(name: seq<Byte>, limit: nat): (s: seq<Byte>)
    ensures |s| <= limit && |s| <= |name| && s == name[..|s|] && 0 !in s
    ensures |s| < limit && |s| < |name| ==> name[|s|] == 0
  {
    if limit == 0 || name == [] || name[0] == 0 then [] else [name[0]] + Prefix(name[1..], limit - 1)
  }

  function Name(name: seq<Byte>): (s: seq<Byte>) {
    Prefix(name, NAME_SIZE)
  }

  /** A buffer that can be scanned as a name: long enough, or terminated. */
  predicate Scannable(name: seq<Byte>) {
    |Name(name)| < |name| || |Name(name)| == NAME_SIZE
  }

  method CheckFileName(fname: seq<Byte>, name: seq<Byte>) returns (same: bool)
    requires Scannable(fname) && Scannable(name)
    ensures same <==> Name(fname) == Name(name)
  {
    var a, b := Name(fname), Name(name);
    for i := 0 to NAME_SIZE
      invariant i <= |a| && i <= |b| && fname[..i] == name[..i]
    {
      if fname[i] != name[i] {
        assert i < |a| || i < |b|;
        return false;
      }
      if fname[i] == 0 && name[i] == 0 {
        assert a == fname[..i] && b == name[..i];
        return true;
      }
    }
    return true;
  }

  /** Names agree exactly if they agree byte by byte for 32 bytes or up to a terminator in both. */
  lemma NamesAgreeIff(a: seq<Byte>, b: seq<Byte>)
    requires Scannable(a) && Scannable(b)
    ensures Name(a) == Name(b) <==>
              exists k: nat :: k <= 32 && k <= |a| && k <= |b| && a[..k] == b[..k] && 0 !in a[..k] &&
                               (k == 32 || (k < |a| && k < |b| && a[k] == 0 && b[k] == 0))
  {
    if Name(a) == Name(b) {
      var k := |Name(a)|;
      assert a[..k] == b[..k] && 0 !in a[..k];
    }
    forall k: nat | k <= 32 && k <= |a| && k <= |b| && a[..k] == b[..k] && 0 !in a[..k] &&
                    (k == 32 || (k < |a| && k < |b| && a[k] == 0 && b[k] == 0))
      ensures Name(a) == Name(b)
    {
      PrefixIs(a, k);
      PrefixIs(b, k);
    }
  }

  lemma PrefixIs(a: seq<Byte>, k: nat)
    requires k <= 32 && k <= |a| && 0 !in a[..k] && (k == 32 || (k < |a| && a[k] == 0))
    ensures Name(a) == a[..k]
  {
    PrefixStops(a, k, 32);
  }

  lemma {:induction false} PrefixStops(a: seq<Byte>, k: nat, limit: nat)
    requires k <= limit && k <= |a| && 0 !in a[..k] && (k == limit || (k < |a| && a[k] == 0))
    ensures Prefix(a, limit) == a[..k]
    decreases k
  {
    if k > 0 {
      assert a[..k][0] == a[0] && a[1..][..k - 1] == a[..k][1..];
      PrefixStops(a[1..], k - 1, limit - 1);
      assert a[..k] == [a[0]] + a[1..][..k - 1];
    }
  }

  predicate ValidImage(img: Image) {
    && |img.entries| == DIR_ENTRIES && img.numDir <= DIR_ENTRIES
    && (forall i :: 0 <= i < DIR_ENTRIES ==> Scannable(img.entries[i].name))
    && (forall i :: 0 <= i < DIR_ENTRIES ==> img.entries[i].inode < |img.inodes|)
    && (forall i :: 0 <= i < DIR_ENTRIES ==> Bounded(img.inodes[img.entries[i].inode]))
  }

  /** The first entry from `i` on with this name. */
  function FindName(img: Image, name: seq<Byte>, i: nat): (k: nat)
    requires ValidImage(img) && i <= DIR_ENTRIES
    ensures i <= k <= DIR_ENTRIES && (k < DIR_ENTRIES ==> Name(img.entries[k].name) == name)
    ensures forall j :: i <= j < k ==> Name(img.entries[j].name) != name
    decreases DIR_ENTRIES - i
  {
    if i == DIR_ENTRIES || Name(img.entries[i].name) == name then i else FindName(img, name, i + 1)
  }

  /** The first directory entry from `i` on for this inode. */
  function FindInode(img: Image, n: nat, i: nat): (k: nat)
    requires ValidImage(img) && i <= img.numDir
    ensures i <= k <= img.numDir && (k < img.numDir ==> img.entries[k].inode == n)
    ensures forall j :: i <= j < k ==> img.entries[j].inode != n
    decreases img.numDir - i
  {
    if i == img.numDir || img.entries[i].inode == n then i else FindInode(img, n, i + 1)
  }

  lemma EmptyName(name: seq<Byte>, s: seq<Byte>)
    requires Scannable(name) && s == Name(name)
    ensures |name| > 0 && (s == [] <==> name[0] == 0)
  {
    assert |s| > 0 ==> s[0] in s;
  }

  method ReadDentryByName(img: Image, fname: seq<Byte>) returns (r: Option<Dentry>)
    requires ValidImage(img) && Scannable(fname)
    ensures var k := FindName(img, Name(fname), 0);
            r == if Name(fname) == [] || k == DIR_ENTRIES then None else Some(img.entries[k])
  {
    ghost var wanted := Name(fname);
    EmptyName(fname, wanted);
    if fname[0] == 0 { return None; }
    for i := 0 to DIR_ENTRIES
      invariant forall j :: 0 <= j < i ==> Name(img.entries[j].name) != wanted
    {
      var same := CheckFileName(fname, img.entries[i].name);
      if same { return Some(img.entries[i]); }
    }
    return None;
  }

  method ReturnDentryByPtr(img: Image, n: nat) returns (r: Option<seq<Byte>>)
    requires ValidImage(img)
    ensures var k := FindInode(img, n, 0);
            r == if k == img.numDir then None else Some(img.entries[k].name)
  {
    for i := 0 to img.numDir
      invariant FindInode(img, n, 0) >= i
    {
      if img.entries[i].inode == n { return Some(img.entries[i].name); }
    }
    return None;
  }

  /** The inode fs_read ends up reading: from inode to name and from name back to an inode. */
  function Lookup(img: Image, n: nat): (r: Option<nat>)
    requires ValidImage(img)
  {
    var k := FindInode(img, n, 0);
    if k == img.numDir then None
    else
      var name := Name(img.entries[k].name);
      var j := FindName(img, name, 0);
      if name == [] || j == DIR_ENTRIES then None else Some(img.entries[j].inode)
  }

  ghost predicate UniqueNames(img: Image)
    requires ValidImage(img)
  {
    && (forall i :: 0 <= i < img.numDir ==> Name(img.entries[i].name) != [])
    && (forall i, j :: 0 <= i < j < img.numDir ==> Name(img.entries[i].name) != Name(img.entries[j].name))
  }

  /** With unique names every name of the directory finds its own entry. */
  lemma NameFindsItself(img: Image, k: nat, name: seq<Byte>)
    requires ValidImage(img) && UniqueNames(img) && k < img.numDir && name == Name(img.entries[k].name)
    ensures FindName(img, name, 0) == k
  {
    var j := FindName(img, name, 0);
    assert Name(img.entries[j].name) == name;
  }

  /** With unique names the detour is the identity on every inode the directory lists. */
  lemma LookupIdentity(img: Image, n: nat)
    requires ValidImage(img) && UniqueNames(img)
    ensures Lookup(img, n) == if exists i :: 0 <= i < img.numDir && img.entries[i].inode == n then Some(n) else None
  {
    var k := FindInode(img, n, 0);
    if k < img.numDir { NameFindsItself(img, k, Name(img.entries[k].name)); }
  }

  /** fs_read without the position update. */
  method FsRead(img: Image, n: nat, offset: Word, buf: array<Byte>, count: nat) returns (found: bool, ret: int)
    requires ValidImage(img) && count <= buf.Length
    modifies buf
    ensures found <==> Lookup(img, n).Some?
    ensures match Lookup(img, n)
            case None => ret == ERROR && buf[..] == old(buf[..])
            case Some(m) =>
              && m < |img.inodes|
              && var ino := img.inodes[m];
              && var stop := Stop(ino, offset, count);
              && var k := FirstBad(img, ino, offset, stop);
              && ret == (if k == stop then stop - offset else ERROR)
              && forall j :: 0 <= j < buf.Length ==>
                   buf[j] == if j < k - offset then FlatAt(img, ino, offset + j) else old(buf[j])
  {
    var name := ReturnDentryByPtr(img, n);
    if name.None? { return false, ERROR; }
    var d := ReadDentryByName(img, name.value);
    if d.None? { return false, ERROR; }
    found := true;
    ret := ReadData(img, img.inodes[d.value.inode], offset, buf, count);
  }
}
