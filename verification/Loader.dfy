/**
  What `kexecute` makes of a command name (student-distrib/file_array.c): it looks the file
  up, checks its first four bytes and copies it into memory block by block. The outcome
  is what the kernel's state machine calls a program.
 */
module Loader {
  import opened KernelBase
  import opened FileSystem
  import opened Machine

  /** DEL, E, L, F */
  const HEADER: seq<Byte> := [0x7f, 69, 76, 70]

  /** The inode of the first entry with this name. */
  function FindProgram(img: Image, fname: seq<Byte>): (r: Option<nat>)
    requires ValidImage(img)
    ensures r.Some? ==> r.value < |img.inodes|
  {
    var k := FindName(img, Name(fname), 0);
    if Name(fname) == [] || k == DIR_ENTRIES then None else Some(img.entries[k].inode)
  }

  /** The file starts, readably, with the header. */
  predicate Headed(img: Image, ino: Inode)
    requires Bounded(ino)
  {
    ino.length >= 4 && InRange(img, ino.blocks[0]) && Piece(img, ino, 0, 4) == HEADER
  }

  /** Some block that holds a byte of the file has an index out of range. */
  ghost predicate LosesBlock(img: Image, ino: Inode)
    requires Bounded(ino)
  {
    exists b :: 0 <= b < INODE_BLOCKS && b * BLOCK_SIZE < ino.length && !InRange(img, ino.blocks[b])
  }

  ghost function Outcome(img: Image, fname: seq<Byte>): (p: Program)
    requires ValidImage(img)
  {
    match FindProgram(img, fname)
    case None => NotExecutable
    case Some(m) =>
      if !Headed(img, img.inodes[m]) then NotExecutable
      else if LosesBlock(img, img.inodes[m]) then FailsToLoad
      else Loads
  }

  /** A command loads exactly if its name is listed and the file starts with DEL, E, L, F and has all its blocks. */
  lemma LoadsIff(img: Image, fname: seq<Byte>, k: nat)
    requires ValidImage(img) && k == FindName(img, Name(fname), 0)
    ensures Outcome(img, fname) == Loads <==>
              && Name(fname) != [] && k < 63
              && var ino := img.inodes[img.entries[k].inode];
              && ino.length >= 4 && Piece(img, ino, 0, 4) == [0x7f, 0x45, 0x4c, 0x46]
              && (forall b :: 0 <= b < 1023 && b * 4096 < ino.length ==> InRange(img, ino.blocks[b]))
  {
  }

  lemma WholeReadFailsIff(img: Image, ino: Inode)
    requires Bounded(ino)
    ensures Stop(ino, 0, ino.length) == ino.length
    ensures FirstBad(img, ino, 0, ino.length) < ino.length <==> LosesBlock(img, ino)
  {
    ReadFailsIff(img, ino, 0, ino.length);
  }

  lemma HeaderReadIff(img: Image, ino: Inode)
    requires Bounded(ino)
    ensures var stop := Stop(ino, 0, 4);
            FirstBad(img, ino, 0, stop) == stop == 4 <==> ino.length >= 4 && InRange(img, ino.blocks[0])
  {
  }

  /** check_executable on an inode. */
  method CheckHeader(img: Image, ino: Inode) returns (ok: bool)
    requires Bounded(ino)
    ensures ok <==> Headed(img, ino)
  {
    var buf := new Byte[4];
    var ret := ReadData(img, ino, 0, buf, 4);
    HeaderReadIff(img, ino);
    if ret == ERROR || ret < 4 { return false; }
    assert buf[..] == Piece(img, ino, 0, 4);
    ok := buf[..] == HEADER;
  }

  /** The lookup, the check, which looks the name up again, and the copy of the whole file. */
  method Prepare(img: Image, fname: seq<Byte>) returns (p: Program)
    requires ValidImage(img) && Scannable(fname)
    ensures p == Outcome(img, fname)
  {
    var data := ReadDentryByName(img, fname);
    if data.None? { return NotExecutable; }
    var again := ReadDentryByName(img, data.value.name);
    assert again == data;
    if again.None? { return NotExecutable; }
    var ok := CheckHeader(img, img.inodes[again.value.inode]);
    if !ok { return NotExecutable; }
    var ino := img.inodes[data.value.inode];
    var memory := new Byte[ino.length];
    var ret := ReadData(img, ino, 0, memory, ino.length);
    WholeReadFailsIff(img, ino);
    p := if ret == ERROR || ret < ino.length then FailsToLoad else Loads;
  }

  /** An execute that fails keeps its caller's address space unless it fails while copying, for want of a block. */
  lemma ErrorKeepsAddressSpaceIff(s: State, img: Image, fname: seq<Byte>, r: State)
    requires Inv(s) && !s.trap && s.video.cr3 == s.procs.curr && ValidImage(img)
    requires r == ExecuteBody(s, Outcome(img, fname)) && !r.trap
    ensures r.procs.curr == s.procs.curr
    ensures r.video.cr3 == r.procs.curr <==>
              !(&& (exists p :: 0 <= p < s.Size() && !s.procs.live[p])
                && FindProgram(img, fname).Some?
                && var ino := img.inodes[FindProgram(img, fname).value];
                && Headed(img, ino) && LosesBlock(img, ino))
  {
  }

  // ---- a program that does it ----

  /** A file named "a" of two blocks, headed, whose second block does not exist. */
  function Broken(): (img: Image)
    ensures ValidImage(img)
  {
    Image(1, seq(DIR_ENTRIES, _ => Dentry([97, 0], 2, 0)), [Inode(BLOCK_SIZE + 1, seq(INODE_BLOCKS, b => b))], 1,
          (_, i: nat) => if i < 4 then HEADER[i] else 0)
  }

  lemma BrokenFailsToLoad(img: Image)
    requires img == Broken()
    ensures Outcome(img, [97, 0]) == FailsToLoad
  {
    assert Prefix([0], 31) == [] && Prefix([97, 0], 32) == [97];
    assert FindName(img, [97], 0) == 0;
    var ino := img.inodes[0];
    assert forall i :: 0 <= i < 4 ==> FlatAt(img, ino, i) == HEADER[i];
    assert Piece(img, ino, 0, 4) == HEADER;
    assert 1 * BLOCK_SIZE < ino.length && !InRange(img, ino.blocks[1]);
  }
}
