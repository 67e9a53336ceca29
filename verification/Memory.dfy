/**
  The memory primitives of student-distrib/lib.c, in place on an array of bytes: the copy
  in three phases (bytes up to an aligned destination, double words, remaining bytes), the
  copy for overlapping regions, and scrolling built on the former.
 */
module Memory {
  import opened KernelBase

  /** The simultaneous copy: all source bytes as they were, put at the destination. */
  function Move(mem: seq<Byte>, dest: nat, src: nat, n: nat): (r: seq<Byte>)
    requires dest + n <= |mem| && src + n <= |mem|
    ensures |r| == |mem|
    ensures forall i :: 0 <= i < |mem| ==> r[i] == if dest <= i < dest + n then mem[src + (i - dest)] else mem[i]
  {
    seq(|mem|, i requires 0 <= i < |mem| => if dest <= i < dest + n then mem[src + (i - dest)] else mem[i])
  }

  /** The first unit memcpy copies: a byte until the destination is aligned and again at the end, else a double word. */
  function Unit(dest: nat, n: nat): (w: nat)
    requires n > 0
    ensures w == if dest % 4 == 0 && n >= 4 then 4 else 1
  {
    if dest % 4 != 0 || n < 4 then 1 else 4
  }

  /** memcpy, unit by unit in ascending order; each unit is read before it is written. */
  function Memcpy(mem: seq<Byte>, dest: nat, src: nat, n: nat): (r: seq<Byte>)
    requires dest + n <= |mem| && src + n <= |mem|
    ensures |r| == |mem|
    decreases n
  {
    if n == 0 then mem
    else
      var w := Unit(dest, n);
      Memcpy(Move(mem, dest, src, w), dest + w, src + w, n - w)
  }

  lemma MemcpyStep(mem: seq<Byte>, dest: nat, src: nat, n: nat, w: nat)
    requires dest + n <= |mem| && src + n <= |mem| && n > 0 && w == Unit(dest, n)
    ensures Memcpy(mem, dest, src, n) == Memcpy(Move(mem, dest, src, w), dest + w, src + w, n - w)
  {
  }

  method MemcpyInPlace(mem: array<Byte>, dest: nat, src: nat, n: nat)
    requires dest + n <= mem.Length && src + n <= mem.Length
    modifies mem
    ensures mem[..] == Memcpy(old(mem[..]), dest, src, n)
  {
    var d, s, c := AlignDest(mem, dest, src, n);
    d, s, c := CopyDwords(mem, d, s, c);
    CopyTail(mem, d, s, c);
  }

  /** The first phase: bytes until the destination is aligned. */
  method AlignDest(mem: array<Byte>, dest: nat, src: nat, n: nat) returns (d: nat, s: nat, c: nat)
    requires dest + n <= mem.Length && src + n <= mem.Length
    modifies mem
    ensures d + c <= mem.Length && s + c <= mem.Length && (c == 0 || d % 4 == 0)
    ensures Memcpy(mem[..], d, s, c) == Memcpy(old(mem[..]), dest, src, n)
  {
    ghost var goal := Memcpy(mem[..], dest, src, n);
    d, s, c := dest, src, n;
    while c > 0 && d % 4 != 0
      invariant d + c <= mem.Length && s + c <= mem.Length
      invariant Memcpy(mem[..], d, s, c) == goal
    {
      MemcpyStep(mem[..], d, s, c, 1);
      CopyUnit(mem, d, s, 1);
      d, s, c := d + 1, s + 1, c - 1;
    }
  }

  /** The second phase: double words as long as they fit. */
  method CopyDwords(mem: array<Byte>, dest: nat, src: nat, n: nat) returns (d: nat, s: nat, c: nat)
    requires dest + n <= mem.Length && src + n <= mem.Length && (n > 0 ==> dest % 4 == 0)
    modifies mem
    ensures d + c <= mem.Length && s + c <= mem.Length && c < 4
    ensures Memcpy(mem[..], d, s, c) == Memcpy(old(mem[..]), dest, src, n)
  {
    ghost var goal := Memcpy(mem[..], dest, src, n);
    d, s, c := dest, src, n;
    while c >= 4
      invariant d + c <= mem.Length && s + c <= mem.Length && (c > 0 ==> d % 4 == 0)
      invariant Memcpy(mem[..], d, s, c) == goal
    {
      MemcpyStep(mem[..], d, s, c, 4);
      CopyUnit(mem, d, s, 4);
      d, s, c := d + 4, s + 4, c - 4;
    }
  }

  /** The last phase: the bytes that are left. */
  method CopyTail(mem: array<Byte>, dest: nat, src: nat, n: nat)
    requires dest + n <= mem.Length && src + n <= mem.Length && n < 4
    modifies mem
    ensures mem[..] == Memcpy(old(mem[..]), dest, src, n)
  {
    ghost var goal := Memcpy(mem[..], dest, src, n);
    var d: nat, s: nat, c: nat := dest, src, n;
    while c > 0
      invariant d + c <= mem.Length && s + c <= mem.Length && c < 4
      invariant Memcpy(mem[..], d, s, c) == goal
    {
      MemcpyStep(mem[..], d, s, c, 1);
      CopyUnit(mem, d, s, 1);
      d, s, c := d + 1, s + 1, c - 1;
    }
  }

  /** movb or movsl: loads the whole unit and stores it. */
  method CopyUnit(mem: array<Byte>, d: nat, s: nat, w: nat)
    requires w == 1 || w == 4
    requires d + w <= mem.Length && s + w <= mem.Length
    modifies mem
    ensures mem[..] == Move(old(mem[..]), d, s, w)
  {
    if w == 1 {
      mem[d] := mem[s];
    } else {
      mem[d], mem[d + 1], mem[d + 2], mem[d + 3] := mem[s], mem[s + 1], mem[s + 2], mem[s + 3];
    }
    assert mem[..] == Move(old(mem[..]), d, s, w);
  }

  // ---- when memcpy is the simultaneous copy ----

  predicate Safe(dest: nat, src: nat, n: nat) {
    dest <= src || src + n <= dest || (n == 4 && dest % 4 == 0)
  }

  lemma MoveInTwo(mem: seq<Byte>, dest: nat, src: nat, n: nat, w: nat)
    requires dest + n <= |mem| && src + n <= |mem| && w <= n && (dest <= src || src + n <= dest)
    ensures Move(Move(mem, dest, src, w), dest + w, src + w, n - w) == Move(mem, dest, src, n)
  {
    var first, all := Move(mem, dest, src, w), Move(mem, dest, src, n);
    var both := Move(first, dest + w, src + w, n - w);
    forall i | 0 <= i < |mem| ensures both[i] == all[i] {
      if dest + w <= i < dest + n {
        assert both[i] == first[src + w + (i - (dest + w))] == first[src + (i - dest)];
      }
    }
  }

  lemma {:induction false} MemcpySafe(mem: seq<Byte>, dest: nat, src: nat, n: nat)
    requires dest + n <= |mem| && src + n <= |mem| && (dest <= src || src + n <= dest)
    ensures Memcpy(mem, dest, src, n) == Move(mem, dest, src, n)
    decreases n
  {
    if n > 0 {
      var w := Unit(dest, n);
      var first := Move(mem, dest, src, w);
      MemcpySafe(first, dest + w, src + w, n - w);
      MoveInTwo(mem, dest, src, n, w);
    }
  }

  /** A byte whose source cell lies below the destination is copied as the cell now reads. */
  lemma {:induction false} MemcpyReadsBelow(mem: seq<Byte>, dest: nat, src: nat, n: nat, j: nat)
    requires dest + n <= |mem| && src + n <= |mem| && j < n && src + j < dest
    ensures Memcpy(mem, dest, src, n)[dest + j] == mem[src + j]
    decreases n
  {
    var w := Unit(dest, n);
    var first := Move(mem, dest, src, w);
    if j >= w {
      MemcpyReadsBelow(first, dest + w, src + w, n - w, j - w);
    } else {
      MemcpyKeepsBelow(first, dest + w, src + w, n - w, dest + j);
    }
  }

  lemma {:induction false} MemcpyKeepsBelow(mem: seq<Byte>, dest: nat, src: nat, n: nat, i: nat)
    requires dest + n <= |mem| && src + n <= |mem| && i < dest
    ensures Memcpy(mem, dest, src, n)[i] == mem[i]
    decreases n
  {
    if n > 0 {
      var w := Unit(dest, n);
      MemcpyKeepsBelow(Move(mem, dest, src, w), dest + w, src + w, n - w, i);
    }
  }

  lemma ReadsBelow(mem: seq<Byte>, dest: nat, src: nat, n: nat, j: nat, r: seq<Byte>, to: nat, from: nat)
    requires dest + n <= |mem| && src + n <= |mem| && j < n && src + j < dest && r == Memcpy(mem, dest, src, n)
    requires to == dest + j && from == src + j
    ensures r[to] == mem[from]
  {
    MemcpyReadsBelow(mem, dest, src, n, j);
  }

  /** Byte `j` is read only after the first unit has been written over it. */
  lemma OverwrittenFirst(mem: seq<Byte>, dest: nat, src: nat, n: nat, w: nat, j: nat,
                         first: seq<Byte>, d: nat, s: nat, m: nat, r: seq<Byte>)
    requires dest + n <= |mem| && src + n <= |mem| && w <= j < n && src < dest <= src + j < dest + w
    requires first == Move(mem, dest, src, w) && d == dest + w && s == src + w && m == n - w && r == Memcpy(first, d, s, m)
    ensures r[dest + j] == mem[src + (src + j - dest)]
  {
    MoveAt(mem, dest, src, w, first, src + j);
    ReadsBelow(first, d, s, m, j - w, r, dest + j, src + j);
  }

  lemma MoveAt(mem: seq<Byte>, dest: nat, src: nat, n: nat, r: seq<Byte>, i: nat)
    requires dest + n <= |mem| && src + n <= |mem| && r == Move(mem, dest, src, n) && dest <= i < dest + n
    ensures r[i] == mem[src + (i - dest)]
  {
  }

  /** Otherwise one byte is overwritten before it is read, and a memory with a single 1 in the right place shows it. */
  lemma MemcpyUnsafe(size: nat, dest: nat, src: nat, n: nat) returns (mem: seq<Byte>)
    requires dest + n <= size && src + n <= size && !Safe(dest, src, n)
    ensures |mem| == size && Memcpy(mem, dest, src, n) != Move(mem, dest, src, n)
  {
    var d, w := dest - src, Unit(dest, n);
    var j := if w <= d then d else w;
    mem := seq(size, _ => 0)[src + j - d := 1];
    var first := Move(mem, dest, src, w);
    MemcpyStep(mem, dest, src, n, w);
    OverwrittenFirst(mem, dest, src, n, w, j, first, dest + w, src + w, n - w, Memcpy(first, dest + w, src + w, n - w));
    MoveAt(mem, dest, src, n, Move(mem, dest, src, n), dest + j);
  }

  /** memcpy is the simultaneous copy on every memory exactly if it is safe. */
  lemma MemcpyExact(size: nat, dest: nat, src: nat, n: nat)
    requires dest + n <= size && src + n <= size
    ensures Safe(dest, src, n) <==>
              forall mem: seq<Byte> | |mem| == size :: Memcpy(mem, dest, src, n) == Move(mem, dest, src, n)
  {
    if Safe(dest, src, n) {
      forall mem: seq<Byte> | |mem| == size ensures Memcpy(mem, dest, src, n) == Move(mem, dest, src, n) {
        if dest <= src || src + n <= dest { MemcpySafe(mem, dest, src, n); }
      }
    } else {
      var mem := MemcpyUnsafe(size, dest, src, n);
    }
  }

  /** memmove: ascending if the source is not below the destination, else descending. */
  method MemmoveInPlace(mem: array<Byte>, dest: nat, src: nat, n: nat)
    requires dest + n <= mem.Length && src + n <= mem.Length
    modifies mem
    ensures mem[..] == Move(old(mem[..]), dest, src, n)
  {
    if src >= dest {
      for k := 0 to n
        invariant forall i :: 0 <= i < mem.Length ==>
                    mem[i] == if dest <= i < dest + k then old(mem[src + (i - dest)]) else old(mem[i])
      {
        mem[dest + k] := mem[src + k];
      }
    } else {
      for k := n downto 0
        invariant forall i :: 0 <= i < mem.Length ==>
                    mem[i] == if dest + k <= i < dest + n then old(mem[src + (i - dest)]) else old(mem[i])
      {
        mem[dest + k] := mem[src + k];
      }
    }
    assert mem[..] == Move(old(mem[..]), dest, src, n);
  }

  // ---- scrolling ----

  const WIDTH: nat := 80
  const HEIGHT: nat := 25
  const ROW_BYTES: nat := 160

  /** Row `r` of the screen at `base`. */
  function Row(mem: seq<Byte>, base: nat, r: nat): (row: seq<Byte>)
    requires r < HEIGHT && base + HEIGHT * ROW_BYTES <= |mem|
    ensures |row| == ROW_BYTES
  {
    mem[base + r * ROW_BYTES..base + (r + 1) * ROW_BYTES]
  }

  /** A row of `WIDTH` cells, each a character and its attribute. */
  function BlankRow(character: Byte, attribute: Byte): (row: seq<Byte>)
    ensures |row| == ROW_BYTES
  {
    seq(ROW_BYTES, i => if i % 2 == 0 then character else attribute)
  }

  method MemsetWord(mem: array<Byte>, start: nat, character: Byte, attribute: Byte, n: nat)
    requires start + 2 * n <= mem.Length
    modifies mem
    ensures forall i :: 0 <= i < mem.Length ==>
              mem[i] == if start <= i < start + 2 * n then (if (i - start) % 2 == 0 then character else attribute) else old(mem[i])
  {
    for k := 0 to n
      invariant forall i :: 0 <= i < mem.Length ==>
                  mem[i] == if start <= i < start + 2 * k then (if (i - start) % 2 == 0 then character else attribute) else old(mem[i])
    {
      mem[start + 2 * k] := character;
      mem[start + 2 * k + 1] := attribute;
    }
  }

  /** The screen at `base` after scroll_line found the cursor `lines` rows below the last row. */
  function Scrolled(mem: seq<Byte>, base: nat, lines: nat, character: Byte, attribute: Byte): (r: seq<Byte>)
    requires base + HEIGHT * ROW_BYTES <= |mem| && 1 <= lines <= HEIGHT
    ensures |r| == |mem|
  {
    var end := base + (HEIGHT - lines) * ROW_BYTES;
    seq(|mem|, i requires 0 <= i < |mem| =>
      if base <= i < end then mem[i + lines * ROW_BYTES]
      else if end <= i < end + ROW_BYTES then (if (i - end) % 2 == 0 then character else attribute)
      else mem[i])
  }

  method ScrollLine(mem: array<Byte>, base: nat, lines: nat, character: Byte, attribute: Byte)
    requires base + HEIGHT * ROW_BYTES <= mem.Length && 1 <= lines <= HEIGHT
    modifies mem
    ensures mem[..] == Scrolled(old(mem[..]), base, lines, character, attribute)
  {
    var bytes := (HEIGHT - lines) * ROW_BYTES;
    MemcpySafe(mem[..], base, base + lines * ROW_BYTES, bytes);
    MemcpyInPlace(mem, base, base + lines * ROW_BYTES, bytes);
    MemsetWord(mem, base + bytes, character, attribute, WIDTH);
  }

  /** Rows move up by `lines`, one row behind them is blanked, and the rows below that stay. */
  lemma ScrolledRows(mem: seq<Byte>, base: nat, lines: nat, character: Byte, attribute: Byte, r: nat)
    requires base + HEIGHT * ROW_BYTES <= |mem| && 1 <= lines <= HEIGHT && r < HEIGHT
    ensures Row(Scrolled(mem, base, lines, character, attribute), base, r) ==
            if r < HEIGHT - lines then Row(mem, base, r + lines)
            else if r == HEIGHT - lines then BlankRow(character, attribute)
            else Row(mem, base, r)
  {
    var row := Row(Scrolled(mem, base, lines, character, attribute), base, r);
    if r < HEIGHT - lines {
      assert row == Row(mem, base, r + lines);
    } else if r == HEIGHT - lines {
      assert row == BlankRow(character, attribute);
    } else {
      assert row == Row(mem, base, r);
    }
  }

  /** Nothing outside the 25 rows of 160 bytes changes. */
  lemma ScrolledOutside(mem: seq<Byte>, base: nat, lines: nat, character: Byte, attribute: Byte, i: nat)
    requires base + 4000 <= |mem| && 1 <= lines <= 25 && i < |mem| && !(base <= i < base + 4000)
    ensures Scrolled(mem, base, lines, character, attribute)[i] == mem[i]
  {
  }

  /** A blank row is 80 cells, each the character and then its attribute. */
  lemma BlankCells(character: Byte, attribute: Byte, x: nat)
    requires x < 80
    ensures |BlankRow(character, attribute)| == 160
    ensures BlankRow(character, attribute)[2 * x] == character && BlankRow(character, attribute)[2 * x + 1] == attribute
  {
  }

  /** A fresh last row is what scrolling is for; a cursor two rows below it gets one only if it was blank before. */
  lemma LastRowBlank(mem: seq<Byte>, base: nat, lines: nat, character: Byte, attribute: Byte)
    requires base + HEIGHT * ROW_BYTES <= |mem| && 1 <= lines <= HEIGHT
    ensures Row(Scrolled(mem, base, lines, character, attribute), base, HEIGHT - 1) == BlankRow(character, attribute)
            <==> lines == 1 || Row(mem, base, HEIGHT - 1) == BlankRow(character, attribute)
  {
    ScrolledRows(mem, base, lines, character, attribute, HEIGHT - 1);
  }
}
