/**
  The text cursor of a terminal and the scrolling it causes (student-distrib/terminal.c):
  where `put_char_out` and `put_char` move it, and by how many rows the screen then
  scrolls. The characters themselves are not part of it.
 */
module Console {
  import opened KernelBase
  import opened LineEditor
  import opened Memory

  /** `x` is the next column and may be one past the last; backspaces can make it negative. */
  datatype Cursor = Cursor(x: int, y: int)

  predicate OnScreen(c: Cursor) {
    0 <= c.y < HEIGHT
  }

  function Wrapped(c: Cursor): (w: Cursor) {
    if c.x >= WIDTH then Cursor(0, c.y + 1) else c
  }

  /** put_char_out before it scrolls. */
  function AfterOutput(c: Cursor, ch: char): (r: Cursor) {
    var w := Wrapped(c);
    if ch == '\n' then Cursor(0, w.y + 1) else Cursor(w.x + 1, w.y)
  }

  /** put_char before it scrolls; `length` is that of the line being typed. */
  function AfterKey(c: Cursor, ch: char, length: nat): (r: Cursor) {
    var t := if ch == TAB then Cursor(c.x + 8, c.y) else c;
    var w := if length < BUFFER_LIMIT then Wrapped(t) else c;
    if ch == '\n' then Cursor(0, w.y + 1)
    else if ch == BACKSPACE then (if length > 0 then Cursor(w.x - 1, w.y) else w)
    else if ch >= ' ' && length < BUFFER_LIMIT then Cursor(w.x + 1, w.y)
    else w
  }

  /** How many rows the screen scrolls to bring the cursor back to the last row. */
  function Lines(c: Cursor): (n: nat) {
    if c.y >= HEIGHT then c.y - HEIGHT + 1 else 0
  }

  function Settled(c: Cursor): (r: Cursor) {
    if c.y >= HEIGHT then Cursor(c.x, HEIGHT - 1) else c
  }

  // ---- how far a character scrolls ----

  /** Output scrolls by two rows exactly for a newline on the last row past the last column. */
  lemma OutputScrollsTwoIff(c: Cursor, ch: char)
    requires OnScreen(c)
    ensures var n := Lines(AfterOutput(c, ch));
            && OnScreen(Settled(AfterOutput(c, ch))) && n <= 2
            && (n == 2 <==> c.y == HEIGHT - 1 && c.x >= WIDTH && ch == '\n')
            && (n > 0 <==> (c.y == HEIGHT - 1 && (c.x >= WIDTH || ch == '\n')) ||
                           (c.y == HEIGHT - 2 && c.x >= WIDTH && ch == '\n'))
  {
  }

  /** So does a key, unless the line is full. */
  lemma KeyScrollsTwoIff(c: Cursor, ch: char, length: nat)
    requires OnScreen(c)
    ensures var n := Lines(AfterKey(c, ch, length));
            && OnScreen(Settled(AfterKey(c, ch, length))) && n <= 2
            && (n == 2 <==> c.y == HEIGHT - 1 && c.x >= WIDTH && ch == '\n' && length < BUFFER_LIMIT)
  {
  }

  /** After output that scrolls, the last row is blank exactly if it was, or the character was no newline past the end of the last row. */
  lemma LastRowBlankIff(c: Cursor, ch: char, mem: seq<Byte>, base: nat, attribute: Byte, after: seq<Byte>)
    requires OnScreen(c) && base + HEIGHT * ROW_BYTES <= |mem| && 1 <= Lines(AfterOutput(c, ch)) <= HEIGHT
    requires after == Scrolled(mem, base, Lines(AfterOutput(c, ch)), 32, attribute)
    ensures Row(after, base, HEIGHT - 1) == BlankRow(32, attribute) <==>
              !(c.y == HEIGHT - 1 && c.x >= WIDTH && ch == '\n') || Row(mem, base, HEIGHT - 1) == BlankRow(32, attribute)
  {
    OutputScrollsTwoIff(c, ch);
    LastRowBlank(mem, base, Lines(AfterOutput(c, ch)), 32, attribute);
  }

  // ---- where characters leave the cursor ----

  /** `k` columns on from the start of row `y`: at least one, at most 80 in a row, and never below the last row. */
  ghost predicate Onward(y: nat, k: nat, c: Cursor) {
    if k == 0 then c == Cursor(0, y)
    else exists rows: nat :: 80 * rows + c.x == k && 1 <= c.x <= 80 && c.y == if y + rows < 25 then y + rows else 24
  }

  lemma OnwardOne(y: nat, k: nat, c: Cursor, r: Cursor)
    requires y < 25 && Onward(y, k, c)
    requires r == Settled(if c.x >= 80 then Cursor(1, c.y + 1) else Cursor(c.x + 1, c.y))
    ensures Onward(y, k + 1, r)
  {
    if k == 0 {
      assert 80 * 0 + r.x == 1;
    } else {
      var rows: nat :| 80 * rows + c.x == k && 1 <= c.x <= 80 && c.y == if y + rows < 25 then y + rows else 24;
      var next := if c.x >= 80 then rows + 1 else rows;
      assert 80 * next + r.x == k + 1;
    }
  }

  function AfterText(c: Cursor, text: string): (r: Cursor)
    decreases |text|
  {
    if text == [] then c else Settled(AfterOutput(AfterText(c, text[..|text| - 1]), text[|text| - 1]))
  }

  /** The cursor after keys typed into a line of `length` characters. */
  function AfterKeys(c: Cursor, keys: string, length: nat): (r: Cursor)
    decreases |keys|
  {
    if keys == [] then c
    else
      var init := keys[..|keys| - 1];
      Settled(AfterKey(AfterKeys(c, init, length), keys[|keys| - 1], length + |init|))
  }

  /** k characters of output, none a newline, from the start of a row: column and row are those of a text 80 wide. */
  lemma {:induction false} OutputFlows(y: nat, text: string)
    requires y < 25 && forall i :: 0 <= i < |text| ==> text[i] != '\n'
    ensures Onward(y, |text|, AfterText(Cursor(0, y), text))
    decreases |text|
  {
    if text != [] {
      var init := text[..|text| - 1];
      OutputFlows(y, init);
      OnwardOne(y, |init|, AfterText(Cursor(0, y), init), AfterText(Cursor(0, y), text));
    }
  }

  /** The same for printable keys while the line has room. */
  lemma {:induction false} KeysFlow(y: nat, keys: string, length: nat)
    requires y < 25 && Plain(keys) && length + |keys| <= 128
    ensures Onward(y, |keys|, AfterKeys(Cursor(0, y), keys, length))
    decreases |keys|
  {
    if keys != [] {
      var init := keys[..|keys| - 1];
      KeysFlow(y, init, length);
      OnwardOne(y, |init|, AfterKeys(Cursor(0, y), init, length), AfterKeys(Cursor(0, y), keys, length));
    }
  }

  /** A newline and Enter end in column 0, one row further down exactly if the cursor was not past the last column of an open line. */
  lemma NewlineIff(c: Cursor, length: nat)
    ensures AfterOutput(c, '\n').x == 0 && AfterKey(c, '\n', length).x == 0
    ensures AfterOutput(c, '\n').y == c.y + (if c.x >= 80 then 2 else 1)
    ensures AfterKey(c, '\n', length).y == c.y + (if c.x >= 80 && length < 128 then 2 else 1)
  {
  }

  /** A printable key and a backspace return the cursor exactly if the line takes the key and neither of them wraps. */
  lemma BackspaceReturnsIff(c: Cursor, ch: char, length: nat)
    requires OnScreen(c) && ch >= ' '
    ensures var k := Settled(AfterKey(c, ch, length));
            Settled(AfterKey(k, 8 as char, if length < 128 then length + 1 else length)) == c <==>
              length < 128 && (c.x < 79 || (c.x == 79 && length == 127))
  {
  }

  /** A backspace on an empty line does not move the cursor, unless it wraps. */
  lemma BackspaceOnEmpty(c: Cursor)
    ensures AfterKey(c, 8 as char, 0) == if c.x >= 80 then Cursor(0, c.y + 1) else c
  {
  }

  function Blanks(): (s: string) { "        " }

  lemma EightBlanks(c: Cursor, length: nat, s: string)
    requires OnScreen(c) && length + 8 <= 128 && s == Blanks()
    ensures AfterKeys(c, s, length) ==
            if c.x + 8 <= 80 then Cursor(c.x + 8, c.y)
            else Settled(Cursor(if c.x >= 80 then 8 else c.x + 8 - 80, c.y + 1))
  {
    BlanksFrom(c, s, length, 8);
    assert s[..8] == s;
  }

  lemma {:induction false} BlanksFrom(c: Cursor, s: string, length: nat, k: nat)
    requires OnScreen(c) && length + 8 <= 128 && s == Blanks() && k <= 8
    ensures AfterKeys(c, s[..k], length) ==
            if c.x + k <= 80 || k == 0 then Cursor(c.x + k, c.y)
            else Settled(Cursor(if c.x >= 80 then k else c.x + k - 80, c.y + 1))
    decreases k
  {
    if k > 0 {
      assert s[..k][..k - 1] == s[..k - 1] && s[..k][k - 1] == ' ';
      BlanksFrom(c, s, length, k - 1);
    }
  }

  /** A tab moves the cursor like the eight blanks it puts into the line exactly if they end before the last column. */
  lemma TabIsBlanksIff(c: Cursor, length: nat, s: string)
    requires OnScreen(c) && length + 8 <= 128 && s == Blanks()
    ensures Settled(AfterKey(c, '\t', length)) == AfterKeys(c, s, length) <==> c.x + 8 < 80
  {
    EightBlanks(c, length, s);
  }

  /** Keys that a full line ignores, and control keys, move the cursor only to wrap it. */
  lemma KeysStay(c: Cursor, ch: char, length: nat)
    requires ch != 8 as char && ch != '\n' && (length >= 128 || (ch < ' ' && ch != '\t' && c.x < 80))
    ensures AfterKey(c, ch, length) == c
  {
  }

  // ---- a text that scrolls by two ----

  lemma {:induction false} AfterNewlines(c: Cursor, k: nat, text: string)
    requires c.x < 80 && c.y >= 0 && c.y + k < 25 && |text| == k && (forall i :: 0 <= i < k ==> text[i] == '\n')
    ensures AfterText(c, text) == if k == 0 then c else Cursor(0, c.y + k)
    decreases k
  {
    if k > 0 { AfterNewlines(c, k - 1, text[..k - 1]); }
  }

  /** 24 newlines and a full row of letters, written to a new screen, leave the cursor where a newline scrolls by two. */
  lemma TwoRowsHappen(newlines: string, letters: string)
    requires newlines == seq(HEIGHT - 1, _ => '\n') && letters == seq(WIDTH, _ => 'a')
    ensures var c := AfterText(AfterText(Cursor(0, 0), newlines), letters);
            c == Cursor(WIDTH, HEIGHT - 1) && Lines(AfterOutput(c, '\n')) == 2
  {
    AfterNewlines(Cursor(0, 0), HEIGHT - 1, newlines);
    OutputFlows(HEIGHT - 1, letters);
  }

  class Terminal {
    const mem: array<Byte>
    var x: int
    var y: int

    ghost predicate Valid()
      reads this
    {
      HEIGHT * ROW_BYTES <= mem.Length && 0 <= y < HEIGHT
    }

    ghost function At(): (c: Cursor)
      reads this
    {
      Cursor(x, y)
    }

    constructor (mem: array<Byte>)
      requires HEIGHT * ROW_BYTES <= mem.Length
      ensures Valid() && this.mem == mem && At() == Cursor(0, 0)
    {
      this.mem := mem;
      x, y := 0, 0;
    }

    method Scroll(attribute: Byte)
      requires HEIGHT * ROW_BYTES <= mem.Length && 0 <= y < HEIGHT + HEIGHT
      modifies this`y, mem
      ensures Valid() && At() == Settled(old(At()))
      ensures mem[..] == var n := Lines(old(At())); if n > 0 then Scrolled(old(mem[..]), 0, n, 32, attribute) else old(mem[..])
    {
      if y >= HEIGHT {
        ScrollLine(mem, 0, y - HEIGHT + 1, 32, attribute);
        y := HEIGHT - 1;
      }
    }

    /** put_char_out. */
    method PutOut(ch: char, attribute: Byte)
      requires Valid()
      modifies this, mem
      ensures Valid() && At() == Settled(AfterOutput(old(At()), ch))
      ensures mem[..] == var n := Lines(AfterOutput(old(At()), ch));
                         if n > 0 then Scrolled(old(mem[..]), 0, n, 32, attribute) else old(mem[..])
    {
      if x >= WIDTH {
        x := 0;
        y := y + 1;
      }
      if ch == '\n' {
        x := 0;
        y := y + 1;
      } else {
        x := x + 1;
      }
      assert At() == AfterOutput(old(At()), ch) && 0 <= y <= HEIGHT + 1 && mem[..] == old(mem[..]);
      Scroll(attribute);
    }

    /** put_char. */
    method PutKey(ch: char, length: nat, attribute: Byte)
      requires Valid()
      modifies this, mem
      ensures Valid() && At() == Settled(AfterKey(old(At()), ch, length))
      ensures mem[..] == var n := Lines(AfterKey(old(At()), ch, length));
                         if n > 0 then Scrolled(old(mem[..]), 0, n, 32, attribute) else old(mem[..])
    {
      if length < BUFFER_LIMIT {
        if ch == TAB { x := x + 8; }
        if x >= WIDTH {
          x := 0;
          y := y + 1;
        }
        if ch >= ' ' { x := x + 1; }
      }
      if ch == BACKSPACE && length > 0 { x := x - 1; }
      if ch == '\n' {
        x := 0;
        y := y + 1;
      }
      assert At() == AfterKey(old(At()), ch, length) && 0 <= y <= HEIGHT + 1 && mem[..] == old(mem[..]);
      Scroll(attribute);
    }
  }
}
