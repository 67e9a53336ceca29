/**
  The line editor of student-distrib/terminal.c: the characters a terminal collects
  until Enter, and the hand-over of a finished line to `terminal_read`. Cursor movement
  and the screen are not part of it.
 */
module LineEditor {
  import opened KernelBase

  const BUFFER_LIMIT: nat := 128
  const BACKSPACE: char := 8 as char
  const TAB: char := '\t'

  /** What one key other than Enter does to the line. */
  function Edit(line: string, c: char): (r: string) {
    if c == BACKSPACE then (if line == [] then [] else line[..|line| - 1])
    else if |line| >= BUFFER_LIMIT then line
    else if c == TAB then line + "        "
    else if c >= ' ' then line + [c]
    else line
  }

  /** The line that a log of keystrokes, typed behind a line, leaves. */
  function Typed(line: string, log: string): (r: string)
    decreases |log|
  {
    if log == [] then line else Edit(Typed(line, log[..|log| - 1]), log[|log| - 1])
  }

  function Replay(log: string): (line: string) {
    Typed([], log)
  }

  /** What 128 backspaces leave of a line. */
  function Left(line: string): (r: string) {
    if |line| > BUFFER_LIMIT then line[..|line| - BUFFER_LIMIT] else []
  }

  /** The key stays within the buffer, which has one cell more than the limit; a longer tab writes past it. */
  predicate Fits(line: string, c: char) {
    c == TAB ==> |line| + 8 <= BUFFER_LIMIT + 1 || |line| >= BUFFER_LIMIT
  }

  /** No key of the log overruns the buffer when the log is typed behind the line. */
  predicate Fitting(line: string, log: string) {
    forall i :: 0 <= i < |log| ==> log[i] != '\n' && Fits(Typed(line, log[..i]), log[i])
  }

  predicate Plain(s: string) {
    forall i :: 0 <= i < |s| ==> s[i] >= ' '
  }

  /** A stored log: the row up to its terminator. */
  function Logged(row: string): (log: string)
    ensures |log| <= |row| && log == row[..|log|] && NUL !in log && (|log| < |row| ==> row[|log|] == NUL)
  {
    if row == [] || row[0] == NUL then [] else [row[0]] + Logged(row[1..])
  }

  lemma {:induction false} TypedBounded(line: string, log: string)
    requires Fitting(line, log) && |line| <= BUFFER_LIMIT + 1 && Plain(line)
    ensures |Typed(line, log)| <= BUFFER_LIMIT + 1 && Plain(Typed(line, log))
    decreases |log|
  {
    if log != [] {
      var init := log[..|log| - 1];
      assert forall i :: 0 <= i < |init| ==> init[..i] == log[..i];
      TypedBounded(line, init);
    }
  }

  lemma TypedSnoc(line: string, log: string, i: nat)
    requires i < |log|
    ensures Typed(line, log[..i + 1]) == Edit(Typed(line, log[..i]), log[i])
  {
    assert log[..i + 1][..i] == log[..i];
  }

  /** Printable keys go behind the line as long as there is room. */
  lemma {:induction false} TypedPlain(line: string, log: string)
    requires Plain(log) && |line| + |log| <= BUFFER_LIMIT
    ensures Typed(line, log) == line + log
    decreases |log|
  {
    if log != [] {
      TypedPlain(line, log[..|log| - 1]);
      assert log == log[..|log| - 1] + [log[|log| - 1]];
    }
  }

  // ---- what the keys do, key by key and over whole logs ----

  /** Printable keys and tabs, a tab as eight blanks. */
  function Expand(log: string): (s: string) {
    if log == [] then [] else Expand(log[..|log| - 1]) + (if log[|log| - 1] == '\t' then "        " else [log[|log| - 1]])
  }

  /** Printable keys and tabs that stay within 128 characters go behind the line, tabs as eight blanks. */
  lemma {:induction false} TypedExpands(line: string, log: string)
    requires (forall i :: 0 <= i < |log| ==> log[i] >= ' ' || log[i] == '\t') && |line| + |Expand(log)| <= 128
    ensures Typed(line, log) == line + Expand(log)
    decreases |log|
  {
    if log != [] {
      var init := log[..|log| - 1];
      assert |Expand(init)| <= |Expand(log)|;
      TypedExpands(line, init);
    }
  }

  /** No key but backspace changes a line of 128 characters or more, and no other key below a blank changes any. */
  lemma KeysIgnored(line: string, c: char)
    requires c != 8 as char && (|line| >= 128 || (c < ' ' && c != '\t'))
    ensures Edit(line, c) == line
  {
  }

  lemma {:induction false} TypedConcat(line: string, a: string, b: string)
    ensures Typed(line, a + b) == Typed(Typed(line, a), b)
    decreases |b|
  {
    if b == [] {
      assert a + b == a;
    } else {
      var init := b[..|b| - 1];
      assert (a + b)[..|a + b| - 1] == a + init;
      TypedConcat(line, a, init);
    }
  }

  /** Backspaces take characters off the end, and stop at the empty line. */
  lemma {:induction false} BackspacesDrop(line: string, k: nat, keys: string)
    requires keys == seq(k, _ => 8 as char)
    ensures Typed(line, keys) == line[..if k < |line| then |line| - k else 0]
    decreases k
  {
    if k > 0 {
      assert keys[..k - 1] == seq(k - 1, _ => 8 as char);
      BackspacesDrop(line, k - 1, keys[..k - 1]);
    } else {
      assert line[..|line|] == line;
    }
  }

  /** Backspaces undo printable keys and tabs, one for each character. */
  lemma BackspacesUndo(line: string, log: string, keys: string)
    requires (forall i :: 0 <= i < |log| ==> log[i] >= ' ' || log[i] == '\t') && |line| + |Expand(log)| <= 128
    requires keys == seq(|Expand(log)|, _ => 8 as char)
    ensures Typed(line, log + keys) == line
  {
    TypedConcat(line, log, keys);
    TypedExpands(line, log);
    BackspacesDrop(line + Expand(log), |keys|, keys);
    assert (line + Expand(log))[..|line|] == line;
  }

  /** A line that is erased before a log is typed does not show in it, for every log, exactly if it has at most 128 characters. */
  lemma ErasedIff(line: string)
    ensures |line| <= BUFFER_LIMIT <==> forall log: string :: Typed(Left(line), log) == Replay(log)
  {
    if |line| > BUFFER_LIMIT { assert Typed(Left(line), "") != Replay(""); }
  }

  class Line {
    const buffer: array<char>
    var length: nat
    const lastBuffer: array<char>
    var lastLength: nat
    var ready: bool               // rd

    ghost predicate Intact()
      reads this, buffer, lastBuffer
    {
      && buffer.Length == lastBuffer.Length == BUFFER_LIMIT + 1 && buffer != lastBuffer
      && length <= BUFFER_LIMIT + 1 && lastLength <= BUFFER_LIMIT + 1
      && Plain(buffer[..length])
      && (forall i :: 0 <= i < lastLength ==> lastBuffer[i] != NUL)
    }

    /** `Intact` as a single fact, which callers pass on without looking inside. */
    ghost predicate Valid()
      reads this, buffer, lastBuffer
    {
      Intact() == true
    }

    ghost function Text(): (s: string)
      reads this, buffer
      requires length <= buffer.Length
    {
      buffer[..length]
    }

    ghost function LastText(): (s: string)
      reads this, lastBuffer
      requires lastLength <= lastBuffer.Length
    {
      lastBuffer[..lastLength]
    }

    constructor ()
      ensures Valid() && Text() == [] && !ready && fresh(buffer) && fresh(lastBuffer)
    {
      buffer := new char[BUFFER_LIMIT + 1](_ => NUL);
      lastBuffer := new char[BUFFER_LIMIT + 1](_ => NUL);
      length, lastLength, ready := 0, 0, false;
    }

    /** put_char for a key other than Enter. */
    method PutKey(c: char)
      requires Valid() && Fits(Text(), c) && c != '\n'
      modifies this`length, buffer
      ensures Valid() && Text() == Edit(old(Text()), c)
    {
      if length < BUFFER_LIMIT {
        if c == TAB {
          ghost var before := Text();
          for i := 0 to 8
            invariant length == |before| + i && buffer[..length] == before + "        "[..i]
          {
            buffer[length] := ' ';
            length := length + 1;
          }
        }
        if c >= ' ' {
          buffer[length] := c;
          length := length + 1;
        }
      }
      if c == BACKSPACE {
        if length > 0 { length := length - 1; }
        buffer[length] := NUL;
      }
    }

    /** put_char for Enter: the line moves to the buffer that terminal_read empties. A line one over the limit has no cell for it. */
    method PutEnter()
      requires Valid() && |Text()| <= BUFFER_LIMIT
      modifies this`length, this`lastLength, this`ready, buffer, lastBuffer
      ensures Valid() && Text() == [] && ready && LastText() == old(Text()) + "\n"
    {
      buffer[length] := '\n';
      lastLength := length + 1;
      length := 0;
      ghost var line := buffer[..lastLength];
      assert forall i :: 0 <= i < |line| ==> line[i] != NUL;
      for i := 0 to lastLength
        invariant length == 0 && lastLength == |line|
        invariant forall j :: 0 <= j < i ==> lastBuffer[j] == line[j]
        invariant forall j :: i <= j < |line| ==> buffer[j] == line[j]
      {
        lastBuffer[i] := buffer[i];
        buffer[i] := NUL;
      }
      ready := true;
      assert lastBuffer[..lastLength] == line;
      assert forall i :: 0 <= i < lastLength ==> lastBuffer[i] == line[i];
    }

    /** The effect of terminal_write and of Ctrl-L on the line: it is forgotten. */
    method Forget()
      requires Valid()
      modifies this`length
      ensures Valid() && Text() == []
    {
      length := 0;
    }

    method Erase()
      requires Valid()
      modifies this`length, buffer
      ensures Valid() && Text() == Left(old(Text()))
    {
      ghost var line := Text();
      for i := 0 to BUFFER_LIMIT
        invariant Valid() && Text() == line[..if |line| > i then |line| - i else 0]
      {
        PutKey(BACKSPACE);
      }
    }

    /** hist_copy_from: erases 128 characters and types the stored log, up to its terminator, behind what is left. */
    method Retype(row: string)
      requires Valid() && Fitting(Left(Text()), Logged(row))
      modifies this`length, buffer
      ensures Valid() && Text() == Typed(Left(old(Text())), Logged(row))
    {
      Erase();
      ghost var left, log := Text(), Logged(row);
      for i := 0 to |row|
        invariant i <= |log| && Valid() && Text() == Typed(left, log[..i])
      {
        if row[i] == NUL { break; }
        assert log[i] != '\n' && Fits(Typed(left, log[..i]), log[i]);
        TypedSnoc(left, log, i);
        PutKey(row[i]);
      }
      assert log[..|log|] == log;
    }

    /** terminal_read once a line is ready: as much of it as fits, and the rest is dropped. */
    method Read(buf: array<char>, count: nat) returns (ret: nat)
      requires Valid() && ready && count <= buf.Length && buf != buffer && buf != lastBuffer
      modifies this`lastLength, this`ready, lastBuffer, buf
      ensures Valid() && !ready && LastText() == []
      ensures ret == (if count < |old(LastText())| then count else |old(LastText())|)
      ensures buf[..ret] == old(LastText())[..ret] && buf[ret..] == old(buf[..])[ret..]
    {
      ghost var line := LastText();
      var i := 0;
      while i < lastLength && i < count && lastBuffer[i] != NUL
        invariant i <= lastLength == |line| && i <= count
        invariant forall j :: i <= j < |line| ==> lastBuffer[j] == line[j] != NUL
        invariant forall j :: 0 <= j < i ==> buf[j] == line[j]
        invariant forall j :: i <= j < buf.Length ==> buf[j] == old(buf[j])
      {
        buf[i] := lastBuffer[i];
        lastBuffer[i] := NUL;
        i := i + 1;
      }
      ret := i;
      var j := count;
      while j < lastLength
        invariant lastLength == |line|
        invariant forall j :: 0 <= j < buf.Length ==> buf[j] == if j < ret then line[j] else old(buf[j])
      {
        lastBuffer[j] := NUL;
        j := j + 1;
      }
      ready, lastLength := false, 0;
    }
  }
}
