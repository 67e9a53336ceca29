/**
  The command history of student-distrib/int_handlers.c for one terminal: a ring of nine
  rows with an editable shadow copy, updated in place by the keyboard interrupt.
 */
module History {
  import opened KernelBase
  import opened LineEditor
  import opened V = HistoryView

  const SLOTS: nat := MAXHIST + 1

  /** A log followed by terminators up to the end of its row. */
  function Pad(log: string): (row: string)
    requires |log| < ROW
    ensures |row| == ROW && log <= row && forall j :: |log| <= j < ROW ==> row[j] == NUL
  {
    log + seq(ROW - |log|, _ => NUL)
  }

  lemma {:induction false} LoggedPad(row: string, log: string)
    requires |log| < |row| && log <= row && NUL !in log && row[|log|] == NUL
    ensures Logged(row) == log
  {
    if log != [] { LoggedPad(row[1..], log[1..]); }
  }

  /** A table of rows of ROW characters. */
  class Rows {
    const cells: array2<char>
    ghost var rows: seq<string>

    ghost predicate Intact()
      reads this, cells
    {
      && cells.Length0 == |rows| && cells.Length1 == ROW
      && (forall r :: 0 <= r < |rows| ==> |rows[r]| == ROW)
      && (forall r, j :: 0 <= r < |rows| && 0 <= j < ROW ==> cells[r, j] == rows[r][j])
    }

    /** `Intact` as a single fact, which callers pass on without looking inside. */
    ghost predicate Valid()
      reads this, cells
    {
      Intact() == true
    }

    constructor (n: nat)
      ensures Valid() && fresh(cells) && rows == seq(n, _ => Pad(""))
    {
      cells := new char[n, ROW]((_, _) => NUL);
      rows := seq(n, _ => Pad(""));
    }

    method Get(r: nat) returns (row: string)
      requires Valid() && r < |rows|
      ensures row == rows[r]
    {
      row := "";
      for j := 0 to ROW
        invariant row == rows[r][..j]
      {
        row := row + [cells[r, j]];
      }
    }

    method Put(r: nat, row: string)
      requires Valid() && r < |rows| && |row| == ROW
      modifies this`rows, cells
      ensures Valid() && rows == old(rows)[r := row]
    {
      for j := 0 to ROW
        invariant rows == old(rows)
        invariant forall q, i :: 0 <= q < |rows| && 0 <= i < ROW ==>
                    cells[q, i] == if q == r && i < j then row[i] else rows[q][i]
      {
        cells[r, j] := row[j];
      }
      rows := rows[r := row];
    }

    /** row[strlen(row)] = c */
    method Append(r: nat, c: char)
      requires Valid() && r < |rows| && |Logged(rows[r])| < ROW
      modifies this`rows, cells
      ensures Valid() && rows == old(rows)[r := old(rows)[r][|Logged(old(rows)[r])| := c]]
    {
      var len := 0;
      while cells[r, len] != NUL
        invariant len <= |Logged(rows[r])|
        decreases ROW - len
      {
        len := len + 1;
      }
      cells[r, len] := c;
      rows := rows[r := rows[r][len := c]];
    }
  }

  // ---- the ring ----

  function Slot(k: nat): (r: nat)
    ensures r < SLOTS
  {
    k % SLOTS
  }

  /** Slot (from + k) % 9 holds the k-th of at most nine logs. */
  ghost predicate RingHolds(rows: seq<string>, from: nat, logs: seq<string>) {
    && |rows| == SLOTS && |logs| <= SLOTS
    && (forall k :: 0 <= k < |logs| ==> |logs[k]| < ROW && rows[Slot(from + k)] == Pad(logs[k]))
  }

  lemma SlotsDiffer(a: nat, b: nat)
    requires a < b < a + SLOTS
    ensures Slot(a) != Slot(b)
  {
  }

  lemma RingPut(rows: seq<string>, from: nat, logs: seq<string>, i: nat, log: string)
    requires RingHolds(rows, from, logs) && i < |logs| && |log| < ROW
    ensures RingHolds(rows[Slot(from + i) := Pad(log)], from, logs[i := log])
  {
    var after, changed := rows[Slot(from + i) := Pad(log)], logs[i := log];
    forall k | 0 <= k < |logs| ensures after[Slot(from + k)] == Pad(changed[k]) {
      if k < i { SlotsDiffer(from + k, from + i); } else if i < k { SlotsDiffer(from + i, from + k); }
    }
  }

  lemma RingPush(rows: seq<string>, from: nat, logs: seq<string>, log: string)
    requires RingHolds(rows, from, logs) && |logs| < SLOTS && |log| < ROW
    ensures RingHolds(rows[Slot(from + |logs|) := Pad(log)], from, logs + [log])
  {
    var after := rows[Slot(from + |logs|) := Pad(log)];
    forall k | 0 <= k < |logs| ensures after[Slot(from + k)] == Pad(logs[k]) {
      SlotsDiffer(from + k, from + |logs|);
    }
  }

  lemma RingDrop(rows: seq<string>, from: nat, logs: seq<string>)
    requires RingHolds(rows, from, logs) && |logs| > 0
    ensures RingHolds(rows, from + 1, logs[1..])
  {
    forall k | 0 <= k < |logs| - 1 ensures rows[Slot(from + 1 + k)] == Pad(logs[1..][k]) {
      assert rows[Slot(from + (k + 1))] == Pad(logs[k + 1]);
    }
  }

  /** Clearing the slot behind `n + 1` commands moves the window on once there are more than eight. */
  lemma RingShift(rows: seq<string>, min: nat, all: seq<string>, n: nat, next: nat)
    requires min == Oldest(n) && next == Oldest(n + 1) && |all| == n + 1 - min && RingHolds(rows, min, all)
    ensures RingHolds(rows[Slot(n + 1) := Pad("")], next, all[next - min..] + [""])
  {
    if next > min {
      RingDrop(rows, min, all);
      RingPush(rows, next, all[1..], "");
    } else {
      assert all[0..] == all;
      RingPush(rows, min, all, "");
    }
  }

  /** The logs in the window before and after a command is added to the list. */
  lemma Windows(before: seq<string>, log: string, min: nat, next: nat, all: seq<string>)
    requires min <= next <= |before| && min <= |before| && all == (before + [log])[min..]
    ensures (before[min..] + [""])[|before| - min := log] == all && (before + [log])[next..] == all[next - min..]
  {
  }

  lemma EnterEdits(v: View, w: View, n: nat, entered: seq<string>)
    requires WellFormed(v) && Log(v) != [] && n == |v.entered| && w == Enter(v) && entered == v.entered + [Log(v)]
    ensures w.entered == entered && w.curr == |entered| == n + 1 && Log(w) == []
    ensures w.edits == entered[Oldest(n + 1)..] + [""]
  {
  }

  /** Storing a log and clearing the slot behind it moves the window on by one. */
  lemma StoreRing(rows: seq<string>, before: seq<string>, log: string, n: nat, min: nat, next: nat)
    requires n == |before| && min == Oldest(n) && next == Oldest(n + 1) && |log| < ROW
    requires RingHolds(rows, min, before[min..] + [""])
    ensures RingHolds(rows[Slot(n) := Pad(log)][Slot(n + 1) := Pad("")], next, (before + [log])[next..] + [""])
  {
    var all := (before + [log])[min..];
    Windows(before, log, min, next, all);
    RingPut(rows, min, before[min..] + [""], n - min, log);
    RingShift(rows[Slot(n) := Pad(log)], min, all, n, next);
  }

  /** Enter on the list of commands is what storing the log does to the ring. */
  lemma EnterRing(rows: seq<string>, v: View, n: nat, w: View)
    requires WellFormed(v) && Log(v) != [] && n == |v.entered| && w == Enter(v)
    requires RingHolds(rows, Oldest(n), v.entered[Oldest(n)..] + [""])
    ensures RingHolds(rows[Slot(n) := Pad(Log(v))][Slot(n + 1) := Pad("")], Oldest(n + 1), w.edits)
    ensures |w.entered| == w.curr == n + 1 && Log(w) == [] && w.edits == w.entered[Oldest(n + 1)..] + [""]
  {
    StoreRing(rows, v.entered, Log(v), n, Oldest(n), Oldest(n + 1));
    EnterEdits(v, w, n, v.entered + [Log(v)]);
  }

  /** Appending a key to the current row types it into the current log. */
  lemma TypeRing(rows: seq<string>, v: View, c: char)
    requires WellFormed(v) && (c != NUL ==> |Log(v)| + 1 < ROW) && RingHolds(rows, Oldest(|v.entered|), v.edits)
    ensures rows[Slot(v.curr)] == Pad(Log(v)) && Pad(Log(v))[|Log(v)| := c] == Pad(Log(Type(v, c)))
    ensures RingHolds(rows[Slot(v.curr) := Pad(Log(v))[|Log(v)| := c]], Oldest(|v.entered|), Type(v, c).edits)
  {
    var min, w := Oldest(|v.entered|), Type(v, c);
    var i := v.curr - min;
    assert Slot(min + i) == Slot(v.curr);
    RingPut(rows, min, v.edits, i, Log(w));
    assert w.edits == v.edits[i := Log(w)];
  }

  lemma RowAt(rows: seq<string>, from: nat, logs: seq<string>, k: nat)
    requires RingHolds(rows, from, logs) && from <= k < from + |logs|
    ensures rows[Slot(k)] == Pad(logs[k - from])
  {
    assert Slot(from + (k - from)) == Slot(k);
  }

  lemma InitRing(rows: seq<string>)
    requires rows == seq(SLOTS, _ => Pad(""))
    ensures RingHolds(rows, 0, [""]) && Log(Init()) == []
  {
  }

  lemma EmptyIffNul(log: string)
    requires |log| < ROW && NUL !in log
    ensures |Pad(log)| == ROW && (log == [] <==> Pad(log)[0] == NUL)
  {
    assert log != [] ==> log[0] in log;
  }

  class Recall {
    const hist: Rows
    const modified: Rows
    const cmd: Rows               // curr_cmd, as a table of one row
    const line: Line
    var num: nat
    var curr: nat
    var min: nat
    ghost var view: View

    ghost predicate Apart() {
      && hist != modified && hist != cmd && modified != cmd
      && hist.cells != modified.cells && hist.cells != cmd.cells && modified.cells != cmd.cells
    }

    /** The ring of nine rows stands for the unbounded list of commands. */
    ghost predicate Refines()
      reads this, hist, modified, cmd
    {
      && WellFormed(view)
      && num == |view.entered| && min == Oldest(num) && curr == view.curr
      && RingHolds(hist.rows, min, view.entered[min..] + [""])
      && RingHolds(modified.rows, min, view.edits)
      && cmd.rows == [Pad(Log(view))]
    }

    ghost predicate PartsIntact()
      reads hist, hist.cells, modified, modified.cells, cmd, cmd.cells, line, line.buffer, line.lastBuffer
    {
      Apart() && hist.Valid() && modified.Valid() && cmd.Valid() && line.Valid()
    }

    ghost predicate Intact()
      reads this, hist, hist.cells, modified, modified.cells, cmd, cmd.cells, line, line.buffer, line.lastBuffer
    {
      PartsIntact() && Refines() && line.Text() == view.line
    }

    ghost predicate Valid()
      reads this, hist, hist.cells, modified, modified.cells, cmd, cmd.cells, line, line.buffer, line.lastBuffer
    {
      Intact() == true
    }

    /** The counters follow the list of commands, and curr_cmd mirrors the current shadow row. */
    lemma CountersAndMirror()
      requires Valid()
      ensures num == |view.entered| && min == (if num > 8 then num - 8 else 0) && min <= curr <= num
      ensures |hist.rows| == |modified.rows| == 9 && |cmd.rows| == 1 && |cmd.rows[0]| == 128
      ensures Logged(hist.rows[num % 9]) == [] && cmd.rows[0] == modified.rows[curr % 9]
    {
      var logs := view.entered[min..] + [""];
      assert hist.rows[Slot(min + (num - min))] == Pad(logs[num - min]);
      assert modified.rows[Slot(min + (curr - min))] == Pad(Log(view));
      LoggedPad(Pad(""), "");
    }

    /** Slot k % 9 holds command k, for each of the last eight. */
    lemma RingIsHistory(k: nat)
      requires Valid() && min <= k < num
      ensures |hist.rows| == 9 && k < |view.entered| && Logged(hist.rows[k % 9]) == view.entered[k]
    {
      var logs := view.entered[min..] + [""];
      assert hist.rows[Slot(min + (k - min))] == Pad(logs[k - min]);
      LoggedPad(Pad(view.entered[k]), view.entered[k]);
    }

    constructor ()
      ensures Valid() && view == Init()
      ensures fresh(hist) && fresh(hist.cells) && fresh(modified) && fresh(modified.cells) && fresh(cmd) && fresh(cmd.cells)
      ensures fresh(line) && fresh(line.buffer) && fresh(line.lastBuffer)
    {
      hist := new Rows(SLOTS);
      modified := new Rows(SLOTS);
      cmd := new Rows(1);
      line := new Line();
      num, curr, min, view := 0, 0, 0, Init();
      new;
      InitRing(hist.rows);
      assert PartsIntact();
      assert Refines();
    }

    method Show(row: string)
      requires PartsIntact() && |row| == ROW && Fitting(Left(line.Text()), Logged(row)) && |cmd.rows| == 1
      modifies cmd, cmd.cells, line`length, line.buffer
      ensures PartsIntact() && cmd.rows == [row] && line.Text() == Typed(Left(old(line.Text())), Logged(row))
    {
      line.Retype(row);
      cmd.Put(0, row);
    }

    /** Shows the log that a shadow row holds. */
    method ShowSlot(slot: nat, ghost log: string)
      requires PartsIntact() && slot < |modified.rows| && |cmd.rows| == 1
      requires |log| < ROW && NUL !in log && modified.rows[slot] == Pad(log) && Fitting(Left(line.Text()), log)
      modifies cmd, cmd.cells, line`length, line.buffer
      ensures PartsIntact() && cmd.rows == [Pad(log)] && line.Text() == Typed(Left(old(line.Text())), log)
    {
      LoggedPad(Pad(log), log);
      var row := modified.Get(slot);
      Show(row);
    }

    /** Up or Down once the target is known to exist: show its log and copy it to curr_cmd. */
    method Visit(k: nat)
      requires Valid() && min <= k <= num && Showable(view, k)
      modifies this`curr, this`view, cmd, cmd.cells, line`length, line.buffer
      ensures Valid() && view == GoTo(old(view), k)
    {
      ghost var w := GoTo(view, k);
      RowAt(modified.rows, min, view.edits, k);
      ShowSlot(Slot(k), Log(w));
      Settle(k, w);
    }

    method Settle(k: nat, ghost w: View)
      requires PartsIntact() && WellFormed(w) && w.entered == view.entered && w.edits == view.edits && w.curr == k
      requires num == |w.entered| && min == Oldest(num) && line.Text() == w.line && cmd.rows == [Pad(Log(w))]
      requires RingHolds(hist.rows, min, w.entered[min..] + [""]) && RingHolds(modified.rows, min, w.edits)
      modifies this`curr, this`view
      ensures Valid() && view == w
    {
      curr := k;
      view := w;
      assert PartsIntact();
      assert Refines();
    }

    method KeyUp()
      requires Valid() && Possible(view, ArrowUp)
      modifies this`curr, this`view, cmd, cmd.cells, line`length, line.buffer
      ensures Valid() && view == Up(old(view))
    {
      if curr > min { Visit(curr - 1); }
    }

    method KeyDown()
      requires Valid() && Possible(view, ArrowDown)
      modifies this`curr, this`view, cmd, cmd.cells, line`length, line.buffer
      ensures Valid() && view == Down(old(view))
    {
      if curr < num { Visit(curr + 1); }
    }

    /** Appends a key to curr_cmd and to the shadow row it mirrors. */
    method LogKey(c: char, slot: nat, ghost log: string)
      requires PartsIntact() && slot < |modified.rows| && |log| < ROW && NUL !in log
      requires cmd.rows == [Pad(log)] && modified.rows[slot] == Pad(log)
      modifies cmd, cmd.cells, modified, modified.cells
      ensures PartsIntact() && cmd.rows == [Pad(log)[|log| := c]]
      ensures modified.rows == old(modified.rows)[slot := Pad(log)[|log| := c]]
    {
      LoggedPad(Pad(log), log);
      cmd.Append(0, c);
      modified.Append(slot, c);
    }

    /** Any other key: it edits the line and is appended to both copies of the current log. */
    method KeyOther(c: char)
      requires Valid() && Typable(view, c)
      modifies this`view, cmd, cmd.cells, modified, modified.cells, line`length, line.buffer
      ensures Valid() && view == Type(old(view), c)
    {
      ghost var w, log := Type(view, c), Log(view);
      TypeRing(modified.rows, view, c);
      line.PutKey(c);
      assert PartsIntact();
      LogKey(c, Slot(curr), log);
      view := w;
      assert PartsIntact();
      assert Refines();
    }

    /** The shadow rows become copies of the stored ones. */
    method CopyAll()
      requires PartsIntact() && |hist.rows| == |modified.rows| == SLOTS
      modifies modified, modified.cells
      ensures PartsIntact() && modified.rows == hist.rows
    {
      for i := 0 to SLOTS
        invariant PartsIntact() && |modified.rows| == SLOTS
        invariant modified.rows[..i] == hist.rows[..i]
      {
        var row := hist.Get(i);
        modified.Put(i, row);
      }
    }

    /** The rows after a non-empty command has been stored. */
    method StoreRows(ghost log: string)
      requires PartsIntact() && |hist.rows| == |modified.rows| == SLOTS && |log| < ROW && cmd.rows == [Pad(log)]
      modifies hist, hist.cells, modified, modified.cells, cmd, cmd.cells
      ensures PartsIntact() && cmd.rows == [Pad("")] && modified.rows == hist.rows
      ensures hist.rows == old(hist.rows)[Slot(num) := Pad(log)][Slot(num + 1) := Pad("")]
    {
      var row := cmd.Get(0);
      hist.Put(Slot(num), row);
      hist.Put(Slot(num + 1), Pad(""));
      CopyAll();
      cmd.Put(0, Pad(""));
    }

    /** The counters after a command has been stored. */
    method Advance(ghost w: View)
      requires PartsIntact() && WellFormed(w) && min == Oldest(num) && w.curr == |w.entered| == num + 1
      requires RingHolds(hist.rows, Oldest(num + 1), w.edits) && modified.rows == hist.rows
      requires w.edits == w.entered[Oldest(num + 1)..] + [""] && Log(w) == [] && cmd.rows == [Pad("")]
      modifies this`num, this`curr, this`min, this`view
      ensures PartsIntact() && Refines() && view == w
    {
      num := num + 1;
      curr := num;
      if num > MAXHIST { min := min + 1; }
      view := w;
    }

    /** Stores the log as the command that `w` ends with. */
    method StoreAs(ghost log: string, ghost w: View)
      requires PartsIntact() && |hist.rows| == |modified.rows| == SLOTS && |log| < ROW && cmd.rows == [Pad(log)]
      requires WellFormed(w) && min == Oldest(num) && w.curr == |w.entered| == num + 1
      requires RingHolds(hist.rows[Slot(num) := Pad(log)][Slot(num + 1) := Pad("")], Oldest(num + 1), w.edits)
      requires w.edits == w.entered[Oldest(num + 1)..] + [""] && Log(w) == []
      modifies this`num, this`curr, this`min, this`view, hist, hist.cells, modified, modified.cells, cmd, cmd.cells
      ensures PartsIntact() && Refines() && view == w
    {
      StoreRows(log);
      Advance(w);
    }

    method Store()
      requires Valid() && Log(view) != []
      modifies this`num, this`curr, this`min, this`view, hist, hist.cells, modified, modified.cells, cmd, cmd.cells
      ensures PartsIntact() && Refines() && view == Enter(old(view))
    {
      ghost var v, w := view, Enter(view);
      EnterRing(hist.rows, v, num, w);
      StoreAs(Log(v), w);
    }

    /** Enter: a non-empty log becomes the newest command, and the line is handed over. */
    method KeyEnter()
      requires Valid() && |view.line| <= BUFFER_LIMIT
      modifies this`num, this`curr, this`min, this`view, hist, hist.cells, modified, modified.cells, cmd, cmd.cells
      modifies line, line.buffer, line.lastBuffer
      ensures Valid() && view == Enter(old(view))
      ensures line.ready && line.LastText() == old(view.line) + "\n"
    {
      ghost var v := view;
      EmptyIffNul(Log(v));
      if cmd.cells[0, 0] != NUL {
        Store();
      } else {
        view := Enter(view);
      }
      assert PartsIntact() && Refines() && view == Enter(v);
      HandOver(v);
    }

    /** The line moves to the reader, and the new line is empty like the new log. */
    method HandOver(ghost v: View)
      requires PartsIntact() && Refines() && WellFormed(v) && view == Enter(v) && line.Text() == v.line
      requires |v.line| <= BUFFER_LIMIT
      modifies line, line.buffer, line.lastBuffer
      ensures Valid() && line.ready && line.LastText() == v.line + "\n"
    {
      line.PutEnter();
      assert PartsIntact();
      assert Refines();
    }

    method Output()
      requires Valid()
      modifies this`view, line`length
      ensures Valid() && view == Interrupt(old(view))
    {
      line.Forget();
      view := Interrupt(view);
    }

    /** Any sequence of inputs drives the ring as it drives the unbounded history. */
    method Drive(inputs: seq<Input>)
      requires Valid() && AllPossible(view, inputs)
      modifies this, hist, hist.cells, modified, modified.cells, cmd, cmd.cells, line, line.buffer, line.lastBuffer
      ensures Valid() && view == PressAll(old(view), inputs)
    {
      for k := 0 to |inputs|
        invariant Valid() && AllPossible(view, inputs[k..])
        invariant PressAll(view, inputs[k..]) == PressAll(old(view), inputs)
      {
        assert inputs[k..][1..] == inputs[k + 1..];
        match inputs[k]
        case ArrowUp => KeyUp();
        case ArrowDown => KeyDown();
        case EnterKey => KeyEnter();
        case Key(c) => KeyOther(c);
        case Output => this.Output();
      }
    }

    /** Typing that stays in step with its log, then Enter, then a read: the reader gets the replay of the log and a newline. */
    method TypeEnterRead(inputs: seq<Input>, buf: array<char>, count: nat) returns (ret: nat)
      requires Valid() && AllPossible(view, inputs + [EnterKey]) && InStep(view)
      requires (PossibleInit(view, inputs); AllHarmless(view, inputs))
      requires count <= buf.Length && buf != line.buffer && buf != line.lastBuffer
      modifies this, hist, hist.cells, modified, modified.cells, cmd, cmd.cells, line, line.buffer, line.lastBuffer, buf
      ensures Valid() && AllPossible(old(view), inputs) && view == Enter(PressAll(old(view), inputs))
      ensures var text := Replay(Log(PressAll(old(view), inputs))) + "\n";
              && ret == (if count < |text| then count else |text|)
              && buf[..ret] == text[..ret] && buf[ret..] == old(buf[..])[ret..]
    {
      PossibleInit(view, inputs);
      HarmlessEndsInStep(view, inputs);
      Drive(inputs);
      KeyEnter();
      ret := Hand(buf, count);
    }

    method Hand(buf: array<char>, count: nat) returns (ret: nat)
      requires Valid() && line.ready && count <= buf.Length && buf != line.buffer && buf != line.lastBuffer
      modifies line`lastLength, line`ready, line.lastBuffer, buf
      ensures Valid()
      ensures ret == (if count < |old(line.LastText())| then count else |old(line.LastText())|)
      ensures buf[..ret] == old(line.LastText())[..ret] && buf[ret..] == old(buf[..])[ret..]
    {
      ret := line.Read(buf, count);
      assert PartsIntact();
      assert Refines();
    }

    /** A terminal from its first key on: cleared rows, then any inputs that stay within the buffers. */
    static method FromStart(inputs: seq<Input>) returns (r: Recall)
      requires AllPossible(Init(), inputs)
      ensures fresh(r) && r.Valid() && r.view == PressAll(Init(), inputs)
    {
      r := new Recall();
      r.Drive(inputs);
    }
  }
}
