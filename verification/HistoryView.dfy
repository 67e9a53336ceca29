/**
  The command history as a value: every command ever entered, and for each of the last
  eight and the one being typed an editable copy. Commands are logs of raw keystrokes,
  backspaces included; recalling one replays it.
 */
module HistoryView {
  import opened KernelBase
  import opened LineEditor

  const MAXHIST: nat := 8
  const ROW: nat := 128

  /** `line` is the line on display, which is not always what the current log replays to. */
  datatype View = View(entered: seq<string>, edits: seq<string>, curr: nat, line: string)

  /** The oldest command that can still be recalled. */
  function Oldest(n: nat): (k: nat) {
    if n > MAXHIST then n - MAXHIST else 0
  }

  /** A log that fits a row with its terminator. */
  predicate Storable(log: string) {
    |log| < ROW && NUL !in log
  }

  ghost predicate WellFormed(v: View) {
    && |v.edits| == |v.entered| - Oldest(|v.entered|) + 1
    && Oldest(|v.entered|) <= v.curr <= |v.entered|
    && (forall k :: 0 <= k < |v.entered| ==> Storable(v.entered[k]) && v.entered[k] != [])
    && (forall k :: 0 <= k < |v.edits| ==> Storable(v.edits[k]))
    && (forall k :: 0 <= k < |v.edits| - 1 ==> v.edits[k] != [])
  }

  /** The log being edited. */
  function Log(v: View): (log: string)
    requires Oldest(|v.entered|) <= v.curr < Oldest(|v.entered|) + |v.edits|
  {
    v.edits[v.curr - Oldest(|v.entered|)]
  }

  function Init(): (v: View)
    ensures WellFormed(v)
  {
    View([], [""], 0, "")
  }

  /** Moves to the log of command `k` and types it behind what erasing the line leaves. */
  function GoTo(v: View, k: nat): (w: View)
    requires WellFormed(v) && Oldest(|v.entered|) <= k <= |v.entered|
    ensures WellFormed(w)
  {
    var w := v.(curr := k);
    w.(line := Typed(Left(v.line), Log(w)))
  }

  function Up(v: View): (w: View)
    requires WellFormed(v)
    ensures WellFormed(w)
  {
    if v.curr > Oldest(|v.entered|) then GoTo(v, v.curr - 1) else v
  }

  function Down(v: View): (w: View)
    requires WellFormed(v)
    ensures WellFormed(w)
  {
    if v.curr < |v.entered| then GoTo(v, v.curr + 1) else v
  }

  /** Enter on a non-empty log stores it as the newest command and throws away all edits of older ones. */
  function Enter(v: View): (w: View)
    requires WellFormed(v)
    ensures WellFormed(w)
  {
    if Log(v) == [] then v.(line := "")
    else
      var entered := v.entered + [Log(v)];
      View(entered, entered[Oldest(|entered|)..] + [""], |entered|, "")
  }

  /** A key whose log stays terminated and whose line stays within the buffer. */
  predicate Typable(v: View, c: char)
    requires WellFormed(v)
  {
    (c != NUL ==> |Log(v)| + 1 < ROW) && c != '\n' && Fits(v.line, c)
  }

  function Type(v: View, c: char): (w: View)
    requires WellFormed(v) && (c != NUL ==> |Log(v)| + 1 < ROW)
    ensures WellFormed(w)
  {
    var w := v.(line := Edit(v.line, c));
    if c == NUL then w else w.(edits := v.edits[v.curr - Oldest(|v.entered|) := Log(v) + [c]])
  }

  /** Program output or Ctrl-L empties the line but not the log. */
  function Interrupt(v: View): (w: View)
    requires WellFormed(v)
    ensures WellFormed(w)
  {
    v.(line := "")
  }

  // ---- properties ----

  ghost function UpTimes(v: View, j: nat): (w: View)
    requires WellFormed(v)
    ensures WellFormed(w)
  {
    if j == 0 then v else Up(UpTimes(v, j - 1))
  }

  ghost function DownTimes(v: View, j: nat): (w: View)
    requires WellFormed(v)
    ensures WellFormed(w)
  {
    if j == 0 then v else Down(DownTimes(v, j - 1))
  }

  /** After Enter, j times Up brings back the log of the j-th last command as it was entered, for each of the last eight. */
  lemma RecallFindsEntered(v: View, j: nat, w: View)
    requires WellFormed(v) && Log(v) != [] && 1 <= j <= MAXHIST && j <= |Enter(v).entered| && w == UpTimes(Enter(v), j)
    ensures w.entered == v.entered + [Log(v)] && w.curr == |w.entered| - j && Log(w) == w.entered[|w.entered| - j]
  {
    UpMoves(Enter(v), j);
  }

  lemma UpShows(v: View, w: View)
    requires WellFormed(v) && v.curr > Oldest(|v.entered|) && w == Up(v) && |v.line| <= BUFFER_LIMIT
    ensures w.line == Replay(Log(w))
  {
  }

  /** And it shows the command, provided none shown on the way leaves a character behind when it is erased. */
  lemma {:induction false} RecallShowsEntered(v: View, j: nat, w: View, commands: seq<string>, n: nat)
    requires WellFormed(v) && Log(v) != [] && 1 <= j <= MAXHIST && j <= |Enter(v).entered| && w == UpTimes(Enter(v), j)
    requires commands == v.entered + [Log(v)] && n == |commands|
    requires forall m :: n - j < m < n ==> |Replay(commands[m])| <= BUFFER_LIMIT
    ensures w.line == Replay(commands[n - j])
  {
    RecallFindsEntered(v, j, w);
    var before := UpTimes(Enter(v), j - 1);
    UpMoves(Enter(v), j - 1);
    if j > 1 { RecallShowsEntered(v, j - 1, before, commands, n); }
    UpShows(before, w);
  }

  /** Up and then as often Down leads back to the same log, its edits intact. */
  lemma UpThenDown(v: View, j: nat)
    requires WellFormed(v) && j <= v.curr - Oldest(|v.entered|)
    ensures DownTimes(UpTimes(v, j), j).curr == v.curr
    ensures DownTimes(UpTimes(v, j), j).edits == v.edits && DownTimes(UpTimes(v, j), j).entered == v.entered
  {
    UpMoves(v, j);
    DownMoves(UpTimes(v, j), j);
  }

  lemma {:induction false} UpMoves(v: View, j: nat)
    requires WellFormed(v) && j <= v.curr - Oldest(|v.entered|)
    ensures UpTimes(v, j).curr == v.curr - j && UpTimes(v, j).edits == v.edits && UpTimes(v, j).entered == v.entered
  {
    if j > 0 { UpMoves(v, j - 1); }
  }

  lemma {:induction false} DownMoves(v: View, j: nat)
    requires WellFormed(v) && j <= |v.entered| - v.curr
    ensures DownTimes(v, j).curr == v.curr + j && DownTimes(v, j).edits == v.edits && DownTimes(v, j).entered == v.entered
  {
    if j > 0 { DownMoves(v, j - 1); }
  }

  // ---- runs of keys ----

  /** What reaches a terminal: the arrow keys, Enter, any other key, and output that empties the line. */
  datatype Input = ArrowUp | ArrowDown | EnterKey | Key(c: char) | Output

  /** Showing command `k` stays within the buffer. */
  predicate Showable(v: View, k: nat)
    requires WellFormed(v) && Oldest(|v.entered|) <= k <= |v.entered|
  {
    Fitting(Left(v.line), Log(GoTo(v, k)))
  }

  /** The input writes within the buffers. */
  ghost predicate Possible(v: View, i: Input)
    requires WellFormed(v)
  {
    match i
    case ArrowUp => v.curr > Oldest(|v.entered|) ==> Showable(v, v.curr - 1)
    case ArrowDown => v.curr < |v.entered| ==> Showable(v, v.curr + 1)
    case EnterKey => |v.line| <= BUFFER_LIMIT
    case Key(c) => Typable(v, c)
    case Output => true
  }

  function Press(v: View, i: Input): (w: View)
    requires WellFormed(v) && Possible(v, i)
    ensures WellFormed(w)
  {
    match i
    case ArrowUp => Up(v)
    case ArrowDown => Down(v)
    case EnterKey => Enter(v)
    case Key(c) => Type(v, c)
    case Output => Interrupt(v)
  }

  ghost predicate AllPossible(v: View, inputs: seq<Input>)
    requires WellFormed(v)
    decreases |inputs|
  {
    inputs == [] || (Possible(v, inputs[0]) && AllPossible(Press(v, inputs[0]), inputs[1..]))
  }

  ghost function PressAll(v: View, inputs: seq<Input>): (w: View)
    requires WellFormed(v) && AllPossible(v, inputs)
    ensures WellFormed(w)
    decreases |inputs|
  {
    if inputs == [] then v else PressAll(Press(v, inputs[0]), inputs[1..])
  }

  /** The non-empty logs Enter was pressed on, in order. */
  ghost function Commands(v: View, inputs: seq<Input>): (cs: seq<string>)
    requires WellFormed(v) && AllPossible(v, inputs)
    decreases |inputs|
  {
    if inputs == [] then []
    else Added(v, inputs[0]) + Commands(Press(v, inputs[0]), inputs[1..])
  }

  /** What a single input adds to the list of commands. */
  ghost function Added(v: View, i: Input): (cs: seq<string>)
    requires WellFormed(v)
  {
    if i.EnterKey? && Log(v) != [] then [Log(v)] else []
  }

  lemma PressEnters(v: View, i: Input, w: View)
    requires WellFormed(v) && Possible(v, i) && w == Press(v, i)
    ensures w.entered == v.entered + Added(v, i)
  {
  }

  lemma Reassociate(before: seq<string>, first: seq<string>, rest: seq<string>, cs: seq<string>, all: seq<string>)
    requires cs == first + rest && all == before + first
    ensures before + cs == all + rest
  {
  }

  /** No edit, recall or output ever changes a stored command: the list is exactly the commands entered. */
  lemma {:induction false} EnteredIsAllCommands(v: View, inputs: seq<Input>)
    requires WellFormed(v) && AllPossible(v, inputs)
    ensures PressAll(v, inputs).entered == v.entered + Commands(v, inputs)
    decreases |inputs|
  {
    if inputs != [] {
      var i, rest := inputs[0], inputs[1..];
      var w := Press(v, i);
      EnteredIsAllCommands(w, rest);
      PressEnters(v, i, w);
      Reassociate(v.entered, Added(v, i), Commands(w, rest), Commands(v, inputs), w.entered);
    }
  }

  /** Below 121 characters and 127 logged keys every key is possible, and output and Enter are up to 128 characters. */
  lemma UsuallyPossible(v: View, i: Input)
    requires WellFormed(v) && |v.line| <= 128 && !i.ArrowUp? && !i.ArrowDown?
    requires i.Key? ==> |v.line| <= 121 && |Log(v)| < 127 && i.c != '\n'
    ensures Possible(v, i)
  {
  }

  // ---- lines and logs ----

  ghost predicate InStep(v: View)
    requires WellFormed(v)
  {
    v.line == Replay(Log(v))
  }

  /** Typing, Enter, and an arrow key that does not move keep line and log in step. */
  lemma TypeKeepsStep(v: View, c: char, w: View)
    requires WellFormed(v) && (c != NUL ==> |Log(v)| + 1 < ROW) && w == Type(v, c) && InStep(v)
    ensures InStep(w)
  {
    if c != NUL { assert Log(w)[..|Log(w)| - 1] == Log(v); }
  }

  /** Output keeps them in step exactly if it finds the line empty. */
  lemma OutputStep(v: View, w: View)
    requires WellFormed(v) && InStep(v) && w == Interrupt(v)
    ensures InStep(w) <==> v.line == []
  {
  }

  /** An arrow key brings them in step if the line has at most 128 characters, whatever it was before. */
  lemma ArrowShowsReplay(v: View, k: nat, w: View)
    requires WellFormed(v) && Oldest(|v.entered|) <= k <= |v.entered| && w == GoTo(v, k) && |v.line| <= BUFFER_LIMIT
    ensures InStep(w)
  {
  }

  /** For a log of printable keys, exactly then: otherwise the first character of the old line stays in front. */
  lemma ArrowShowsReplayIff(v: View, k: nat, w: View)
    requires WellFormed(v) && Oldest(|v.entered|) <= k <= |v.entered| && w == GoTo(v, k) && Plain(Log(w))
    requires |v.line| <= BUFFER_LIMIT + 1
    ensures InStep(w) <==> |v.line| <= BUFFER_LIMIT
    ensures w.line == Left(v.line) + Log(w)
  {
    TypedPlain(Left(v.line), Log(w));
    TypedPlain([], Log(w));
  }

  lemma MoveBounded(v: View, k: nat, w: View)
    requires WellFormed(v) && Oldest(|v.entered|) <= k <= |v.entered| && Showable(v, k) && w == GoTo(v, k)
    requires |v.line| <= BUFFER_LIMIT + 1 && Plain(v.line)
    ensures |w.line| <= BUFFER_LIMIT + 1 && Plain(w.line)
  {
    TypedBounded(Left(v.line), Log(w));
  }

  /** No line gets longer than that. */
  lemma LineBounded(v: View, i: Input, w: View)
    requires WellFormed(v) && Possible(v, i) && w == Press(v, i) && |v.line| <= BUFFER_LIMIT + 1 && Plain(v.line)
    ensures |w.line| <= BUFFER_LIMIT + 1 && Plain(w.line)
  {
    match i
    case ArrowUp => if v.curr > Oldest(|v.entered|) { MoveBounded(v, v.curr - 1, w); }
    case ArrowDown => if v.curr < |v.entered| { MoveBounded(v, v.curr + 1, w); }
    case EnterKey =>
    case Key(c) =>
    case Output =>
  }

  /** What erasing leaves of the line does not show in the log that is then typed; a line of at most 128 characters leaves nothing. */
  ghost predicate Unseen(v: View, k: nat)
    requires WellFormed(v) && Oldest(|v.entered|) <= k <= |v.entered|
  {
    |v.line| <= BUFFER_LIMIT || Typed(Left(v.line), Log(GoTo(v, k))) == Replay(Log(GoTo(v, k)))
  }

  lemma MoveIff(v: View, k: nat, w: View)
    requires WellFormed(v) && Oldest(|v.entered|) <= k <= |v.entered| && w == GoTo(v, k)
    ensures InStep(w) <==> Unseen(v, k)
  {
  }

  /** Output finds the line empty, and an arrow key leaves nothing of the line that shows. */
  ghost predicate Harmless(v: View, i: Input)
    requires WellFormed(v)
  {
    match i
    case ArrowUp => v.curr > Oldest(|v.entered|) ==> Unseen(v, v.curr - 1)
    case ArrowDown => v.curr < |v.entered| ==> Unseen(v, v.curr + 1)
    case Output => v.line == []
    case _ => true
  }

  lemma EnterStep(v: View, w: View)
    requires WellFormed(v) && w == Enter(v)
    ensures InStep(w)
  {
  }

  lemma StepIff(v: View, i: Input, w: View)
    requires WellFormed(v) && Possible(v, i) && InStep(v) && w == Press(v, i)
    ensures InStep(w) <==> Harmless(v, i)
  {
    match i
    case ArrowUp => if v.curr > Oldest(|v.entered|) { MoveIff(v, v.curr - 1, w); }
    case ArrowDown => if v.curr < |v.entered| { MoveIff(v, v.curr + 1, w); }
    case EnterKey => EnterStep(v, w);
    case Key(c) => TypeKeepsStep(v, c, w);
    case Output => OutputStep(v, w);
  }

  /** In every state along the inputs the line is the replay of the current log. */
  ghost predicate AlwaysInStep(v: View, inputs: seq<Input>)
    requires WellFormed(v) && AllPossible(v, inputs)
    decreases |inputs|
  {
    InStep(v) && (inputs == [] || AlwaysInStep(Press(v, inputs[0]), inputs[1..]))
  }

  ghost predicate AllHarmless(v: View, inputs: seq<Input>)
    requires WellFormed(v) && AllPossible(v, inputs)
    decreases |inputs|
  {
    inputs == [] || (Harmless(v, inputs[0]) && AllHarmless(Press(v, inputs[0]), inputs[1..]))
  }

  /** Line and log stay in step exactly if every output and every arrow key is harmless. */
  lemma {:induction false} InStepIff(v: View, inputs: seq<Input>)
    requires WellFormed(v) && AllPossible(v, inputs) && InStep(v)
    ensures AlwaysInStep(v, inputs) <==> AllHarmless(v, inputs)
    decreases |inputs|
  {
    if inputs != [] {
      var w := Press(v, inputs[0]);
      StepIff(v, inputs[0], w);
      if InStep(w) { InStepIff(w, inputs[1..]); }
    }
  }

  /** Then the line is the replay of the current log in the end, too. */
  lemma {:induction false} HarmlessEndsInStep(v: View, inputs: seq<Input>)
    requires WellFormed(v) && AllPossible(v, inputs) && InStep(v) && AllHarmless(v, inputs)
    ensures InStep(PressAll(v, inputs))
    decreases |inputs|
  {
    if inputs != [] {
      var w := Press(v, inputs[0]);
      StepIff(v, inputs[0], w);
      HarmlessEndsInStep(w, inputs[1..]);
    }
  }

  /** The inputs are possible and lead from one view to another. */
  ghost predicate Leads(v: View, inputs: seq<Input>, w: View)
  {
    WellFormed(v) && AllPossible(v, inputs) && PressAll(v, inputs) == w
  }

  lemma LeadsOn(v: View, i: Input, next: View, rest: seq<Input>, w: View)
    requires WellFormed(v) && Possible(v, i) && next == Press(v, i) && Leads(next, rest, w)
    ensures Leads(v, [i] + rest, w)
  {
    assert ([i] + rest)[1..] == rest;
  }

  lemma {:induction false} PossibleInit(v: View, inputs: seq<Input>)
    requires WellFormed(v) && AllPossible(v, inputs + [EnterKey])
    ensures AllPossible(v, inputs) && |PressAll(v, inputs).line| <= BUFFER_LIMIT
    decreases |inputs|
  {
    var all := inputs + [EnterKey];
    if inputs == [] {
      assert all[0] == EnterKey;
    } else {
      assert all[0] == inputs[0] && all[1..] == inputs[1..] + [EnterKey];
      PossibleInit(Press(v, inputs[0]), inputs[1..]);
    }
  }

  // ---- inputs that break it ----

  lemma TypeFirst(v: View, w: View)
    requires v == Init() && w == View([], ["a"], 0, "a")
    ensures WellFormed(v) && Possible(v, Key('a')) && Press(v, Key('a')) == w && WellFormed(w)
  {
    assert "" + ['a'] == "a";
  }

  lemma InterruptFirst(v: View, w: View)
    requires v == View([], ["a"], 0, "a") && w == View([], ["a"], 0, "")
    ensures WellFormed(v) && Possible(v, Output) && Press(v, Output) == w && WellFormed(w)
  {
  }

  lemma TypeSecond(v: View, w: View)
    requires v == View([], ["a"], 0, "") && w == View([], ["ab"], 0, "b")
    ensures WellFormed(v) && Possible(v, Key('b')) && Press(v, Key('b')) == w && WellFormed(w)
  {
    assert Log(v) == "a" && Log(v) + ['b'] == "ab" && "" + ['b'] == "b";
  }

  /** Output in the middle of a line: after a, output, b the line is b but the log replays to ab. */
  lemma OutputBreaksReplay(v: View)
    requires v == View([], ["ab"], 0, "b")
    ensures Leads(Init(), [Key('a')] + ([Output] + ([Key('b')] + [])), v)
    ensures WellFormed(v) && v.line == "b" && Replay(Log(v)) == "ab"
  {
    var v0, v1, v2 := Init(), View([], ["a"], 0, "a"), View([], ["a"], 0, "");
    TypeFirst(v0, v1);
    InterruptFirst(v1, v2);
    TypeSecond(v2, v);
    LeadsOn(v2, Key('b'), v, [], v);
    LeadsOn(v1, Output, v2, [Key('b')] + [], v);
    LeadsOn(v0, Key('a'), v1, [Output] + ([Key('b')] + []), v);
    TypedPlain([], Log(v));
  }

  /** A command a has been entered, and `bs` has been typed since. */
  function Lettered(bs: string): (v: View) {
    View(["a"], ["a", bs], 1, bs)
  }

  lemma EnterFirst(v: View, w: View)
    requires v == View([], ["a"], 0, "a") && w == Lettered("")
    ensures WellFormed(v) && Possible(v, EnterKey) && Press(v, EnterKey) == w && WellFormed(w)
  {
    var e := v.entered + [Log(v)];
    assert Log(v) == "a" && e == ["a"] && Oldest(|e|) == 0;
    assert e[0..] + [""] == ["a", ""];
    assert Enter(v) == View(e, e[0..] + [""], 1, "");
  }

  lemma TypeLetter(bs: string, v: View, w: View)
    requires |bs| < 121 && NUL !in bs && v == Lettered(bs) && w == Lettered(bs + "b")
    ensures WellFormed(v) && Possible(v, Key('b')) && Press(v, Key('b')) == w && WellFormed(w)
  {
    assert Log(v) == bs && v.edits[1 := bs + "b"] == w.edits;
  }

  lemma {:induction false} TypeLetters(bs: string, k: nat, letters: seq<Input>, all: string, tail: seq<Input>, w: View)
    requires |bs| + k == 121 && (forall i :: 0 <= i < |bs| ==> bs[i] == 'b') && letters == seq(k, _ => Key('b'))
    requires all == seq(121, _ => 'b') && Leads(Lettered(all), tail, w)
    ensures Leads(Lettered(bs), letters + tail, w)
    decreases k
  {
    if k == 0 {
      assert bs == all && letters + tail == tail;
    } else {
      var rest := letters[1..];
      assert rest == seq(k - 1, _ => Key('b')) && letters + tail == [Key('b')] + (rest + tail);
      TypeLetters(bs + "b", k - 1, rest, all, tail, w);
      TypeLetter(bs, Lettered(bs), Lettered(bs + "b"));
      LeadsOn(Lettered(bs), Key('b'), Lettered(bs + "b"), rest + tail, w);
    }
  }

  lemma TypeTab(bs: string, v: View, t: View)
    requires |bs| == 121 && NUL !in bs && v == Lettered(bs)
    requires t == View(["a"], ["a", bs + "\t"], 1, bs + "        ")
    ensures WellFormed(v) && Possible(v, Key(TAB)) && Press(v, Key(TAB)) == t && WellFormed(t)
  {
    assert Log(v) == bs && v.edits[1 := bs + "\t"] == t.edits;
  }

  /** An arrow key leaves the first letter of a line of 129 in front of the command. */
  lemma UpAfterTab(bs: string, t: View, w: View)
    requires |bs| == 121 && bs[0] == 'b' && t == View(["a"], ["a", bs + "\t"], 1, bs + "        ") && WellFormed(t)
    requires w == View(["a"], ["a", bs + "\t"], 0, "ba")
    ensures Possible(t, ArrowUp) && Press(t, ArrowUp) == w && WellFormed(w) && !InStep(w)
  {
    var g := GoTo(t, 0);
    assert |t.line| == 129 && Left(t.line) == "b" && Log(g) == "a";
    ArrowShowsReplayIff(t, 0, g);
    assert "b" + "a" == "ba";
    assert forall i :: 0 <= i < 1 ==> "a"[..i] == "";
  }

  /** The whole input: a command a, then 121 times b, a tab and Up, show ba. */
  lemma UpLeavesLetter(bs: string, letters: seq<Input>, v: View)
    requires bs == seq(121, _ => 'b') && letters == seq(121, _ => Key('b'))
    requires v == View(["a"], ["a", bs + "\t"], 0, "ba")
    ensures Leads(Init(), [Key('a')] + ([EnterKey] + (letters + ([Key(TAB)] + ([ArrowUp] + [])))), v)
    ensures WellFormed(v) && v.line == "ba" && Log(v) == "a" && !InStep(v)
  {
    var v0, v1 := Init(), View([], ["a"], 0, "a");
    var t := View(["a"], ["a", bs + "\t"], 1, bs + "        ");
    TypeTab(bs, Lettered(bs), t);
    UpAfterTab(bs, t, v);
    LeadsOn(t, ArrowUp, v, [], v);
    var tail := [Key(TAB)] + ([ArrowUp] + []);
    LeadsOn(Lettered(bs), Key(TAB), t, [ArrowUp] + [], v);
    TypeLetters("", 121, letters, bs, tail, v);
    EnterFirst(v1, Lettered(""));
    LeadsOn(v1, EnterKey, Lettered(""), letters + tail, v);
    TypeFirst(v0, v1);
    LeadsOn(v0, Key('a'), v1, [EnterKey] + (letters + tail), v);
  }
}
