/**
  The first dispatch of a task: `schedule` writes a stack frame word by word, and the
  return path of the timer interrupt consumes it instruction by instruction. Addresses
  are byte addresses of aligned words; the interrupted registers are not modelled, only
  what a freshly scheduled task starts with.
 */
module KernelStack {
  import opened KernelBase

  const USER_CS: Word := 0x23
  const USER_DS: Word := 0x2b
  const STACK_FLAGS: Word := 0x202
  const STACK_START: nat := 0x80_0000
  const STACK_SIZE: nat := 0x2000
  const PCB_BYTES: nat := 302
  const FRAME_BYTES: nat := 68

  /** get_kstack_address and get_pcb_address: one 8 KB slot per pid, the control block at its low end. */
  function KernelStackOf(pid: nat): (a: nat)
    requires pid < STACK_START / STACK_SIZE
  {
    STACK_START - pid * STACK_SIZE - 4
  }

  function PcbOf(pid: nat): (a: nat)
    requires pid < STACK_START / STACK_SIZE
  {
    STACK_START - (pid + 1) * STACK_SIZE
  }

  /** Memory as words; the word at byte address `a` is `mem[a / 4]`. */
  predicate Mapped(mem: seq<Word>, a: nat) {
    a % 4 == 0 && a / 4 < |mem|
  }

  // ---- the frame ----

  /** The pointer and memory after `*--top = w`. */
  function Pushed(mem: seq<Word>, top: nat, w: Word): (r: seq<Word>)
    requires 4 <= top && Mapped(mem, top - 4)
    ensures |r| == |mem|
  {
    mem[(top - 4) / 4 := w]
  }

  /** The five words IRETD pops. */
  function IretWords(eip: Word, userStack: Word): (ws: seq<Word>)
    ensures |ws| == 5
  {
    [eip, USER_CS, STACK_FLAGS, userStack, USER_DS]
  }

  /** The frame below the kernel stack `k`; `resume` is the address of `pit_ret`. */
  function Frame(mem: seq<Word>, k: nat, eip: Word, userStack: Word, resume: Word): (r: seq<Word>)
    requires FRAME_BYTES <= k < 0x1_0000_0000 && Mapped(mem, k)
    ensures |r| == |mem|
  {
    var iret := mem[..k / 4 - 5] + IretWords(eip, userStack) + mem[k / 4..];
    iret[k / 4 - 6 := STACK_FLAGS][k / 4 - 11 := k - 24][k / 4 - 16 := resume][k / 4 - 17 := k]
  }

  /** The copy of the IRETD context onto the stack. */
  method CopyContext(mem: array<Word>, stack: nat, registers: seq<Word>)
    requires stack + |registers| <= mem.Length
    modifies mem
    ensures mem[..] == old(mem[..stack]) + registers + old(mem[stack + |registers|..])
  {
    for i := 0 to |registers|
      invariant mem[..] == old(mem[..stack]) + registers[..i] + old(mem[stack + i..])
    {
      mem[stack + i] := registers[i];
    }
  }

  method BuildFrame(mem: array<Word>, k: nat, eip: Word, userStack: Word, resume: Word) returns (esp: nat)
    requires FRAME_BYTES <= k < 0x1_0000_0000 && Mapped(mem[..], k)
    modifies mem
    ensures mem[..] == Frame(old(mem[..]), k, eip, userStack, resume)
    ensures esp == k - 68
    ensures var t := k / 4;
            && mem[t - 5..t] == [eip, 0x23, 0x202, userStack, 0x2b]
            && mem[t - 6] == 0x202 && mem[t - 11] == k - 24 && mem[t - 16] == resume && mem[t - 17] == k
            && forall i :: 0 <= i < mem.Length && !(t - 6 <= i < t) && i != t - 11 && i != t - 16 && i != t - 17 ==>
                 mem[i] == old(mem[i])
  {
    var stack := k / 4 - 5;
    CopyContext(mem, stack, IretWords(eip, userStack));
    stack := stack - 1;
    mem[stack] := STACK_FLAGS;
    mem[stack - 8 + 3] := 4 * stack;
    stack := stack - 10;
    mem[stack] := resume;
    stack := stack - 1;
    mem[stack] := k;
    esp := 4 * stack;
  }

  // ---- the instructions that consume it ----

  datatype Cpu = Cpu(eip: Word, cs: Word, flags: Word, esp: nat, ss: Word, ebp: nat)

  datatype Instr = Leave | Ret | AddEsp(n: nat) | PushL(w: Word) | Popad | Popfd | Iretd

  /** The words at esp, esp + 4, ... that an instruction pops. */
  function Pops(i: Instr): (n: nat) {
    match i
    case Leave => 0
    case Ret => 1
    case AddEsp(_) => 0
    case PushL(_) => 0
    case Popad => 8
    case Popfd => 1
    case Iretd => 5
  }

  predicate Runs(i: Instr, c: Cpu, mem: seq<Word>) {
    match i
    case Leave => Mapped(mem, c.ebp)
    case PushL(_) => 4 <= c.esp && Mapped(mem, c.esp - 4)
    case _ => Mapped(mem, c.esp) && c.esp / 4 + Pops(i) <= |mem|
  }

  function Exec(i: Instr, c: Cpu, mem: seq<Word>): (r: (Cpu, seq<Word>))
    requires Runs(i, c, mem)
    ensures |r.1| == |mem|
  {
    var w := c.esp / 4;
    match i
    case Leave => (c.(esp := c.ebp + 4, ebp := mem[c.ebp / 4]), mem)
    case Ret => (c.(eip := mem[w], esp := c.esp + 4), mem)
    case AddEsp(n) => (c.(esp := c.esp + n), mem)
    case PushL(v) => (c.(esp := c.esp - 4), Pushed(mem, c.esp, v))
    case Popad => (c.(ebp := mem[w + 2], esp := c.esp + 32), mem)
    case Popfd => (c.(flags := mem[w], esp := c.esp + 4), mem)
    case Iretd => (c.(eip := mem[w], cs := mem[w + 1], flags := mem[w + 2], esp := mem[w + 3], ss := mem[w + 4]), mem)
  }

  datatype Outcome = Fault | Done(cpu: Cpu, mem: seq<Word>)

  function Execute(prog: seq<Instr>, c: Cpu, mem: seq<Word>): (o: Outcome)
    ensures o.Done? ==> |o.mem| == |mem|
  {
    if prog == [] then Done(c, mem)
    else if !Runs(prog[0], c, mem) then Fault
    else var (c', mem') := Exec(prog[0], c, mem); Execute(prog[1..], c', mem')
  }

  lemma ExecuteStep(i: Instr, rest: seq<Instr>, c: Cpu, mem: seq<Word>)
    requires Runs(i, c, mem)
    ensures Execute([i] + rest, c, mem) == Execute(rest, Exec(i, c, mem).0, Exec(i, c, mem).1)
  {
    assert ([i] + rest)[1..] == rest;
  }

  /** The end of pit_handler and the start of pit_ret, up to its call of send_eoi. */
  const TO_CALL: seq<Instr> := [Leave] + ([Ret] + ([AddEsp(4)] + ([PushL(0)] + [])))

  /** The rest of pit_ret before its IRETD. */
  const TO_IRET: seq<Instr> := [AddEsp(4)] + ([Popad] + ([Popfd] + []))

  /** The path into pit_ret: the stored return address is taken and only the slot below the frame is written. */
  lemma ReachesPitRet(mem: seq<Word>, k: nat, eip: Word, userStack: Word, resume: Word, c: Cpu) returns (o: Outcome)
    requires FRAME_BYTES <= k < 0x1_0000_0000 && Mapped(mem, k)
    requires c.esp == c.ebp == k - FRAME_BYTES
    ensures o == Execute(TO_CALL, c, Frame(mem, k, eip, userStack, resume)) && o.Done?
    ensures o.cpu.eip == resume && o.cpu.esp == k - 60
    ensures o.mem[k / 4 - 6..k / 4] == [STACK_FLAGS] + IretWords(eip, userStack)
  {
    var m := Frame(mem, k, eip, userStack, resume);
    ExecuteStep(Leave, [Ret] + ([AddEsp(4)] + ([PushL(0)] + [])), c, m);
    var c1 := Exec(Leave, c, m).0;
    ExecuteStep(Ret, [AddEsp(4)] + ([PushL(0)] + []), c1, m);
    var c2 := Exec(Ret, c1, m).0;
    ExecuteStep(AddEsp(4), [PushL(0)] + [], c2, m);
    var c3 := Exec(AddEsp(4), c2, m).0;
    ExecuteStep(PushL(0), [], c3, m);
    o := Done(Exec(PushL(0), c3, m).0, Exec(PushL(0), c3, m).1);
  }

  /** The pops from the call on, given the six words the frame ends with. */
  lemma PopsFrame(after: seq<Word>, k: nat, c: Cpu, words: seq<Word>) returns (popped: Outcome)
    requires FRAME_BYTES <= k && Mapped(after, k) && c.esp == k - 60
    requires |words| == 6 && after[k / 4 - 6..k / 4] == words
    ensures popped == Execute(TO_IRET, c, after) && popped.Done? && popped.mem == after
    ensures popped.cpu.esp == k - 20 && Runs(Iretd, popped.cpu, after)
    ensures var task := Exec(Iretd, popped.cpu, after).0;
            task.eip == words[1] && task.cs == words[2] && task.flags == words[3] &&
            task.esp == words[4] && task.ss == words[5]
  {
    ExecuteStep(AddEsp(4), [Popad] + ([Popfd] + []), c, after);
    var c1 := Exec(AddEsp(4), c, after).0;
    ExecuteStep(Popad, [Popfd] + [], c1, after);
    var c2 := Exec(Popad, c1, after).0;
    ExecuteStep(Popfd, [], c2, after);
    popped := Done(Exec(Popfd, c2, after).0, after);
    assert forall j :: 0 <= j < 6 ==> after[k / 4 - 6 + j] == words[j];
  }

  /**
    Every freshly scheduled task starts as recorded: whatever send_eoi leaves below its
    caller's frame, the pops of pit_ret end with the task's instruction pointer, the user
    segments, the initial flags and the user stack, and leave the kernel stack empty.
   */
  lemma FreshTaskStarts(mem: seq<Word>, after: seq<Word>, pid: nat, eip: Word, userStack: Word, resume: Word, c: Cpu,
                        o: Outcome)
    requires pid < STACK_START / STACK_SIZE && Mapped(mem, KernelStackOf(pid))
    requires c.esp == c.ebp == KernelStackOf(pid) - FRAME_BYTES
    requires o == Execute(TO_CALL, c, Frame(mem, KernelStackOf(pid), eip, userStack, resume))
    requires |after| == |mem|
    requires o.Done? ==> forall a: nat :: Mapped(mem, a) && a > o.cpu.esp ==> after[a / 4] == o.mem[a / 4]
    ensures o.Done? && o.cpu.eip == resume
    ensures var popped := Execute(TO_IRET, o.cpu, after);
            && popped.Done? && popped.cpu.esp + 4 * Pops(Iretd) == KernelStackOf(pid)
            && Runs(Iretd, popped.cpu, popped.mem)
            && var task := Exec(Iretd, popped.cpu, popped.mem).0;
               task.eip == eip && task.cs == 0x23 && task.flags == 0x202 &&
               task.esp == userStack && task.ss == 0x2b
  {
    var k := KernelStackOf(pid);
    var reached := ReachesPitRet(mem, k, eip, userStack, resume, c);
    forall j | k / 4 - 6 <= j < k / 4 ensures after[j] == o.mem[j] { assert Mapped(mem, 4 * j); }
    assert after[k / 4 - 6..k / 4] == o.mem[k / 4 - 6..k / 4];
    var popped := PopsFrame(after, k, o.cpu, [STACK_FLAGS] + IretWords(eip, userStack));
  }

  /** Kernel stacks start below 8 MB, one for every 8 KB, with the control block at the low end. */
  lemma StackSlots(pid: nat)
    requires pid < 1024
    ensures STACK_START / STACK_SIZE == 1024
    ensures KernelStackOf(pid) == 0x7ffffc - pid * 8192 && PcbOf(pid) == 0x7fe000 - pid * 8192
  {
  }

  /** A frame lies in its own pid's slot, above the control block; no other word changes. */
  lemma FrameStaysInSlot(mem: seq<Word>, pid: nat, other: nat, eip: Word, userStack: Word, resume: Word, a: nat)
    requires pid < STACK_START / STACK_SIZE && other < STACK_START / STACK_SIZE
    requires Mapped(mem, KernelStackOf(pid)) && Mapped(mem, a)
    requires if other == pid then PcbOf(pid) <= a < PcbOf(pid) + PCB_BYTES else PcbOf(other) <= a < PcbOf(other) + STACK_SIZE
    ensures Frame(mem, KernelStackOf(pid), eip, userStack, resume)[a / 4] == mem[a / 4]
  {
  }
}
