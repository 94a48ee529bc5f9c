/**
 * The execution stepper: the interpreter's run-time state as a value and
 * `Step`, which advances it to the next output line.
 *
 * The state is the program text, the block table (whose counters the
 * stepper updates), the `%` region, the parameter store, the call stack and
 * the cursor, the number of the next line to look at. Each call of `Step`
 * looks at lines until one of them yields output; a line yields when it
 * produces G-code text or when an active comment left a message.
 *
 * The source's loop in `Step` need not end (a `do` block whose `while` is
 * always true), so the model takes a bound on the number of lines it looks
 * at, `fuel`, and says when the bound is reached.
 */
module Stepper {
  import opened Errors
  import opened Text
  import opened Numerals
  import opened Parameters
  import opened Extra
  import opened Normaliser
  import opened Operators
  import opened Expressions
  import opened Blocks
  import opened Lines

  /** A copy of the 30 local parameters. */
  type Locals = l: seq<real> | |l| == TOTAL_LOCAL_PARAMETERS witness seq(TOTAL_LOCAL_PARAMETERS, _ => 0.0)

  /**
   * What a `call` saves: the line to return to and the caller's local
   * frame. The source keeps the two in two stacks that are always pushed
   * and popped together.
   */
  datatype Frame = Frame(returnLine: nat, saved: Locals)

  datatype Machine = Machine(
    code: seq<string>,
    blocks: map<nat, CodeBlock>,
    percentStart: nat,
    percentStop: nat,
    percentActive: bool,
    store: Store,
    calls: seq<Frame>,
    cursor: nat)

  /** The largest value of the 32-bit line counter. */
  const LINE_MAX: nat := 0xFFFF_FFFF

  // ------------------------------------------------------------------
  // Starting over
  // ------------------------------------------------------------------

  /**
   * `Rewind`: back to line 1 with a zero local frame, no saved frames and
   * the `%` region not yet entered; the global parameters, the program and
   * its block table stay.
   */
  function Rewind(m: Machine): (r: Machine)
  {
    m.(cursor := 1, calls := [], percentActive := false,
       store := Space(m.store.globals, ZeroFrame(), INTERNAL_PARAMETERS_START - 1))
  }

  /** A new interpreter: no program, every parameter zero. */
  function Initial(): (m: Machine)
  {
    Rewind(Machine([], map[], 0, 0, false,
      Space(seq(TOTAL_PARAMETERS, _ => 0.0), ZeroFrame(), INTERNAL_PARAMETERS_START - 1), [], 0))
  }

  /** `Load`: the new program and its table in place of the old, then `Rewind`. */
  function LoadProgram(m: Machine, text: string, blockDelete: bool): (r: Result<Machine>)
  {
    var l :- Load(text, blockDelete);
    Ok(Rewind(m.(code := l.code, blocks := l.table.blocks,
                 percentStart := l.table.percentStart, percentStop := l.table.percentStop)))
  }

  /** `Clear`: every global parameter zero, the local frame kept. */
  function ClearGlobals(s: Store): (t: Store)
  {
    s.(globals := seq(TOTAL_PARAMETERS, _ => 0.0))
  }

  // ------------------------------------------------------------------
  // Control lines
  // ------------------------------------------------------------------

  /** `n - 1` on the 32-bit line counter. */
  function LineBefore(n: nat): (r: nat)
  {
    if n == 0 then LINE_MAX else n - 1
  }

  /**
   * The line an `elseif` on `line` goes to when its condition is false:
   * the next elseif/else line of the block, or the block's end when `line`
   * is the last of them or not among them.
   */
  function NextMid(mids: seq<nat>, line: nat, end: nat): (r: nat)
  {
    if |mids| == 0 then end
    else if mids[0] == line then (if |mids| > 1 then mids[1] else end)
    else NextMid(mids[1..], line, end)
  }

  /** The local frame with its first `min(|args|, 30)` entries replaced by the arguments. */
  function CopyArgs(locals: Locals, args: seq<real>): (r: Locals)
    ensures forall i :: 0 <= i < TOTAL_LOCAL_PARAMETERS ==> r[i] == if i < |args| then args[i] else locals[i]
  {
    if |args| >= TOTAL_LOCAL_PARAMETERS then args[..TOTAL_LOCAL_PARAMETERS] else args + locals[|args|..]
  }

  /**
   * `call` of the sub `b` from a line whose successor is `next`: the
   * return line and the caller's locals are saved, the arguments become the
   * first locals (the others keep the caller's values) and execution goes
   * on after the `sub` line.
   */
  function Call(m: Machine, b: CodeBlock, args: seq<real>, next: nat): (r: Result<Machine>)
  {
    if b.kind != Sub then Err(SubNotFound)
    else if |m.calls| >= MAX_STACK_LEVELS then Err(StackOverflow)
    else
      Ok(m.(calls := m.calls + [Frame(next, m.store.locals)],
            store := m.store.(locals := CopyArgs(m.store.locals, args)),
            cursor := b.startLine + 1))
  }

  /**
   * `return` or `endsub`: the first argument, if any, goes to `#5000`; the
   * innermost saved frame is restored and execution goes on at its return
   * line.
   */
  function Return(m: Machine, args: seq<real>): (r: Result<Machine>)
  {
    var s := if args != [] then Put(m.store, RETURN_VALUE_PARAMETER, args[0]) else m.store;
    if m.calls == [] then Err(StackUnderrun)
    else
      var top := m.calls[|m.calls| - 1];
      Ok(m.(store := s.(locals := top.saved), calls := m.calls[..|m.calls| - 1], cursor := top.returnLine))
  }

  /** The block `number` with its counter set to `n`. */
  function WithCounter(m: Machine, number: nat, b: CodeBlock, n: int): (r: map<nat, CodeBlock>)
  {
    m.blocks[number := b.(runTimes := n)]
  }

  /**
   * The counter an argument command leaves in its block: `repeat` sets it
   * to the argument truncated towards zero, `if` (and an `elseif` after no
   * taken branch) to 1 or 0 for a true or false condition.
   */
  function BranchCounter(b: CodeBlock, cmd: string, arg: real): int
  {
    if cmd == "repeat" then Trunc(arg)
    else if cmd == "if" || (cmd == "elseif" && b.runTimes == 0) then (if arg != 0.0 then 1 else 0)
    else b.runTimes
  }

  /**
   * Where an argument command on line `line` goes: a false `while` leaves
   * its loop and a true one that closes a `do` goes back to the top; a
   * false `if` goes to the first elseif/else line or past the block; an
   * `elseif` after a taken branch leaves the block, and a false one goes on
   * to the next elseif/else line or past the block. Everything else falls
   * through.
   */
  function BranchTarget(b: CodeBlock, cmd: string, arg: real, line: nat): (r: nat)
  {
    var next := line + 1;
    if cmd == "while" then
      (if arg == 0.0 then b.endLine else if line != b.startLine then b.startLine + 1 else next)
    else if cmd == "if" then
      (if arg != 0.0 then next else if b.midLines == [] then b.endLine else b.midLines[0])
    else if cmd == "elseif" then
      (if b.runTimes != 0 then b.endLine else if arg != 0.0 then next else NextMid(b.midLines, line, b.endLine))
    else next
  }

  /**
   * The commands that need an argument (`repeat`, `while`, `if`,
   * `elseif`) and any other command on a known block, with the value `arg`
   * of the first bracket on the line.
   */
  function Branch(m: Machine, number: nat, b: CodeBlock, cmd: string, arg: real): (r: Machine)
  {
    m.(blocks := WithCounter(m, number, b, BranchCounter(b, cmd, arg)), cursor := BranchTarget(b, cmd, arg, m.cursor))
  }

  /** The commands that take no argument. */
  predicate Bare(cmd: string) {
    cmd in {"sub", "break", "continue", "endwhile", "endrepeat", "else", "do", "endif"}
  }

  /** The counter a command without argument leaves: `endrepeat` counts one repetition down. */
  function BareCounter(b: CodeBlock, cmd: string): int
  {
    if cmd == "endrepeat" then b.runTimes - 1 else b.runTimes
  }

  /**
   * Where a command without argument on line `line` goes: `sub` skips the
   * subroutine and `break` leaves its loop (both past the block);
   * `continue` goes to the loop's closing line and `endwhile` back to its
   * `while`; `endrepeat` goes back after the `repeat` while repetitions are
   * left; `else` after a taken branch leaves the block. Everything else
   * falls through.
   */
  function BareTarget(b: CodeBlock, cmd: string, line: nat): (r: nat)
  {
    if cmd == "sub" || cmd == "break" then b.endLine
    else if cmd == "continue" then LineBefore(b.endLine)
    else if cmd == "endwhile" then b.startLine
    else if cmd == "endrepeat" then (if b.runTimes - 1 > 0 then b.startLine + 1 else line + 1)
    else if cmd == "else" then (if b.runTimes != 0 then b.endLine else line + 1)
    else line + 1
  }

  /** A control line: the O-word `w` on the line at the cursor. */
  function Control(ops: FloatOps, m: Machine, w: OWord): (r: Result<Machine>)
  {
    if w.number !in m.blocks then Err(BlockNotFound)
    else
      var b := m.blocks[w.number];
      var cmd := w.command;
      if Bare(cmd) then
        Ok(m.(blocks := WithCounter(m, w.number, b, BareCounter(b, cmd)), cursor := BareTarget(b, cmd, m.cursor)))
      else
        var (rest, s, args) :- CalcExprs(ops, m.store, SimplifyOperators(w.rest));
        Arguments(m.(store := s), w.number, cmd, rest, args)
  }

  /**
   * A command of block `number` that may take arguments, once its
   * brackets are calculated: `rest` is what is left of the line and `args`
   * the values of its brackets.
   */
  function Arguments(m: Machine, number: nat, cmd: string, rest: string, args: seq<real>): (r: Result<Machine>)
    requires number in m.blocks
  {
    var b := m.blocks[number];
    if cmd == "call" then Call(m, b, args, m.cursor + 1)
    else if cmd == "return" || cmd == "endsub" then Return(m, args)
    else if rest == [] || args == [] then Err(NoArguments)
    else Ok(Branch(m, number, b, cmd, args[0]))
  }

  // ------------------------------------------------------------------
  // One line, one step
  // ------------------------------------------------------------------

  /** What looking at one line gives: output to hand out, or on to the next line. */
  datatype Turn = Yield(line: string, m: Machine, box: Slots) | Pass(m: Machine, box: Slots)

  /** A G-code line whose text starts with `m2` or `m30` ends the program. */
  predicate EndsProgram(line: string) {
    HasPrefix(line, "m2") || HasPrefix(line, "m30")
  }

  /** The line at the cursor, once it is inside the `%` region (if there is one). */
  function Execute(ops: FloatOps, flags: Flags, m: Machine, box: Slots): (r: Result<Turn>)
    requires m.cursor < |m.code|
  {
    var (stripped, box1, s1) :- ProcessComments(Fresh(m.store), box, true, m.code[m.cursor]);
    var prepared :- PrepareLine(stripped, flags.blockDelete);
    var line :- RemoveNword(prepared);
    Act(ops, flags, m.(store := s1), box1, line)
  }

  /**
   * What the normalised line `line` at the cursor does: an empty line is
   * passed over, an O-word line is a control line, anything else is
   * G-code to hand out. The mailbox `box` holds the line's messages; an
   * empty or control line yields only when it holds one.
   */
  function Act(ops: FloatOps, flags: Flags, m: Machine, box: Slots, line: string): (r: Result<Turn>)
  {
    if line == [] then
      var m1 := m.(cursor := m.cursor + 1);
      Ok(if Pending(box) then Yield("", m1, box) else Pass(m1, box))
    else
      var word :- ReadOword(line);
      match word
      case Some(w) => ControlTurn(ops, m, box, w)
      case None => Emit(ops, flags, m, box, line)
  }

  /** A control line yields only when a message is pending. */
  function ControlTurn(ops: FloatOps, m: Machine, box: Slots, w: OWord): (r: Result<Turn>)
  {
    var m1 :- Control(ops, m, w);
    Ok(if Pending(box) then Yield("", m1, box) else Pass(m1, box))
  }

  /**
   * An ordinary line is resolved and formatted; `M2` or `M30` ends the
   * program. It yields when its text is not empty or a message is pending.
   */
  function Emit(ops: FloatOps, flags: Flags, m: Machine, box: Slots, line: string): (r: Result<Turn>)
  {
    var resolved :- Resolve(ops, m.store, line, STEP_PRECISION);
    Ok(Emitted(flags, m, box, resolved))
  }

  /** An ordinary line once resolved to the text and store `resolved`. */
  function Emitted(flags: Flags, m: Machine, box: Slots, resolved: (string, Store)): (t: Turn)
  {
    var m1 := m.(store := resolved.1, cursor := if EndsProgram(resolved.0) then |m.code| else m.cursor + 1);
    var out := FormatPretty(resolved.0, flags.pretty, flags.upper);
    if out != [] || Pending(box) then Yield(out, m1, box) else Pass(m1, box)
  }

  /**
   * One round of the stepping loop: with a `%` region, its opening line is
   * skipped and enters it, its closing line ends the program, and lines
   * outside it are skipped.
   */
  function Cycle(ops: FloatOps, flags: Flags, m: Machine, box: Slots): (r: Result<Turn>)
    requires m.cursor < |m.code|
  {
    if m.percentStart > 0 && m.cursor == m.percentStart then
      Ok(Pass(m.(percentActive := true, cursor := m.cursor + 1), box))
    else if m.percentStart > 0 && m.cursor == m.percentStop then
      Ok(Pass(m.(cursor := |m.code|), box))
    else if m.percentStart > 0 && !m.percentActive then
      Ok(Pass(m.(cursor := m.cursor + 1), box))
    else Execute(ops, flags, m, box)
  }

  /** How a step ends: with a line (possibly empty, when only messages are pending), at the end of the program, or out of fuel. */
  datatype Outcome = Produced(line: string) | Finished | Stalled

  datatype Stop = Stop(outcome: Outcome, m: Machine, box: Slots)

  /** The stepping loop, looking at no more than `fuel` lines. */
  function Run(ops: FloatOps, flags: Flags, m: Machine, box: Slots, fuel: nat): (r: Result<Stop>)
    decreases fuel, 1
  {
    if m.cursor >= |m.code| then Ok(Stop(Finished, m, box))
    else if fuel == 0 then Ok(Stop(Stalled, m, box))
    else
      var turn :- Cycle(ops, flags, m, box);
      Continue(ops, flags, turn, fuel - 1)
  }

  /** Where a turn leads: a yielding turn ends the step, a passing one goes on to the next line. */
  function Continue(ops: FloatOps, flags: Flags, turn: Turn, fuel: nat): (r: Result<Stop>)
    decreases fuel, 2
  {
    match turn
    case Yield(line, m, box) => Ok(Stop(Produced(line), m, box))
    case Pass(m, box) => Run(ops, flags, m, box, fuel)
  }

  /** `Step`: the mailbox is emptied, then the loop runs. */
  function Step(ops: FloatOps, flags: Flags, m: Machine, fuel: nat): (r: Result<Stop>)
  {
    Run(ops, flags, m, EmptySlots(), fuel)
  }

  // ------------------------------------------------------------------
  // What stepping keeps
  // ------------------------------------------------------------------

  /** A block without its counter. */
  function Layout(b: CodeBlock): CodeBlock {
    b.(runTimes := 0)
  }

  /** Two tables with the same blocks in the same places; only counters may differ. */
  predicate SameLayout(a: map<nat, CodeBlock>, b: map<nat, CodeBlock>) {
    a.Keys == b.Keys && forall k :: k in a ==> Layout(a[k]) == Layout(b[k])
  }

  /** What a step leaves alone: the program, its `%` region and where its blocks lie. */
  predicate Stays(m: Machine, m': Machine) {
    && m'.code == m.code
    && m'.percentStart == m.percentStart && m'.percentStop == m.percentStop
    && SameLayout(m.blocks, m'.blocks)
  }

  /**
   * A state the stepper can run from: every block placed within the
   * program, a well-ordered `%` region, the cursor and every return line at
   * most one past the last line, and at most 1000 saved frames.
   */
  predicate Sound(m: Machine) {
    && (forall k :: k in m.blocks ==> |m.code| >= 1 && Placed(m.blocks[k], |m.code| - 1))
    && (m.percentStart > 0 ==> m.percentStart < m.percentStop < |m.code|)
    && (m.cursor <= |m.code| || m.code == [])
    && |m.calls| <= MAX_STACK_LEVELS
    && (forall i :: 0 <= i < |m.calls| ==> m.calls[i].returnLine <= |m.code|)
  }

  /** Setting a counter keeps the layout. */
  lemma WithCounterLayout(m: Machine, number: nat, n: int)
    requires number in m.blocks
    ensures SameLayout(m.blocks, WithCounter(m, number, m.blocks[number], n))
  {
    var t := WithCounter(m, number, m.blocks[number], n);
    assert Layout(t[number]) == Layout(m.blocks[number]);
  }

  /** Placed blocks keep every jump target of the stepper within the program. */
  lemma PlacedTargets(b: CodeBlock, size: nat, line: nat)
    requires Placed(b, size)
    ensures 1 <= LineBefore(b.endLine) && LineBefore(b.endLine) + 1 == b.endLine <= size + 1
    ensures b.startLine + 1 <= size
    ensures b.midLines != [] ==> b.midLines[0] <= size
    ensures NextMid(b.midLines, line, b.endLine) <= size + 1
  {
    NextMidWithin(b.midLines, line, b.endLine);
  }

  lemma {:induction false} NextMidWithin(mids: seq<nat>, line: nat, end: nat)
    requires forall i :: 0 <= i < |mids| ==> mids[i] < end
    ensures NextMid(mids, line, end) <= end
    decreases |mids|
  {
    if |mids| > 0 && mids[0] != line {
      NextMidWithin(mids[1..], line, end);
    }
  }

  /** Moving the cursor within the program and changing counters keeps the state sound. */
  lemma Moved(m: Machine, blocks: map<nat, CodeBlock>, cursor: nat)
    requires Sound(m) && SameLayout(m.blocks, blocks) && cursor <= |m.code|
    ensures var r := m.(blocks := blocks, cursor := cursor); Sound(r) && Stays(m, r)
  {
    forall k | k in blocks
      ensures Placed(blocks[k], |m.code| - 1)
    {
      assert Layout(blocks[k]) == Layout(m.blocks[k]);
    }
  }

  /** The argument commands keep the state sound and the layout. */
  lemma BranchSound(m: Machine, number: nat, cmd: string, arg: real)
    requires Sound(m) && m.cursor < |m.code| && number in m.blocks
    ensures var r := Branch(m, number, m.blocks[number], cmd, arg);
      Sound(r) && Stays(m, r) && r.calls == m.calls
  {
    var b := m.blocks[number];
    PlacedTargets(b, |m.code| - 1, m.cursor);
    WithCounterLayout(m, number, BranchCounter(b, cmd, arg));
    Moved(m, WithCounter(m, number, b, BranchCounter(b, cmd, arg)), BranchTarget(b, cmd, arg, m.cursor));
  }

  /** A call keeps the state sound: the return line is at most one past the last line. */
  lemma CallSound(m: Machine, number: nat, args: seq<real>)
    requires Sound(m) && m.cursor < |m.code| && number in m.blocks
    ensures var r := Call(m, m.blocks[number], args, m.cursor + 1);
      r.Ok? ==> Sound(r.value) && Stays(m, r.value)
  {
    PlacedTargets(m.blocks[number], |m.code| - 1, m.cursor);
  }

  /** A return keeps the state sound: it goes to a saved return line. */
  lemma ReturnSound(m: Machine, args: seq<real>)
    requires Sound(m)
    ensures Return(m, args).Ok? ==> Sound(Return(m, args).value) && Stays(m, Return(m, args).value)
  {
    if m.calls != [] {
      assert m.calls[|m.calls| - 1].returnLine <= |m.code|;
    }
  }

  /** A command without argument keeps the state sound and the layout. */
  lemma BareSound(m: Machine, number: nat, cmd: string)
    requires Sound(m) && m.cursor < |m.code| && number in m.blocks
    ensures var b := m.blocks[number];
      var r := m.(blocks := WithCounter(m, number, b, BareCounter(b, cmd)), cursor := BareTarget(b, cmd, m.cursor));
      Sound(r) && Stays(m, r)
  {
    var b := m.blocks[number];
    PlacedTargets(b, |m.code| - 1, m.cursor);
    WithCounterLayout(m, number, BareCounter(b, cmd));
    Moved(m, WithCounter(m, number, b, BareCounter(b, cmd)), BareTarget(b, cmd, m.cursor));
  }

  /** A command with arguments keeps the state sound and the layout, whatever the arguments. */
  lemma ArgumentsSound(m: Machine, number: nat, cmd: string, rest: string, args: seq<real>)
    requires Sound(m) && m.cursor < |m.code| && number in m.blocks
    ensures var r := Arguments(m, number, cmd, rest, args); r.Ok? ==> Sound(r.value) && Stays(m, r.value)
  {
    if cmd == "call" {
      CallSound(m, number, args);
    } else if cmd == "return" || cmd == "endsub" {
      ReturnSound(m, args);
    } else if rest != [] && args != [] {
      BranchSound(m, number, cmd, args[0]);
    }
  }

  /** A control line keeps the state sound and the layout. */
  lemma ControlSound(ops: FloatOps, m: Machine, w: OWord)
    requires Sound(m) && m.cursor < |m.code|
    ensures var r := Control(ops, m, w); r.Ok? ==> Sound(r.value) && Stays(m, r.value)
  {
    if w.number in m.blocks {
      if Bare(w.command) {
        BareSound(m, w.number, w.command);
      } else {
        match CalcExprs(ops, m.store, SimplifyOperators(w.rest))
        case Err(_) =>
        case Ok((rest, s, args)) =>
          ArgumentsSound(m.(store := s), w.number, w.command, rest, args);
      }
    }
  }

  /** A new store and a cursor within the program keep the state sound. */
  lemma Relocated(m: Machine, s: Store, cursor: nat)
    requires Sound(m) && cursor <= |m.code|
    ensures var r := m.(store := s, cursor := cursor); Sound(r) && Stays(m, r)
  {
  }

  lemma ControlTurnSound(ops: FloatOps, m: Machine, box: Slots, w: OWord)
    requires Sound(m) && m.cursor < |m.code|
    ensures var r := ControlTurn(ops, m, box, w); r.Ok? ==> Sound(r.value.m) && Stays(m, r.value.m)
  {
    ControlSound(ops, m, w);
  }

  lemma EmitSound(ops: FloatOps, flags: Flags, m: Machine, box: Slots, line: string)
    requires Sound(m) && m.cursor < |m.code|
    ensures var r := Emit(ops, flags, m, box, line); r.Ok? ==> Sound(r.value.m) && Stays(m, r.value.m)
  {
    var res := Resolve(ops, m.store, line, STEP_PRECISION);
    if res.Ok? {
      Relocated(m, res.value.1, if EndsProgram(res.value.0) then |m.code| else m.cursor + 1);
    }
  }

  /** Looking at a line keeps the state sound and the layout. */
  lemma ActSound(ops: FloatOps, flags: Flags, m: Machine, box: Slots, line: string)
    requires Sound(m) && m.cursor < |m.code|
    ensures var r := Act(ops, flags, m, box, line); r.Ok? ==> Sound(r.value.m) && Stays(m, r.value.m)
  {
    if line == [] {
      Relocated(m, m.store, m.cursor + 1);
    } else {
      match ReadOword(line)
      case Err(_) =>
      case Ok(None) => EmitSound(ops, flags, m, box, line);
      case Ok(Some(w)) => ControlTurnSound(ops, m, box, w);
    }
  }

  lemma ExecuteSound(ops: FloatOps, flags: Flags, m: Machine, box: Slots)
    requires Sound(m) && m.cursor < |m.code|
    ensures var r := Execute(ops, flags, m, box); r.Ok? ==> Sound(r.value.m) && Stays(m, r.value.m)
  {
    match ProcessComments(Fresh(m.store), box, true, m.code[m.cursor])
    case Err(_) =>
    case Ok((stripped, box1, s1)) =>
      match PrepareLine(stripped, flags.blockDelete)
      case Err(_) =>
      case Ok(prepared) =>
        match RemoveNword(prepared)
        case Err(_) =>
        case Ok(line) =>
          Relocated(m, s1, m.cursor);
          ActSound(ops, flags, m.(store := s1), box1, line);
  }

  lemma CycleSound(ops: FloatOps, flags: Flags, m: Machine, box: Slots)
    requires Sound(m) && m.cursor < |m.code|
    ensures var r := Cycle(ops, flags, m, box); r.Ok? ==> Sound(r.value.m) && Stays(m, r.value.m)
  {
    if m.percentStart > 0 && (m.cursor == m.percentStart || m.cursor == m.percentStop || !m.percentActive) {
    } else {
      ExecuteSound(ops, flags, m, box);
    }
  }

  /** Stepping keeps the state sound: the program, its region and its block layout stay, the cursor stays in range. */
  lemma {:induction false} RunSound(ops: FloatOps, flags: Flags, m: Machine, box: Slots, fuel: nat)
    requires Sound(m)
    ensures var r := Run(ops, flags, m, box, fuel); r.Ok? ==> Sound(r.value.m) && Stays(m, r.value.m)
    decreases fuel
  {
    if m.cursor < |m.code| && fuel > 0 {
      var c := Cycle(ops, flags, m, box);
      CycleSound(ops, flags, m, box);
      if c.Ok? && c.value.Pass? {
        var m1 := c.value.m;
        assert Run(ops, flags, m, box, fuel) == Run(ops, flags, m1, c.value.box, fuel - 1);
        RunSound(ops, flags, m1, c.value.box, fuel - 1);
        var r := Run(ops, flags, m1, c.value.box, fuel - 1);
        if r.Ok? {
          StaysTrans(m, m1, r.value.m);
        }
      }
    }
  }

  lemma StaysTrans(a: Machine, b: Machine, c: Machine)
    requires Stays(a, b) && Stays(b, c)
    ensures Stays(a, c)
  {
  }

  // ------------------------------------------------------------------
  // Loading and rewinding
  // ------------------------------------------------------------------

  /**
   * A loaded program starts sound at line 1, with the `%` region not yet
   * entered, no saved frame, a zero local frame and every block counter
   * zero; the global parameters are those from before the load.
   */
  lemma LoadSound(m: Machine, text: string, blockDelete: bool)
    requires LoadProgram(m, text, blockDelete).Ok?
    ensures var r := LoadProgram(m, text, blockDelete).value;
      && Sound(r) && r.cursor == 1 && r.calls == [] && !r.percentActive
      && r.code == [PLACEHOLDER] + SplitLines(text)
      && r.store.globals == m.store.globals
      && (forall i :: 1 <= i <= TOTAL_LOCAL_PARAMETERS ==> Get(r.store, i) == 0.0)
      && (forall k :: k in r.blocks ==> r.blocks[k].runTimes == 0)
  {
    LoadWellFormed(text, blockDelete);
  }

  /** Rewinding twice is rewinding once, and a rewound sound state is sound with the same layout. */
  lemma RewindSound(m: Machine)
    requires Sound(m) && |m.code| >= 1
    ensures Rewind(Rewind(m)) == Rewind(m)
    ensures Sound(Rewind(m)) && Stays(m, Rewind(m))
  {
  }

  // ------------------------------------------------------------------
  // Calls and returns
  // ------------------------------------------------------------------

  /**
   * A call fails exactly when the block is not a sub or 1000 frames are
   * saved; otherwise the arguments are the first local parameters, the
   * later ones keep the caller's values, and the caller's frame is on top
   * of the stack.
   */
  lemma CallEnters(m: Machine, b: CodeBlock, args: seq<real>, next: nat)
    ensures var r := Call(m, b, args, next);
      && (r == Err(SubNotFound) <==> b.kind != Sub)
      && (r == Err(StackOverflow) <==> b.kind == Sub && |m.calls| >= MAX_STACK_LEVELS)
      && (r.Ok? ==>
          && r.value.cursor == b.startLine + 1
          && r.value.calls == m.calls + [Frame(next, m.store.locals)]
          && r.value.store.globals == m.store.globals
          && forall i :: 1 <= i <= TOTAL_LOCAL_PARAMETERS ==>
               Get(r.value.store, i) == if i <= |args| then args[i - 1] else Get(m.store, i))
  {
  }

  /**
   * A return undoes the call whose frame is on top of the stack, whatever
   * ran in between: execution goes on at the call's successor with the
   * caller's locals and stack, and `#5000` holds the returned value when
   * there is one; no other global changes.
   */
  lemma CallReturn(m: Machine, b: CodeBlock, args: seq<real>, next: nat, m2: Machine, results: seq<real>)
    requires Call(m, b, args, next).Ok?
    requires m2.calls == Call(m, b, args, next).value.calls
    ensures var r := Return(m2, results);
      && r.Ok? && r.value.cursor == next && r.value.calls == m.calls
      && r.value.store.locals == m.store.locals
      && (results != [] ==> Get(r.value.store, RETURN_VALUE_PARAMETER) == results[0])
      && forall k :: TOTAL_LOCAL_PARAMETERS < k <= TOTAL_PARAMETERS && (k != RETURN_VALUE_PARAMETER || results == []) ==>
           Get(r.value.store, k) == Get(m2.store, k)
  {
    var c := Call(m, b, args, next).value;
    assert c.calls[|c.calls| - 1] == Frame(next, m.store.locals);
    assert c.calls[..|c.calls| - 1] == m.calls;
  }

  // ------------------------------------------------------------------
  // Blocks
  // ------------------------------------------------------------------

  /** A false `elseif` on the `i`-th mid line of a block goes to the next mid line, or to the end after the last. */
  lemma {:induction false} NextMidFollows(mids: seq<nat>, i: nat, end: nat)
    requires Increasing(mids) && i < |mids|
    ensures NextMid(mids, mids[i], end) == if i + 1 < |mids| then mids[i + 1] else end
    decreases i
  {
    if i > 0 {
      assert mids[0] < mids[i];
      assert mids[1..][i - 1] == mids[i];
      NextMidFollows(mids[1..], i - 1, end);
    }
  }

  /**
   * How many times the `endrepeat` on `line` is reached before it falls
   * through, when the block's counter is what it holds now and the body
   * leaves it alone.
   */
  function EndRepeats(b: CodeBlock, line: nat): nat
    requires b.startLine < line
    decreases if b.runTimes > 0 then b.runTimes else 0
  {
    if BareTarget(b, "endrepeat", line) == line + 1 then 1
    else 1 + EndRepeats(b.(runTimes := BareCounter(b, "endrepeat")), line)
  }

  /**
   * `repeat [x]` runs its body `x` times truncated towards zero, and once
   * when that is below 1: the counter is checked after the body.
   */
  lemma {:induction false} RepeatRuns(b: CodeBlock, line: nat, x: real)
    requires b.startLine < line
    ensures var n := Trunc(x);
      EndRepeats(b.(runTimes := BranchCounter(b, "repeat", x)), line) == if n > 1 then n else 1
  {
    EndRepeatsCount(b.(runTimes := Trunc(x)), line);
  }

  lemma {:induction false} EndRepeatsCount(b: CodeBlock, line: nat)
    requires b.startLine < line
    ensures EndRepeats(b, line) == if b.runTimes > 1 then b.runTimes else 1
    decreases if b.runTimes > 0 then b.runTimes else 0
  {
    if b.runTimes > 1 {
      EndRepeatsCount(b.(runTimes := b.runTimes - 1), line);
    }
  }

  // ------------------------------------------------------------------
  // The `%` region
  // ------------------------------------------------------------------

  /**
   * Before the `%` region is entered, the lines up to its opening line are
   * skipped without being looked at, one unit of fuel each.
   */
  lemma {:induction false} SkipToPercent(ops: FloatOps, flags: Flags, m: Machine, box: Slots, fuel: nat)
    requires 0 < m.percentStart < m.percentStop && !m.percentActive
    requires m.cursor <= m.percentStart < |m.code| && m.percentStart - m.cursor <= fuel
    ensures Run(ops, flags, m, box, fuel)
         == Run(ops, flags, m.(cursor := m.percentStart), box, fuel - (m.percentStart - m.cursor))
    decreases m.percentStart - m.cursor
  {
    if m.cursor < m.percentStart {
      var m1 := m.(cursor := m.cursor + 1);
      assert Run(ops, flags, m, box, fuel) == Run(ops, flags, m1, box, fuel - 1);
      SkipToPercent(ops, flags, m1, box, fuel - 1);
      assert m1.(cursor := m.percentStart) == m.(cursor := m.percentStart);
    }
  }

  /** Reaching the closing `%` line ends the program. */
  lemma PercentStopEnds(ops: FloatOps, flags: Flags, m: Machine, box: Slots, fuel: nat)
    requires 0 < m.percentStart < m.percentStop == m.cursor < |m.code| && fuel > 0
    ensures var r := Run(ops, flags, m, box, fuel);
      r.Ok? && r.value.outcome == Finished && r.value.m.cursor == |m.code| && r.value.m.store == m.store
  {
    var m1 := m.(cursor := |m.code|);
    assert Run(ops, flags, m, box, fuel) == Run(ops, flags, m1, box, fuel - 1);
  }

  // ------------------------------------------------------------------
  // What a step reports
  // ------------------------------------------------------------------

  /** A passing turn leaves no message behind; a yielding one has text or a message. */
  predicate Honest(t: Turn) {
    && (t.Pass? ==> !Pending(t.box))
    && (t.Yield? ==> t.line != [] || Pending(t.box))
  }

  lemma ActHonest(ops: FloatOps, flags: Flags, m: Machine, box: Slots, line: string)
    ensures var r := Act(ops, flags, m, box, line); r.Ok? ==> Honest(r.value)
  {
  }

  lemma CycleHonest(ops: FloatOps, flags: Flags, m: Machine, box: Slots)
    requires m.cursor < |m.code| && !Pending(box)
    ensures var r := Cycle(ops, flags, m, box); r.Ok? ==> Honest(r.value)
  {
    if !(m.percentStart > 0 && (m.cursor == m.percentStart || m.cursor == m.percentStop || !m.percentActive)) {
      match ProcessComments(Fresh(m.store), box, true, m.code[m.cursor])
      case Err(_) =>
      case Ok((stripped, box1, s1)) =>
        match PrepareLine(stripped, flags.blockDelete)
        case Err(_) =>
        case Ok(prepared) =>
          match RemoveNword(prepared)
          case Err(_) =>
          case Ok(line) =>
            ActHonest(ops, flags, m.(store := s1), box1, line);
    }
  }

  /**
   * What the stepping loop reports: a produced line has text or comes with
   * a message; otherwise no message is pending, and the program is over
   * when it says so and not when it ran out of fuel.
   */
  lemma {:induction false} RunReports(ops: FloatOps, flags: Flags, m: Machine, box: Slots, fuel: nat)
    requires !Pending(box)
    ensures Run(ops, flags, m, box, fuel).Ok? ==> Reported(Run(ops, flags, m, box, fuel).value)
    decreases fuel
  {
    if m.cursor < |m.code| && fuel > 0 {
      var c := Cycle(ops, flags, m, box);
      CycleHonest(ops, flags, m, box);
      if c.Ok? {
        assert Run(ops, flags, m, box, fuel) == Continue(ops, flags, c.value, fuel - 1);
        match c.value
        case Yield(_, _, _) =>
        case Pass(m1, box1) =>
          RunReports(ops, flags, m1, box1, fuel - 1);
      }
    }
  }

  /**
   * A stop as the stepping loop reports it: a produced line has text or
   * comes with a message; otherwise no message is pending, and the program
   * is over exactly when the cursor is past the last line.
   */
  predicate Reported(t: Stop) {
    && (t.outcome.Produced? ==> t.outcome.line != [] || Pending(t.box))
    && (!t.outcome.Produced? ==> !Pending(t.box))
    && (t.outcome.Finished? <==> !t.outcome.Produced? && t.m.cursor >= |t.m.code|)
  }

  /** `Step` returns false (finished, or out of fuel) only with the mailbox empty. */
  lemma StepReports(ops: FloatOps, flags: Flags, m: Machine, fuel: nat)
    ensures var r := Step(ops, flags, m, fuel); r.Ok? ==>
      && (r.value.outcome.Produced? ==> r.value.outcome.line != [] || Pending(r.value.box))
      && (!r.value.outcome.Produced? ==> forall t :: 0 <= t < TOTAL_TYPES ==> r.value.box[t] == "")
  {
    RunReports(ops, flags, m, EmptySlots(), fuel);
  }

  /** `Step` keeps the state sound and the layout. */
  lemma StepSound(ops: FloatOps, flags: Flags, m: Machine, fuel: nat)
    requires Sound(m)
    ensures var r := Step(ops, flags, m, fuel); r.Ok? ==> Sound(r.value.m) && Stays(m, r.value.m)
  {
    RunSound(ops, flags, m, EmptySlots(), fuel);
  }

  /**
   * An ordinary line whose text starts with `m2` or `m30` yields its text
   * and moves the cursor past the last line, so that every later step
   * finishes at once with an empty mailbox and the state unchanged.
   */
  lemma EndsAfterM2(ops: FloatOps, flags: Flags, m: Machine, box: Slots, line: string, fuel: nat)
    requires Emit(ops, flags, m, box, line).Ok?
    requires EndsProgram(Resolve(ops, m.store, line, STEP_PRECISION).value.0)
    ensures var t := Emit(ops, flags, m, box, line).value;
      && t.Yield? && t.m.cursor == |m.code|
      && Step(ops, flags, t.m, fuel) == Ok(Stop(Finished, t.m, EmptySlots()))
  {
  }
}
