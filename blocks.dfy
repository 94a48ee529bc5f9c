/**
 * The block resolver: one pass over the program text that records the `%`
 * region and builds the table of O-word control blocks (where each block
 * starts, its elseif/else lines and the first line after it), rejecting
 * malformed structure.
 *
 * Line numbers start at 1; `code[0]` is a placeholder so that `code[n]` is
 * source line `n`.
 */
module Blocks {
  import opened Errors
  import opened Text
  import opened Normaliser

  datatype Kind = Undef | Sub | If | Do | While | Repeat

  /**
   * A control block: its kind, the line of its opening command, its
   * elseif/else lines, the first line after its closing command (0 while
   * it is open) and the counter the stepper keeps for it.
   */
  datatype CodeBlock = CodeBlock(kind: Kind, startLine: nat, midLines: seq<nat>, endLine: nat, runTimes: int)

  /** What `code[0]` holds. */
  const PLACEHOLDER: string := "you should not access line 0"

  // ------------------------------------------------------------------
  // Lines
  // ------------------------------------------------------------------

  /**
   * The lines `getline` reads from the text: the pieces between '\n'
   * characters, where a final '\n' does not start another (empty) line.
   */
  function SplitLines(text: string): (lines: seq<string>)
    ensures forall i, k :: 0 <= i < |lines| && 0 <= k < |lines[i]| ==> lines[i][k] != '\n'
    ensures |text| == 0 <==> |lines| == 0
    decreases |text|
  {
    if |text| == 0 then []
    else
      match FindFirstOf(text, {'\n'}, 0)
      case None => [text]
      case Some(i) => [text[..i]] + SplitLines(text[i + 1..])
  }

  /** The text of `lines`, each followed by '\n'. */
  function JoinLines(lines: seq<string>): string {
    if |lines| == 0 then [] else lines[0] + "\n" + JoinLines(lines[1..])
  }

  /** Lines without '\n', written out one per line, are read back as they were. */
  lemma {:induction false} SplitJoin(lines: seq<string>)
    requires forall i, k :: 0 <= i < |lines| && 0 <= k < |lines[i]| ==> lines[i][k] != '\n'
    ensures SplitLines(JoinLines(lines)) == lines
    decreases |lines|
  {
    if |lines| > 0 {
      var text := JoinLines(lines);
      var first := lines[0];
      assert text == first + "\n" + JoinLines(lines[1..]);
      assert text[|first|] == '\n';
      assert forall j :: 0 <= j < |first| ==> text[j] == first[j];
      assert FindFirstOf(text, {'\n'}, 0) == Some(|first|);
      assert text[..|first|] == first;
      assert text[|first| + 1..] == JoinLines(lines[1..]);
      SplitJoin(lines[1..]);
    }
  }

  lemma JoinCons(first: string, lines: seq<string>)
    ensures JoinLines([first] + lines) == first + "\n" + JoinLines(lines)
  {
    assert ([first] + lines)[1..] == lines;
  }

  /** Reading the lines and writing them back gives the text, with a final '\n' added when it had none. */
  lemma {:induction false} JoinSplit(text: string)
    ensures JoinLines(SplitLines(text)) ==
      if |text| == 0 || text[|text| - 1] == '\n' then text else text + "\n"
    decreases |text|
  {
    if |text| > 0 {
      match FindFirstOf(text, {'\n'}, 0)
      case None =>
        assert text[|text| - 1] != '\n';
        JoinCons(text, []);
      case Some(i) =>
        var rest := text[i + 1..];
        JoinSplit(rest);
        JoinCons(text[..i], SplitLines(rest));
        assert text == text[..i] + "\n" + rest;
        if |rest| == 0 {
          assert text[|text| - 1] == '\n';
        } else {
          assert text[|text| - 1] == rest[|rest| - 1];
        }
    }
  }

  // ------------------------------------------------------------------
  // Commands
  // ------------------------------------------------------------------

  /** The kind of block an opening command starts. */
  function OpeningKind(cmd: string): (k: Option<Kind>)
    ensures k.Some? ==> k.value != Undef
  {
    if cmd == "sub" then Some(Sub)
    else if cmd == "if" then Some(If)
    else if cmd == "do" then Some(Do)
    else if cmd == "while" then Some(While)
    else if cmd == "repeat" then Some(Repeat)
    else None
  }

  /** Keywords that continue or close a block. */
  predicate Continuation(cmd: string) {
    cmd in {"endsub", "return", "elseif", "else", "endif", "break", "continue", "endwhile", "endrepeat"}
  }

  /** Opening commands on a number already in use; only `while` may follow a `do`. */
  predicate Reopening(cmd: string, kind: Kind) {
    cmd in {"sub", "if", "do", "repeat"} || (cmd == "while" && kind != Do)
  }

  /** A command that belongs to a block of another kind. */
  predicate Misfit(cmd: string, kind: Kind) {
    || (cmd in {"return", "endsub"} && kind != Sub)
    || (cmd in {"elseif", "else", "endif"} && kind != If)
    || (cmd == "while" && kind != Do)
    || (cmd == "endwhile" && kind != While)
    || (cmd in {"break", "continue"} && kind != Do && kind != While)
    || (cmd == "endrepeat" && kind != Repeat)
  }

  /** Commands that close their block. */
  predicate Closes(cmd: string) {
    cmd in {"endsub", "endif", "while", "endwhile", "endrepeat"}
  }

  /** The keyword that opens a block of each kind. */
  function Opening(k: Kind): string {
    match k
    case Undef => ""
    case Sub => "sub"
    case If => "if"
    case Do => "do"
    case While => "while"
    case Repeat => "repeat"
  }

  /** The keyword that closes a block of each kind; a `do` block is closed by its `while`. */
  function Closing(k: Kind): string {
    match k
    case Undef => ""
    case Sub => "endsub"
    case If => "endif"
    case Do => "while"
    case While => "endwhile"
    case Repeat => "endrepeat"
  }

  /** The keywords of a block's middle lines. */
  const MIDS: set<string> := {"elseif", "else"}

  /** An opening command is the opening keyword of the kind it starts. */
  lemma OpeningNames(cmd: string)
    requires OpeningKind(cmd).Some?
    ensures cmd == Opening(OpeningKind(cmd).value)
  {
  }

  /** A closing command that fits its block is the closing keyword of the block's kind. */
  lemma ClosingNames(cmd: string, kind: Kind)
    requires Closes(cmd) && !Misfit(cmd, kind) && !Reopening(cmd, kind)
    ensures cmd == Closing(kind)
  {
  }

  /**
   * `b'` is the block `b` after its command `cmd` on line `n`: the same kind,
   * start and counter; `n` added to the mid lines exactly for elseif/else;
   * the end set one past `n` exactly for a closing keyword.
   */
  predicate Advanced(b: CodeBlock, b': CodeBlock, n: nat, cmd: string) {
    && b'.kind == b.kind && b'.startLine == b.startLine && b'.runTimes == b.runTimes
    && b'.midLines == (if cmd in MIDS then b.midLines + [n] else b.midLines)
    && b'.endLine == (if Closes(cmd) then n + 1 else b.endLine)
  }

  /**
   * The effect of the command `cmd` of block `number` on line `n` on the
   * block table.
   */
  function LoadCommand(blocks: map<nat, CodeBlock>, n: nat, number: nat, cmd: string): (r: Result<map<nat, CodeBlock>>)
    ensures cmd == "call" ==> r == Ok(blocks)
    ensures cmd != "call" && number !in blocks ==> (r.Ok? <==> OpeningKind(cmd).Some?)
    ensures cmd != "call" && number !in blocks && OpeningKind(cmd).None? ==>
      r == Err(if Continuation(cmd) then UnexpectedOcode else UnrecognisedOcode)
    ensures cmd != "call" && number in blocks && blocks[number].endLine != 0 ==> r == Err(BlockAlreadyFinished)
    ensures cmd != "call" && number in blocks && r.Ok? ==>
      !Reopening(cmd, blocks[number].kind) && !Misfit(cmd, blocks[number].kind)
    ensures cmd != "call" && number !in blocks && r.Ok? ==>
      number in r.value && r.value[number] == CodeBlock(OpeningKind(cmd).value, n, [], 0, 0)
    ensures cmd != "call" && number in blocks && r.Ok? ==> number in r.value && Advanced(blocks[number], r.value[number], n, cmd)
    ensures r.Ok? ==> r.value.Keys == blocks.Keys + {number} || r.value == blocks
    ensures r.Ok? ==> forall m :: m in blocks && m != number ==> m in r.value && r.value[m] == blocks[m]
  {
    if cmd == "call" then Ok(blocks)
    else if number !in blocks then
      match OpeningKind(cmd)
      case None => Err(if Continuation(cmd) then UnexpectedOcode else UnrecognisedOcode)
      case Some(kind) => Ok(blocks[number := CodeBlock(kind, n, [], 0, 0)])
    else
      var b := blocks[number];
      if b.endLine != 0 then Err(BlockAlreadyFinished)
      else if Reopening(cmd, b.kind) then Err(ONumberAlreadyUsed)
      else if Misfit(cmd, b.kind) then Err(UnexpectedBlockCommand)
      else
        var b1 := if cmd == "elseif" || cmd == "else" then b.(midLines := b.midLines + [n]) else b;
        var b2 := if Closes(cmd) then b1.(endLine := n + 1) else b1;
        Ok(blocks[number := b2])
  }

  // ------------------------------------------------------------------
  // The pass over the lines
  // ------------------------------------------------------------------

  /** The block table and the `%` region lines found so far (0 when not found). */
  datatype Table = Table(blocks: map<nat, CodeBlock>, percentStart: nat, percentStop: nat)

  /** What a source line is once comments, whitespace, case and the N-word are dealt with. */
  function Normalise(raw: string, blockDelete: bool): (r: Result<string>) {
    var stripped :- StripComments(raw);
    var prepared :- PrepareLine(stripped, blockDelete);
    RemoveNword(prepared)
  }

  /** The O-word of a source line, if it has one, once the line is normalised. */
  function LineCommand(raw: string, blockDelete: bool): (r: Result<Option<OWord>>) {
    var line :- Normalise(raw, blockDelete);
    if |line| == 0 then Ok(None) else ReadOword(line)
  }

  /** Line `n` of the program during loading. */
  function LoadLine(t: Table, n: nat, raw: string, blockDelete: bool): (r: Result<Table>)
    ensures |raw| > 0 && raw[0] == '%' ==>
      r == if t.percentStart == 0 then Ok(t.(percentStart := n))
           else if t.percentStop == 0 then Ok(t.(percentStop := n))
           else Err(TooManyPercents)
    ensures r.Ok? && (|raw| == 0 || raw[0] != '%') ==>
      r.value.percentStart == t.percentStart && r.value.percentStop == t.percentStop
  {
    if |raw| > 0 && raw[0] == '%' then
      if t.percentStart == 0 then Ok(t.(percentStart := n))
      else if t.percentStop == 0 then Ok(t.(percentStop := n))
      else Err(TooManyPercents)
    else
      var word :- LineCommand(raw, blockDelete);
      match word
      case None => Ok(t)
      case Some(w) =>
        var blocks :- LoadCommand(t.blocks, n, w.number, w.command);
        Ok(t.(blocks := blocks))
  }

  /** Loading lines `i + 1` .. `|lines|` into `t`. */
  function LoadFrom(t: Table, lines: seq<string>, i: nat, blockDelete: bool): (r: Result<Table>)
    requires i <= |lines|
    decreases |lines| - i
  {
    if i == |lines| then Ok(t)
    else
      var t' :- LoadLine(t, i + 1, lines[i], blockDelete);
      LoadFrom(t', lines, i + 1, blockDelete)
  }

  /** Some block has no closing command. */
  predicate Unfinished(blocks: map<nat, CodeBlock>) {
    exists m :: m in blocks && blocks[m].endLine == 0
  }

  /** A loaded program: its lines (with the placeholder first) and its table. */
  datatype Loaded = Loaded(code: seq<string>, table: Table)

  /** `Program::Load` on the text, up to the final `Rewind`. */
  function Load(text: string, blockDelete: bool): (r: Result<Loaded>)
    ensures r.Ok? ==> r.value.code == [PLACEHOLDER] + SplitLines(text)
  {
    var lines := SplitLines(text);
    var t :- LoadFrom(Table(map[], 0, 0), lines, 0, blockDelete);
    if t.percentStart > 0 && t.percentStop <= t.percentStart then Err(NoClosingPercent)
    else if Unfinished(t.blocks) then Err(BlockWithoutEnd)
    else Ok(Loaded([PLACEHOLDER] + lines, t))
  }

  // ------------------------------------------------------------------
  // What a successful load guarantees
  // ------------------------------------------------------------------

  predicate Increasing(s: seq<nat>) {
    forall i, j :: 0 <= i < j < |s| ==> s[i] < s[j]
  }

  /**
   * A block as the table holds it after line `upto` has been read: a real
   * kind, its lines in order within `1..upto`, and once closed its mid lines
   * strictly before the closing line.
   */
  predicate Recorded(b: CodeBlock, upto: nat) {
    && b.kind != Undef
    && 1 <= b.startLine <= upto
    && Increasing(b.midLines)
    && (forall i :: 0 <= i < |b.midLines| ==> b.startLine < b.midLines[i] <= upto)
    && (b.endLine != 0 ==>
          && b.startLine + 1 < b.endLine <= upto + 1
          && forall i :: 0 <= i < |b.midLines| ==> b.midLines[i] < b.endLine - 1)
    && b.runTimes == 0
  }

  /** The table after line `upto`: every block recorded, the `%` lines in order. */
  predicate Building(t: Table, upto: nat) {
    && (forall m :: m in t.blocks ==> Recorded(t.blocks[m], upto))
    && t.percentStart <= upto
    && (t.percentStop != 0 ==> 0 < t.percentStart < t.percentStop <= upto)
  }

  /**
   * Where a closed block lies within a program of `size` lines: a real
   * kind, its closing line (the end line minus one) after its start, its
   * elseif/else lines in order strictly between the two. That these lines
   * carry the block's commands is `Traced`.
   */
  predicate Placed(b: CodeBlock, size: nat) {
    && b.kind != Undef
    && 1 <= b.startLine && b.startLine + 2 <= b.endLine <= size + 1
    && Increasing(b.midLines)
    && (forall i :: 0 <= i < |b.midLines| ==> b.startLine < b.midLines[i] < b.endLine - 1)
  }

  /** A finished block as loading leaves it: placed, with its counter at zero. */
  predicate Finished(b: CodeBlock, size: nat) {
    Placed(b, size) && b.runTimes == 0
  }

  /** A command keeps every block recorded, now up to its own line. */
  lemma LoadCommandRecords(blocks: map<nat, CodeBlock>, n: nat, number: nat, cmd: string)
    requires n >= 1 && forall m :: m in blocks ==> Recorded(blocks[m], n - 1)
    ensures LoadCommand(blocks, n, number, cmd).Ok? ==>
      forall m :: m in LoadCommand(blocks, n, number, cmd).value ==> Recorded(LoadCommand(blocks, n, number, cmd).value[m], n)
  {
    var r := LoadCommand(blocks, n, number, cmd);
    if r.Ok? {
      forall m | m in r.value
        ensures Recorded(r.value[m], n)
      {
        if m != number {
          assert Recorded(blocks[m], n - 1);
        } else if number in blocks && cmd != "call" {
          var b := blocks[number];
          assert Recorded(b, n - 1);
          var b1 := if cmd == "elseif" || cmd == "else" then b.(midLines := b.midLines + [n]) else b;
          assert Recorded(b1, n);
        } else if number in blocks {
          assert Recorded(blocks[m], n - 1);
        }
      }
    }
  }

  /** The O-word a source line contributes to the block table: none for a `%` line. */
  function WordOf(raw: string, blockDelete: bool): Option<OWord> {
    if |raw| > 0 && raw[0] == '%' then None
    else match LineCommand(raw, blockDelete)
      case Ok(Some(w)) => Some(w)
      case _ => None
  }

  /** `w` is a command of block `number` with one of the keywords `cmds`. */
  predicate Names(w: Option<OWord>, number: nat, cmds: set<string>) {
    w.Some? && w.value.number == number && w.value.command in cmds
  }

  /**
   * Line `i` of `words` (counting from 1) is a command of block `number`
   * with one of the keywords `cmds`.
   */
  predicate CommandAt(words: seq<Option<OWord>>, i: nat, number: nat, cmds: set<string>) {
    1 <= i <= |words| && Names(words[i - 1], number, cmds)
  }

  /** Each block starts on a line that opens it with its kind. */
  predicate StartsTraced(blocks: map<nat, CodeBlock>, words: seq<Option<OWord>>) {
    forall m :: m in blocks ==> CommandAt(words, blocks[m].startLine, m, {Opening(blocks[m].kind)})
  }

  /** Each closed block ends just past a line that closes it with its kind's keyword. */
  predicate EndsTraced(blocks: map<nat, CodeBlock>, words: seq<Option<OWord>>) {
    forall m :: m in blocks && blocks[m].endLine != 0 ==>
      CommandAt(words, blocks[m].endLine - 1, m, {Closing(blocks[m].kind)})
  }

  /** Each mid line of a block is an elseif/else of that block. */
  predicate MidsTraced(blocks: map<nat, CodeBlock>, words: seq<Option<OWord>>) {
    forall m, k :: m in blocks && 0 <= k < |blocks[m].midLines| ==>
      CommandAt(words, blocks[m].midLines[k], m, MIDS)
  }

  /** Every elseif/else up to line `upto` is a mid line of its block. */
  ghost predicate MidsComplete(blocks: map<nat, CodeBlock>, words: seq<Option<OWord>>, upto: nat) {
    forall m, i :: 1 <= i <= upto && CommandAt(words, i, m, MIDS) ==> m in blocks && i in blocks[m].midLines
  }

  /** The table after line `upto` agrees with the lines' O-words. */
  ghost predicate Traced(t: Table, words: seq<Option<OWord>>, upto: nat) {
    && StartsTraced(t.blocks, words)
    && EndsTraced(t.blocks, words)
    && MidsTraced(t.blocks, words)
    && MidsComplete(t.blocks, words, upto)
  }

  /** A line without an O-word keeps the table traced. */
  lemma SkipTraces(t: Table, words: seq<Option<OWord>>, i: nat)
    requires i < |words| && words[i].None? && Traced(t, words, i)
    ensures Traced(t, words, i + 1)
  {
    forall m, j | 1 <= j <= i + 1 && CommandAt(words, j, m, MIDS)
      ensures m in t.blocks && j in t.blocks[m].midLines
    {
      assert j != i + 1;
    }
  }

  lemma StartsStep(blocks: map<nat, CodeBlock>, words: seq<Option<OWord>>, i: nat, w: OWord)
    requires i < |words| && words[i] == Some(w) && StartsTraced(blocks, words)
    ensures LoadCommand(blocks, i + 1, w.number, w.command).Ok? ==>
      StartsTraced(LoadCommand(blocks, i + 1, w.number, w.command).value, words)
  {
    var r := LoadCommand(blocks, i + 1, w.number, w.command);
    if r.Ok? {
      forall m | m in r.value
        ensures CommandAt(words, r.value[m].startLine, m, {Opening(r.value[m].kind)})
      {
        if m == w.number && w.number !in blocks {
          OpeningNames(w.command);
        }
      }
    }
  }

  lemma EndsStep(blocks: map<nat, CodeBlock>, words: seq<Option<OWord>>, i: nat, w: OWord)
    requires i < |words| && words[i] == Some(w) && EndsTraced(blocks, words)
    ensures LoadCommand(blocks, i + 1, w.number, w.command).Ok? ==>
      EndsTraced(LoadCommand(blocks, i + 1, w.number, w.command).value, words)
  {
    var r := LoadCommand(blocks, i + 1, w.number, w.command);
    if r.Ok? {
      forall m | m in r.value && r.value[m].endLine != 0
        ensures CommandAt(words, r.value[m].endLine - 1, m, {Closing(r.value[m].kind)})
      {
        if m == w.number && w.number in blocks && w.command != "call" && Closes(w.command) {
          ClosingNames(w.command, blocks[m].kind);
        }
      }
    }
  }

  lemma MidsStep(blocks: map<nat, CodeBlock>, words: seq<Option<OWord>>, i: nat, w: OWord)
    requires i < |words| && words[i] == Some(w) && MidsTraced(blocks, words)
    ensures LoadCommand(blocks, i + 1, w.number, w.command).Ok? ==>
      MidsTraced(LoadCommand(blocks, i + 1, w.number, w.command).value, words)
  {
    var r := LoadCommand(blocks, i + 1, w.number, w.command);
    if r.Ok? {
      forall m, k | m in r.value && 0 <= k < |r.value[m].midLines|
        ensures CommandAt(words, r.value[m].midLines[k], m, MIDS)
      {
        if m == w.number && m in blocks && w.command != "call" {
          if k == |blocks[m].midLines| {
            assert r.value[m].midLines[k] == i + 1;
          } else {
            assert r.value[m].midLines[k] == blocks[m].midLines[k];
          }
        }
      }
    }
  }

  lemma CompleteStep(blocks: map<nat, CodeBlock>, words: seq<Option<OWord>>, i: nat, w: OWord)
    requires i < |words| && words[i] == Some(w) && MidsComplete(blocks, words, i)
    ensures LoadCommand(blocks, i + 1, w.number, w.command).Ok? ==>
      MidsComplete(LoadCommand(blocks, i + 1, w.number, w.command).value, words, i + 1)
  {
    var r := LoadCommand(blocks, i + 1, w.number, w.command);
    if r.Ok? {
      forall m, j | 1 <= j <= i + 1 && CommandAt(words, j, m, MIDS)
        ensures m in r.value && j in r.value[m].midLines
      {
        if j == i + 1 {
          assert m == w.number && w.command in MIDS;
          assert r.value[m].midLines[|r.value[m].midLines| - 1] == i + 1;
        } else if m == w.number && w.command != "call" {
          var k :| 0 <= k < |blocks[m].midLines| && blocks[m].midLines[k] == j;
          assert r.value[m].midLines[k] == j;
        }
      }
    }
  }

  /** The command on line `i + 1` keeps the table traced. */
  lemma LoadCommandTraces(t: Table, words: seq<Option<OWord>>, i: nat, w: OWord)
    requires i < |words| && words[i] == Some(w) && Traced(t, words, i)
    ensures LoadCommand(t.blocks, i + 1, w.number, w.command).Ok? ==>
      Traced(t.(blocks := LoadCommand(t.blocks, i + 1, w.number, w.command).value), words, i + 1)
  {
    StartsStep(t.blocks, words, i, w);
    EndsStep(t.blocks, words, i, w);
    MidsStep(t.blocks, words, i, w);
    CompleteStep(t.blocks, words, i, w);
  }

  /** One more line keeps the table in shape. */
  lemma LoadLineShapes(t: Table, n: nat, raw: string, blockDelete: bool)
    requires n >= 1 && Building(t, n - 1)
    ensures LoadLine(t, n, raw, blockDelete).Ok? ==> Building(LoadLine(t, n, raw, blockDelete).value, n)
  {
    if !(|raw| > 0 && raw[0] == '%') {
      match LineCommand(raw, blockDelete)
      case Err(_) =>
      case Ok(None) =>
      case Ok(Some(w)) =>
        LoadCommandRecords(t.blocks, n, w.number, w.command);
    }
  }

  /** One more line keeps the table traced to the lines' O-words. */
  lemma LoadLineTraces(t: Table, words: seq<Option<OWord>>, i: nat, raw: string, blockDelete: bool)
    requires i < |words| && words[i] == WordOf(raw, blockDelete) && Traced(t, words, i)
    ensures LoadLine(t, i + 1, raw, blockDelete).Ok? ==> Traced(LoadLine(t, i + 1, raw, blockDelete).value, words, i + 1)
  {
    var r := LoadLine(t, i + 1, raw, blockDelete);
    if r.Ok? {
      if |raw| > 0 && raw[0] == '%' {
        SkipTraces(t, words, i);
        assert r.value.blocks == t.blocks;
      } else {
        match LineCommand(raw, blockDelete)
        case Ok(None) =>
          SkipTraces(t, words, i);
        case Ok(Some(w)) =>
          LoadCommandTraces(t, words, i, w);
      }
    }
  }

  /** Line `i + 1` keeps the table in shape and traced to the lines' O-words. */
  lemma LoadLineBuilds(t: Table, lines: seq<string>, words: seq<Option<OWord>>, i: nat, blockDelete: bool)
    requires i < |lines| == |words| && words[i] == WordOf(lines[i], blockDelete)
    requires Building(t, i) && Traced(t, words, i)
    ensures LoadLine(t, i + 1, lines[i], blockDelete).Ok? ==>
      && Building(LoadLine(t, i + 1, lines[i], blockDelete).value, i + 1)
      && Traced(LoadLine(t, i + 1, lines[i], blockDelete).value, words, i + 1)
  {
    LoadLineShapes(t, i + 1, lines[i], blockDelete);
    LoadLineTraces(t, words, i, lines[i], blockDelete);
  }

  lemma {:induction false} LoadFromBuilds(t: Table, lines: seq<string>, words: seq<Option<OWord>>, i: nat, blockDelete: bool)
    requires i <= |lines| && words == Words(lines, blockDelete)
    requires Building(t, i) && Traced(t, words, i)
    ensures LoadFrom(t, lines, i, blockDelete).Ok? ==>
      && Building(LoadFrom(t, lines, i, blockDelete).value, |lines|)
      && Traced(LoadFrom(t, lines, i, blockDelete).value, words, |lines|)
    decreases |lines| - i
  {
    if i < |lines| {
      var step := LoadLine(t, i + 1, lines[i], blockDelete);
      if step.Ok? {
        WordsAt(lines, blockDelete, i);
        LoadLineBuilds(t, lines, words, i, blockDelete);
        LoadFromBuilds(step.value, lines, words, i + 1, blockDelete);
        assert LoadFrom(t, lines, i, blockDelete) == LoadFrom(step.value, lines, i + 1, blockDelete);
      }
    }
  }

  /** The O-word of each source line, in order. */
  function Words(lines: seq<string>, blockDelete: bool): (words: seq<Option<OWord>>)
    ensures |words| == |lines|
  {
    if lines == [] then [] else [WordOf(lines[0], blockDelete)] + Words(lines[1..], blockDelete)
  }

  lemma {:induction false} WordsAt(lines: seq<string>, blockDelete: bool, k: nat)
    requires k < |lines|
    ensures Words(lines, blockDelete)[k] == WordOf(lines[k], blockDelete)
  {
    if k > 0 {
      WordsAt(lines[1..], blockDelete, k - 1);
    }
  }

  /**
   * After a successful load every block is finished: its closing line is
   * after its start and its end line is one past the closing line, and its
   * elseif/else lines are in increasing order strictly inside it. A `%`
   * region, when there is one, has its closing line after its opening one.
   */
  lemma LoadWellFormed(text: string, blockDelete: bool)
    requires Load(text, blockDelete).Ok?
    ensures var l := Load(text, blockDelete).value;
      && |l.code| == |SplitLines(text)| + 1
      && l.code[0] == PLACEHOLDER
      && (forall i :: 1 <= i < |l.code| ==> l.code[i] == SplitLines(text)[i - 1])
      && (forall m :: m in l.table.blocks ==> Finished(l.table.blocks[m], |l.code| - 1))
      && (l.table.percentStart > 0 ==> l.table.percentStart < l.table.percentStop < |l.code|)
      && (l.table.percentStart == 0 ==> l.table.percentStop == 0)
  {
    var lines := SplitLines(text);
    var t := LoadFrom(Table(map[], 0, 0), lines, 0, blockDelete).value;
    assert Load(text, blockDelete).value == Loaded([PLACEHOLDER] + lines, t);
    LoadFromBuilds(Table(map[], 0, 0), lines, Words(lines, blockDelete), 0, blockDelete);
    assert !Unfinished(t.blocks);
    forall m | m in t.blocks
      ensures Finished(t.blocks[m], |lines|)
    {
      assert Recorded(t.blocks[m], |lines|);
      assert t.blocks[m].endLine != 0;
    }
  }

  /**
   * After a successful load every block is tied to its lines: block `m`
   * starts on a line that opens `m` with the block's kind, its end line is
   * one past a line that closes `m` with the kind's closing keyword, and a
   * line is among its mid lines exactly when it is an elseif/else of `m`.
   */
  lemma LoadTraced(text: string, blockDelete: bool)
    requires Load(text, blockDelete).Ok?
    ensures var words := Words(SplitLines(text), blockDelete);
      var blocks := Load(text, blockDelete).value.table.blocks;
      && (forall m :: m in blocks ==>
            && CommandAt(words, blocks[m].startLine, m, {Opening(blocks[m].kind)})
            && CommandAt(words, blocks[m].endLine - 1, m, {Closing(blocks[m].kind)}))
      && (forall m, i :: m in blocks ==>
            (i in blocks[m].midLines <==> CommandAt(words, i, m, MIDS)))
  {
    var lines := SplitLines(text);
    var words := Words(lines, blockDelete);
    var t := LoadFrom(Table(map[], 0, 0), lines, 0, blockDelete).value;
    assert Load(text, blockDelete).value.table == t;
    LoadFromBuilds(Table(map[], 0, 0), lines, words, 0, blockDelete);
    assert !Unfinished(t.blocks);
    forall m | m in t.blocks
      ensures && CommandAt(words, t.blocks[m].startLine, m, {Opening(t.blocks[m].kind)})
              && CommandAt(words, t.blocks[m].endLine - 1, m, {Closing(t.blocks[m].kind)})
    {
      assert t.blocks[m].endLine != 0;
    }
    forall m, i | m in t.blocks
      ensures i in t.blocks[m].midLines <==> CommandAt(words, i, m, MIDS)
    {
      if i in t.blocks[m].midLines {
        var k :| 0 <= k < |t.blocks[m].midLines| && t.blocks[m].midLines[k] == i;
      }
    }
  }
}
