/**
 * The interpreter object, `Program`: the parameter arrays, the call
 * stacks, the loaded program with its block table and the switches, and
 * the public operations and the line pipeline as methods that update them
 * in place.
 *
 * Each method is tied to the value-level definition of what it does (the
 * functions of the other modules) through the abstraction functions
 * `Params()` (the parameter store) and `State()` (the stepper's state);
 * the properties proved about those functions carry over.
 */
module Interpreter {
  import opened Errors
  import opened Text
  import opened Numerals
  import opened Parameters
  import opened Extra
  import opened Normaliser
  import opened Operators
  import opened Expressions
  import opened Blocks
  import opened Lines
  import opened Stepper

  class Program {
    /** The floating-point operations the evaluator uses. */
    const ops: FloatOps
    /** `_params`: every parameter, locals' slots unused, scratch at the top. */
    const params: array<real>
    /** `_local_params`: the 30 local parameters of the running frame. */
    const localParams: array<real>
    /** `_current_internal_param`: the last scratch slot used on this line. */
    var scratch: nat
    /**
     * `_return_stack` and `_param_stack`, which are always pushed and
     * popped together: one stack of frames, bottom first.
     */
    var calls: seq<Frame>
    var code: seq<string>
    var blocks: map<nat, CodeBlock>
    var percentStart: nat
    var percentStop: nat
    var percentActive: bool
    /** `_current_line`. */
    var cursor: nat
    var blockDelete: bool
    var formatPretty: bool
    var convertToUpper: bool
    /** `_extra`: the mailbox `_ParseLine` uses. */
    const extra: ExtraInfo

    ghost predicate Valid()
      reads this, extra
    {
      && params.Length == TOTAL_PARAMETERS
      && localParams.Length == TOTAL_LOCAL_PARAMETERS
      && params != localParams
      && INTERNAL_PARAMETERS_START - 1 <= scratch < TOTAL_PARAMETERS
      && extra.Valid()
    }

    /** The parameter store the arrays hold. */
    function Params(): Store
      requires Valid()
      reads this, extra, params, localParams
    {
      Space(params[..], localParams[..], scratch)
    }

    /** The state the stepper works on. */
    function State(): Machine
      requires Valid()
      reads this, extra, params, localParams
    {
      Machine(code, blocks, percentStart, percentStop, percentActive, Params(), calls, cursor)
    }

    function Switches(): Flags
      reads this`blockDelete, this`formatPretty, this`convertToUpper
    {
      Flags(blockDelete, formatPretty, convertToUpper)
    }

    /** The mailbox `_ParseLine` uses. */
    function Mailbox(): Slots
      requires Valid()
      reads this, extra, extra.msg
    {
      extra.Slots()
    }

    /**
     * A new interpreter: every parameter zero, no program, the default
     * switches, rewound.
     */
    constructor(ops: FloatOps)
      ensures Valid() && fresh(params) && fresh(localParams) && fresh(extra) && fresh(extra.msg)
      ensures State() == Initial() && Switches() == DEFAULT_FLAGS && Mailbox() == EmptySlots()
      ensures this.ops == ops
    {
      this.ops := ops;
      params := new real[TOTAL_PARAMETERS](_ => 0.0);
      localParams := new real[TOTAL_LOCAL_PARAMETERS](_ => 0.0);
      scratch := INTERNAL_PARAMETERS_START - 1;
      calls := [];
      code := [];
      blocks := map[];
      blockDelete := DEFAULT_FLAGS.blockDelete;
      formatPretty := DEFAULT_FLAGS.pretty;
      convertToUpper := DEFAULT_FLAGS.upper;
      percentStart := 0;
      percentStop := 0;
      percentActive := false;
      cursor := 0;
      extra := new ExtraInfo();
      new;
      Rewind();
    }

    /**
     * `Rewind`: line 1, the scratch counter reset, a zero local frame, both
     * stacks empty and the `%` region not entered; the global parameters,
     * the program and the switches stay.
     */
    method Rewind()
      requires Valid()
      modifies this`cursor, this`scratch, this`calls, this`percentActive, localParams
      ensures Valid() && State() == Stepper.Rewind(old(State()))
    {
      cursor := 1;
      scratch := INTERNAL_PARAMETERS_START - 1;
      for i := 0 to TOTAL_LOCAL_PARAMETERS
        modifies localParams
        invariant forall k :: 0 <= k < i ==> localParams[k] == 0.0
      {
        localParams[i] := 0.0;
      }
      // The source pops both stacks until they are empty.
      calls := [];
      percentActive := false;
      assert localParams[..] == ZeroFrame();
    }

    /** `Clear`: every entry of the parameter array zero; the local frame and everything else stay. */
    method Clear()
      requires Valid()
      modifies params
      ensures Valid() && Params() == ClearGlobals(old(Params()))
    {
      for i := 0 to params.Length
        modifies params
        invariant forall k :: 0 <= k < i ==> params[k] == 0.0
      {
        params[i] := 0.0;
      }
      assert params[..] == seq(TOTAL_PARAMETERS, _ => 0.0);
    }

    method EnableBlockDelete(enable: bool := true)
      modifies this`blockDelete
      ensures Switches() == old(Switches()).(blockDelete := enable)
    {
      blockDelete := enable;
    }

    method EnablePrettyFormat(enable: bool := true)
      modifies this`formatPretty
      ensures Switches() == old(Switches()).(pretty := enable)
    {
      formatPretty := enable;
    }

    method EnableConvertToUpper(enable: bool := true)
      modifies this`convertToUpper
      ensures Switches() == old(Switches()).(upper := enable)
    {
      convertToUpper := enable;
    }

    /** Writes parameter `idx` in the array that holds it. */
    method Write(idx: nat, v: real)
      requires Valid() && 1 <= idx <= TOTAL_PARAMETERS
      modifies params, localParams
      ensures Valid() && Params() == Put(old(Params()), idx, v)
    {
      if idx <= TOTAL_LOCAL_PARAMETERS {
        localParams[idx - 1] := v;
      } else {
        params[idx - 1] := v;
      }
    }

    /** `SetParam(n, v)`: an error outside 1..5602, otherwise parameter `n` is `v`. */
    method SetParam(n: nat, v: real) returns (r: Result<()>)
      requires Valid()
      modifies params, localParams
      ensures Valid()
      ensures var e := Parameters.SetParam(old(Params()), n, v);
        && (r.Ok? <==> e.Ok?)
        && (r.Ok? ==> Params() == e.value)
        && (r.Err? ==> r.error == e.error && Params() == old(Params()))
    {
      if n == 0 || n > TOTAL_CNC_PARAMETERS {
        return Err(ParameterOutOfRange);
      }
      Write(n, v);
      r := Ok(());
    }

    /** `GetParam(n)`: an error outside 1..5602, otherwise parameter `n`; changes nothing. */
    method GetParam(n: nat) returns (r: Result<real>)
      requires Valid()
      ensures r == Parameters.GetParam(Params(), n)
    {
      if n == 0 || n > TOTAL_CNC_PARAMETERS {
        return Err(ParameterOutOfRange);
      }
      if n <= TOTAL_LOCAL_PARAMETERS {
        r := Ok(localParams[n - 1]);
      } else {
        r := Ok(params[n - 1]);
      }
    }

    /** `GetSourceLine(num)`: line `num` of the program as loaded; line 0 is the placeholder. */
    method GetSourceLine(num: nat) returns (r: Result<string>)
      ensures r.Ok? <==> num < |code|
      ensures r.Ok? ==> r.value == code[num]
      ensures r.Err? ==> r.error == NoSuchSourceLine
    {
      if num >= |code| {
        return Err(NoSuchSourceLine);
      }
      r := Ok(code[num]);
    }

    // ----------------------------------------------------------------
    // Operators and output formatting
    // ----------------------------------------------------------------

    /**
     * `_ReplaceSingleOperator`: every occurrence of `op` becomes `c`; the
     * search goes on from where the last replacement was made.
     */
    method ReplaceSingleOperator(line: string, op: string, c: char) returns (r: string)
      requires |op| >= 2
      ensures r == ReplaceOperator(line, op, c)
    {
      r := line;
      ghost var from: nat := 0;
      var pos := Find(r, op, 0);
      while pos.Some?
        invariant from <= |r| && pos == Find(r, op, from)
        invariant ReplaceFrom(r, op, c, from) == ReplaceOperator(line, op, c)
        decreases |r|
      {
        var p := pos.value;
        r := r[..p] + [c] + r[p + |op|..];
        from := p;
        pos := Find(r, op, p);
      }
    }

    /**
     * `_SimplifyOperators`: the eleven rewrites, in their order (the
     * source spells out one call per entry of `REWRITES`).
     */
    method SimplifyOperators(line: string) returns (r: string)
      ensures r == Operators.SimplifyOperators(line)
    {
      r := line;
      for k := 0 to |REWRITES|
        invariant r == Simplify(line, k)
      {
        RewritesSeparated();
        assert Separated(k, k);
        r := ReplaceSingleOperator(r, REWRITES[k].0, REWRITES[k].1);
      }
    }

    /**
     * `_FormatPretty`: with pretty printing on, a space goes between every
     * digit and a letter right after it; with upper case on, letters are
     * upper-cased.
     */
    method FormatPretty(line: string) returns (r: string)
      ensures r == Normaliser.FormatPretty(line, formatPretty, convertToUpper)
    {
      r := line;
      if formatPretty {
        var i := 1;
        while i < |r|
          invariant 1 <= i && SpaceWords(r, i) == SpaceWords(line, 1)
          invariant i <= |r| || r == line
          decreases 2 * (|r| - i) + (if i <= |r| && r[i - 1] == ' ' then 0 else 1)
        {
          if IsDigit(r[i - 1]) && IsAlpha(r[i]) {
            var r' := r[..i] + " " + r[i..];
            assert SpaceWords(r', i + 1) == SpaceWords(r', i + 2);
            r := r';
          }
          i := i + 1;
        }
      }
      if convertToUpper {
        r := UpperString(r);
      }
    }

    // ----------------------------------------------------------------
    // Parameters in a line
    // ----------------------------------------------------------------

    /**
     * `_ReplaceWithParameter`: the value goes into the next scratch slot
     * and a reference to it takes the place of `line[start..start+len]`;
     * the 51st value on a line is an error.
     */
    method ReplaceWithParameter(value: real, line: string, start: nat, len: nat) returns (r: Result<string>)
      requires Valid() && start + len <= |line|
      modifies this`scratch, params
      ensures Valid()
      ensures var e := Parameters.ReplaceWithParameter(old(Params()), value, line, start, len);
        && (r.Ok? <==> e.Ok?)
        && (r.Ok? ==> r.value == e.value.0 && Params() == e.value.1)
        && (r.Err? ==> r.error == e.error)
    {
      params[scratch] := value;
      if scratch + 1 >= TOTAL_PARAMETERS {
        return Err(InternalParametersExhausted);
      }
      scratch := scratch + 1;
      r := Ok(line[..start] + Reference(scratch) + line[start + len..]);
    }

    /**
     * `_AssignParameter`: carries out the assignment that starts at the
     * '#' at `pos` and gives the length of its text.
     */
    method AssignParameter(line: string, pos: nat) returns (r: Result<nat>)
      requires Valid() && pos < |line| && line[pos] == '#'
      modifies params, localParams
      ensures Valid()
      ensures var e := Parameters.AssignParameter(old(Params()), line, pos);
        && (r.Ok? <==> e.Ok?)
        && (r.Ok? ==> r.value == e.value.1 && Params() == e.value.0)
        && (r.Err? ==> r.error == e.error)
    {
      var nref := HashRun(line, pos);
      var p := pos + nref;
      if p >= |line| || !IsDigit(line[p]) {
        return Err(BadParameterIndex);
      }
      var (index, size) := ReadLiteral(line, p).value;
      var q := p + size + 1;
      if q >= |line| || !(IsDigit(line[q]) || line[q] == '.' || line[q] == '-') {
        return Err(BadAssignedValue);
      }
      var value, end := 0.0, q;
      match ReadSigned(line, q) {
        case None =>
        case Some((v, n)) => value, end := v, q + n;
      }
      var idx := Target(Params(), index, nref);
      if idx.Err? {
        return Err(idx.error);
      }
      Write(idx.value, value);
      r := Ok(end - pos);
    }

    /**
     * The first loop of `_ResolveParameters`: every reference not followed
     * by '=' is replaced by its value rendered at precision `prec`; the
     * others are counted. Nothing is written.
     */
    method ResolveReads(line: string, prec: nat) returns (r: Result<(string, nat)>)
      requires Valid()
      ensures r == Parameters.ResolveReads(Params(), line, prec, 0, 0)
    {
      var s := Params();
      var l := line;
      var pos := 0;
      var assignments := 0;
      var found := FindFirstOf(l, {'#'}, pos);
      while found.Some?
        invariant pos <= |l| && found == FindFirstOf(l, {'#'}, pos)
        invariant Parameters.ResolveReads(s, l, prec, pos, assignments) == Parameters.ResolveReads(s, line, prec, 0, 0)
        decreases |l| - pos
      {
        var step := ReadStep(s, l, prec, found.value);
        if step.Err? {
          return Err(step.error);
        }
        var (l', next, counted) := step.value;
        if counted {
          assignments := assignments + 1;
        }
        l, pos := l', next;
        found := FindFirstOf(l, {'#'}, pos);
      }
      r := Ok((l, assignments));
    }

    /**
     * The second loop of `_ResolveParameters`: the assignments, left to
     * right, each erased from the line once carried out.
     */
    method ResolveWrites(line: string) returns (r: Result<string>)
      requires Valid()
      modifies params, localParams
      ensures Valid()
      ensures var e := Parameters.ResolveWrites(old(Params()), line, 0);
        && (r.Ok? <==> e.Ok?)
        && (r.Ok? ==> r.value == e.value.0 && Params() == e.value.1)
        && (r.Err? ==> r.error == e.error)
    {
      var l := line;
      var pos: nat := 0;
      var found := FindFirstOf(l, {'#'}, pos);
      while found.Some?
        invariant Valid() && pos <= |l| && found == FindFirstOf(l, {'#'}, pos)
        invariant Parameters.ResolveWrites(Params(), l, pos) == Parameters.ResolveWrites(old(Params()), line, 0)
        decreases |l| - pos
      {
        var p := found.value;
        ghost var s := Params();
        var len := AssignParameter(l, p);
        if len.Err? {
          WritesFail(s, l, pos, p);
          return Err(len.error);
        }
        WritesStep(s, l, pos, p, Params(), len.value);
        l := Erase(l, p, len.value);
        pos := p;
        found := FindFirstOf(l, {'#'}, pos);
      }
      WritesDone(Params(), l, pos);
      r := Ok(l);
    }

    /**
     * `_ResolveParameters`: every read sees the parameters as they were
     * before the line; the assignments follow, if there are any.
     */
    method ResolveParameters(line: string, prec: nat) returns (r: Result<string>)
      requires Valid()
      modifies params, localParams
      ensures Valid()
      ensures var e := Parameters.ResolveParameters(old(Params()), line, prec);
        && (r.Ok? <==> e.Ok?)
        && (r.Ok? ==> r.value == e.value.0 && Params() == e.value.1)
        && (r.Err? ==> r.error == e.error)
    {
      var first := ResolveReads(line, prec);
      if first.Err? {
        return Err(first.error);
      }
      var (text, assignments) := first.value;
      if assignments > 0 {
        r := ResolveWrites(text);
      } else {
        r := Ok(text);
      }
    }

    // ----------------------------------------------------------------
    // Expressions
    // ----------------------------------------------------------------

    /**
     * Taking over what evaluating a bracket wrote: the evaluator works on
     * the store as a value, and what it may change is the scratch area
     * and the counter (`Keeps`), which are copied back here.
     */
    method Commit(t: Store)
      requires Valid() && Keeps(Params(), t)
      modifies this`scratch, params
      ensures Valid() && Params() == t
    {
      for k := INTERNAL_PARAMETERS_START - 1 to TOTAL_PARAMETERS
        modifies params
        invariant params[..INTERNAL_PARAMETERS_START - 1] == t.globals[..INTERNAL_PARAMETERS_START - 1]
        invariant forall j :: INTERNAL_PARAMETERS_START - 1 <= j < k ==> params[j] == t.globals[j]
      {
        params[k] := t.globals[k];
      }
      scratch := t.scratch;
      assert params[..] == t.globals;
    }

    /**
     * One round of `_CalculateExpressions` on the bracket at `open`: its
     * value, given to the function before it if there is one, is stored
     * in a fresh scratch parameter whose reference replaces the text.
     */
    method Substitute(line: string, open: nat) returns (r: Result<(string, real)>)
      requires Valid() && open < |line| && line[open] == '['
      modifies this`scratch, params
      ensures Valid()
      ensures var e := Expressions.Substitute(ops, old(Params()), line, open);
        && (r.Ok? <==> e.Ok?)
        && (r.Ok? ==> r.value == (e.value.0, e.value.2) && Params() == e.value.1)
        && (r.Err? ==> r.error == e.error)
    {
      var bracket := FromBracket(ops, Params(), line, open);
      if bracket.Err? {
        return Err(bracket.error);
      }
      var (value, len, s1) := bracket.value;
      var applied := ApplyFn(ops, s1, value, line, open, len);
      if applied.Err? {
        return Err(applied.error);
      }
      var (result, start, span, s2) := applied.value;
      Commit(s2);
      var replaced := ReplaceWithParameter(result, line, start, span);
      if replaced.Err? {
        return Err(replaced.error);
      }
      r := Ok((replaced.value, result));
    }

    /**
     * `_CalculateExpressions`: while a '[' is left, the leftmost bracket is
     * evaluated, given to the function named before it if there is one,
     * and replaced by a reference to a fresh scratch parameter. The values
     * of these outermost brackets are given back in textual order.
     */
    method CalculateExpressions(line: string) returns (r: Result<(string, seq<real>)>)
      requires Valid()
      modifies this`scratch, params
      ensures Valid()
      ensures var e := CalcExprs(ops, old(Params()), line);
        && (r.Ok? <==> e.Ok?)
        && (r.Ok? ==> r.value == (e.value.0, e.value.2) && Params() == e.value.1)
        && (r.Err? ==> r.error == e.error)
    {
      var l := line;
      var values: seq<real> := [];
      PrependNothing(CalcExprs(ops, Params(), l));
      var found := FindFirstOf(l, BRACKETS, 0);
      while found.Some?
        invariant Valid() && found == FindFirstOf(l, BRACKETS, 0)
        invariant Prepend(values, CalcExprs(ops, Params(), l)) == CalcExprs(ops, old(Params()), line)
        decreases Count(l, BRACKETS)
      {
        ghost var before := CalcExprs(ops, Params(), l);
        var round := Substitute(l, found.value);
        if round.Err? {
          return Err(round.error);
        }
        var (replaced, result) := round.value;
        assert before == Prepend([result], CalcExprs(ops, Params(), replaced));
        PrependTwice(values, [result], CalcExprs(ops, Params(), replaced));
        l := replaced;
        values := values + [result];
        found := FindFirstOf(l, BRACKETS, 0);
      }
      assert CalcExprs(ops, Params(), l) == Ok((l, Params(), []));
      assert values + [] == values;
      r := Ok((l, values));
    }

    /**
     * Operators simplified, expressions calculated and parameters resolved
     * at precision `prec`: the part of the pipeline `_ParseLine` and `Step`
     * share after the N-word is gone.
     */
    method Resolve(line: string, prec: nat) returns (r: Result<string>)
      requires Valid()
      modifies this`scratch, params, localParams
      ensures Valid()
      ensures var e := Lines.Resolve(ops, old(Params()), line, prec);
        && (r.Ok? <==> e.Ok?)
        && (r.Ok? ==> r.value == e.value.0 && Params() == e.value.1)
        && (r.Err? ==> r.error == e.error)
    {
      var simple := SimplifyOperators(line);
      var flat := CalculateExpressions(simple);
      if flat.Err? {
        return Err(flat.error);
      }
      r := ResolveParameters(flat.value.0, prec);
    }

    // ----------------------------------------------------------------
    // Comments
    // ----------------------------------------------------------------

    /**
     * The comment at `pos` in `_ProcessComments`: for '(' the scan counts
     * nested pairs up to the matching ')', failing at the end of the line;
     * a ';' comment runs to the end. Gives the length and the trimmed text.
     */
    method CommentAt(line: string, pos: nat) returns (r: Result<(nat, string)>)
      requires pos < |line| && line[pos] in {';', '('}
      ensures r == Normaliser.CommentAt(line, pos)
    {
      if line[pos] != '(' {
        return Ok((|line| - pos, TrimBlanks(line[pos + 1..])));
      }
      var len := 1;
      var depth: int := 0;
      while depth >= 0
        invariant 1 <= len && pos + len <= |line| + 1
        invariant depth >= 0 ==> pos + len <= |line|
        invariant depth >= 0 ==> MatchingClose(line, '(', ')', pos + 1, 0) == MatchingClose(line, '(', ')', pos + len, depth)
        invariant depth < 0 ==> depth == -1 && MatchingClose(line, '(', ')', pos + 1, 0) == Some(pos + len - 1)
        decreases |line| - (pos + len), if depth >= 0 then 1 else 0
      {
        if pos + len >= |line| {
          return Err(NoClosingComment);
        }
        if line[pos + len] == '(' {
          depth := depth + 1;
        }
        if line[pos + len] == ')' {
          depth := depth - 1;
        }
        len := len + 1;
      }
      r := Ok((len, TrimBlanks(line[pos + 1..pos + len - 1])));
    }

    /** Carrying out one active comment into `box`: what `Normaliser.Dispatch` describes. */
    method Dispatch(box: ExtraInfo, text: string) returns (r: Result<()>)
      requires Valid() && box.Valid()
      modifies params, localParams, box.msg
      ensures Valid() && box.Valid()
      ensures var e := Normaliser.Dispatch(old(Params()), old(box.Slots()), text);
        && (r.Ok? <==> e.Ok?)
        && (r.Ok? ==> box.Slots() == e.value.0 && Params() == e.value.1)
        && (r.Err? ==> r.error == e.error)
    {
      var low := LowerString(text);
      var kind, skip;
      if HasPrefix(low, "msg,") {
        box.Assign(MSG, text[4..]);
        return Ok(());
      } else if HasPrefix(low, "print,") {
        kind, skip := PRN, 6;
      } else if HasPrefix(low, "debug,") {
        kind, skip := DBG, 6;
      } else if HasPrefix(low, "log,") {
        kind, skip := LOG, 4;
      } else {
        return Ok(());
      }
      var t := ResolveParameters(text[skip..], COMMENT_PRECISION);
      if t.Err? {
        return Err(t.error);
      }
      box.Assign(kind, t.value);
      r := Ok(());
    }

    /**
     * One round of `_ProcessComments`: the comment at `pos`, the first
     * one, is removed and, with a mailbox, carried out; what is left to do
     * is what was left before.
     */
    method RemoveComment(line: string, pos: nat, box: ExtraInfo) returns (r: Result<string>)
      requires Valid() && box.Valid()
      requires FindFirstOf(line, {';', '('}, 0) == Some(pos)
      modifies params, localParams, box.msg
      ensures Valid() && (r.Ok? ==> |r.value| < |line|)
      ensures var e := old(Normaliser.ProcessComments(Params(), box.Slots(), true, line));
        && (r.Ok? ==> Normaliser.ProcessComments(Params(), box.Slots(), true, r.value) == e)
        && (r.Err? ==> e == Err(r.error))
    {
      var comment := CommentAt(line, pos);
      if comment.Err? {
        return Err(comment.error);
      }
      var (len, text) := comment.value;
      var rest := Erase(line, pos, len);
      ghost var s0, b0 := Params(), box.Slots();
      CommentRound(s0, b0, true, line, pos, len, text);
      var done := Dispatch(box, text);
      if done.Err? {
        return Err(done.error);
      }
      r := Ok(rest);
    }

    /**
     * `_ProcessComments` with a mailbox: removes the comments of `line`
     * leftmost first, each one carried out as soon as it is removed.
     */
    method ProcessComments(line: string, box: ExtraInfo) returns (r: Result<string>)
      requires Valid() && box.Valid()
      modifies params, localParams, box.msg
      ensures Valid()
      ensures var e := Normaliser.ProcessComments(old(Params()), old(box.Slots()), true, line);
        && (r.Ok? <==> e.Ok?)
        && (r.Ok? ==> r.value == e.value.0 && Params() == e.value.2 && box.Slots() == e.value.1)
        && (r.Err? ==> r.error == e.error)
    {
      var l := line;
      var found := FindFirstOf(l, {';', '('}, 0);
      while found.Some?
        invariant Valid() && box.Valid()
        invariant found == FindFirstOf(l, {';', '('}, 0)
        invariant Normaliser.ProcessComments(Params(), box.Slots(), true, l)
               == Normaliser.ProcessComments(old(Params()), old(box.Slots()), true, line)
        decreases |l|
      {
        var next := RemoveComment(l, found.value, box);
        if next.Err? {
          return Err(next.error);
        }
        l := next.value;
        found := FindFirstOf(l, {';', '('}, 0);
      }
      r := Ok(l);
    }

    /**
     * `_ParseLine`: the whole pipeline on one line, the comments' messages
     * going into the interpreter's own mailbox; O-words are not treated.
     */
    method ParseLine(line: string, prec: nat := PARSE_PRECISION) returns (r: Result<string>)
      requires Valid()
      modifies this`scratch, params, localParams, extra.msg
      ensures Valid()
      ensures var e := Lines.ParseLine(ops, Switches(), old(Params()), old(extra.Slots()), line, prec);
        && (r.Ok? <==> e.Ok?)
        && (r.Ok? ==> r.value == e.value.0 && extra.Slots() == e.value.1 && Params() == e.value.2)
        && (r.Err? ==> r.error == e.error)
    {
      scratch := INTERNAL_PARAMETERS_START - 1;
      var stripped := ProcessComments(line, extra);
      if stripped.Err? {
        return Err(stripped.error);
      }
      var prepared := PrepareLine(stripped.value, blockDelete);
      if prepared.Err? {
        return Err(prepared.error);
      }
      var bare := RemoveNword(prepared.value);
      if bare.Err? {
        return Err(bare.error);
      }
      var resolved := Resolve(bare.value, prec);
      if resolved.Err? {
        return Err(resolved.error);
      }
      var out := FormatPretty(resolved.value);
      r := Ok(out);
    }

    // ----------------------------------------------------------------
    // Loading
    // ----------------------------------------------------------------

    /** The block table and the `%` lines being built by `Load`. */
    function Table(): Table
      reads this`blocks, this`percentStart, this`percentStop
    {
      Blocks.Table(blocks, percentStart, percentStop)
    }

    /**
     * A line of `Load` that does not start with '%': its comments removed
     * without a mailbox (which is `StripComments`, by
     * `Normaliser.PassiveComments`), prepared and without its N-word; its
     * O-word, if it has one. Nothing is written.
     */
    method LineCommand(raw: string) returns (r: Result<Option<OWord>>)
      ensures r == Blocks.LineCommand(raw, blockDelete)
    {
      var stripped := StripComments(raw);
      if stripped.Err? {
        return Err(stripped.error);
      }
      var prepared := PrepareLine(stripped.value, blockDelete);
      if prepared.Err? {
        return Err(prepared.error);
      }
      var line := RemoveNword(prepared.value);
      if line.Err? {
        return Err(line.error);
      }
      if |line.value| == 0 {
        return Ok(None);
      }
      r := ReadOword(line.value);
    }

    /**
     * One line of `Load`, line `n` of the program, appended to it: a line starting with
     * '%' marks the region, any other is normalised without a mailbox and,
     * when it starts with an O-word, entered in the block table.
     */
    method LoadLine(n: nat, raw: string) returns (r: Result<()>)
      requires Valid()
      modifies this`code, this`blocks, this`percentStart, this`percentStop
      ensures Valid() && code == old(code) + [raw]
      ensures var e := Blocks.LoadLine(old(Table()), n, raw, blockDelete);
        && (r.Ok? <==> e.Ok?)
        && (r.Ok? ==> Table() == e.value)
        && (r.Err? ==> r.error == e.error)
    {
      code := code + [raw];
      if |raw| > 0 && raw[0] == '%' {
        if percentStart == 0 {
          percentStart := n;
        } else if percentStop == 0 {
          percentStop := n;
        } else {
          return Err(TooManyPercents);
        }
        return Ok(());
      }
      var word := LineCommand(raw);
      if word.Err? {
        return Err(word.error);
      }
      if word.value.Some? {
        var w := word.value.value;
        var entered := LoadCommand(blocks, n, w.number, w.command);
        if entered.Err? {
          return Err(entered.error);
        }
        blocks := entered.value;
      }
      r := Ok(());
    }

    /** Line `i + 1` of `Load`: one round of `LoadFrom`. */
    method LoadNext(lines: seq<string>, i: nat) returns (r: Result<()>)
      requires Valid() && i < |lines| && code == [PLACEHOLDER] + lines[..i]
      modifies this`code, this`blocks, this`percentStart, this`percentStop
      ensures Valid() && code == [PLACEHOLDER] + lines[..i + 1]
      ensures r.Err? ==> LoadFrom(old(Table()), lines, i, blockDelete) == Err(r.error)
      ensures r.Ok? ==> LoadFrom(old(Table()), lines, i, blockDelete) == LoadFrom(Table(), lines, i + 1, blockDelete)
    {
      ghost var t := Table();
      assert lines[..i + 1] == lines[..i] + [lines[i]];
      r := LoadLine(i + 1, lines[i]);
      LoadRound(t, lines, i, blockDelete);
    }

    /**
     * The loop of `Load`: each line of the text is appended to the program
     * and entered, as line `cursor`, in the table.
     */
    method LoadLines(lines: seq<string>) returns (r: Result<()>)
      requires Valid() && code == [PLACEHOLDER] && cursor == 1 && Table() == Blocks.Table(map[], 0, 0)
      modifies this`code, this`cursor, this`blocks, this`percentStart, this`percentStop
      ensures Valid()
      ensures var e := LoadFrom(Blocks.Table(map[], 0, 0), lines, 0, blockDelete);
        && (r.Ok? <==> e.Ok?)
        && (r.Ok? ==> Table() == e.value && code == [PLACEHOLDER] + lines)
        && (r.Err? ==> r.error == e.error)
    {
      var t := Table();
      var i := 0;
      while i < |lines|
        invariant Valid()
        invariant i <= |lines| && cursor == i + 1 && code == [PLACEHOLDER] + lines[..i]
        invariant Table() == t
        invariant LoadFrom(t, lines, i, blockDelete) == LoadFrom(Blocks.Table(map[], 0, 0), lines, 0, blockDelete)
      {
        var loaded := LoadNext(lines, i);
        if loaded.Err? {
          return Err(loaded.error);
        }
        t := Table();
        i, cursor := i + 1, i + 2;
      }
      assert lines[..i] == lines;
      r := Ok(());
    }

    /**
     * `Load`: the text's lines become the program, after the placeholder
     * line 0, and their O-words the block table; a `%` region must be
     * closed and every block ended. The interpreter is then rewound.
     */
    method Load(text: string) returns (r: Result<()>)
      requires Valid()
      modifies this`code, this`cursor, this`blocks, this`percentStart, this`percentStop
      modifies this`scratch, this`calls, this`percentActive, localParams
      ensures Valid()
      ensures var e := Blocks.Load(text, blockDelete);
        && (r.Ok? <==> e.Ok?)
        && (r.Err? ==> r.error == e.error)
      ensures r.Ok? ==> State() == LoadProgram(old(State()), text, blockDelete).value
    {
      ghost var m0 := State();
      code := [PLACEHOLDER];
      cursor := 1;
      blocks := map[];
      percentStart, percentStop := 0, 0;
      var lines := SplitLines(text);
      r := LoadLines(lines);
      if r.Ok? {
        if percentStart > 0 && percentStop <= percentStart {
          r := Err(NoClosingPercent);
        } else if Unfinished(blocks) {
          r := Err(BlockWithoutEnd);
        } else {
          LoadedRewind(m0, text, blockDelete, State());
          Rewind();
        }
      }
    }

    // ----------------------------------------------------------------
    // Stepping
    // ----------------------------------------------------------------

    /**
     * A `call` of the sub `b`: the line after the call and the running
     * local frame are pushed, the arguments overwrite the first locals
     * (the others keep the caller's values) and execution goes on after
     * the `sub` line.
     */
    method CallSub(b: CodeBlock, args: seq<real>) returns (r: Result<()>)
      requires Valid()
      modifies this`calls, this`cursor, localParams
      ensures Valid()
      ensures var e := Stepper.Call(old(State()), b, args, old(cursor) + 1);
        && (r.Ok? <==> e.Ok?)
        && (r.Ok? ==> State() == e.value)
        && (r.Err? ==> r.error == e.error)
    {
      if b.kind != Sub {
        return Err(SubNotFound);
      }
      if |calls| >= MAX_STACK_LEVELS {
        return Err(StackOverflow);
      }
      calls := calls + [Frame(cursor + 1, localParams[..])];
      var n := if |args| < TOTAL_LOCAL_PARAMETERS then |args| else TOTAL_LOCAL_PARAMETERS;
      for i := 0 to n
        modifies localParams
        invariant forall k :: 0 <= k < TOTAL_LOCAL_PARAMETERS ==>
          localParams[k] == if k < i then args[k] else old(localParams[k])
      {
        localParams[i] := args[i];
      }
      assert localParams[..] == CopyArgs(old(localParams[..]), args);
      cursor := b.startLine + 1;
      r := Ok(());
    }

    /**
     * `return` or `endsub`: the first argument, if there is one, is
     * written to `#5000` (before the stack is looked at); the innermost
     * frame is popped, its locals restored and its line made current.
     */
    method ReturnSub(args: seq<real>) returns (r: Result<()>)
      requires Valid()
      modifies this`calls, this`cursor, params, localParams
      ensures Valid()
      ensures var e := Stepper.Return(old(State()), args);
        && (r.Ok? <==> e.Ok?)
        && (r.Ok? ==> State() == e.value)
        && (r.Err? ==> r.error == e.error)
    {
      if args != [] {
        ReturnValueIsGlobal();
        Write(RETURN_VALUE_PARAMETER, args[0]);
      }
      if |calls| == 0 {
        return Err(StackUnderrun);
      }
      ghost var s := Params();
      var top := calls[|calls| - 1];
      var saved := top.saved;
      for i := 0 to TOTAL_LOCAL_PARAMETERS
        modifies localParams
        invariant forall k :: 0 <= k < i ==> localParams[k] == saved[k]
      {
        localParams[i] := saved[i];
      }
      assert localParams[..] == saved;
      cursor := top.returnLine;
      calls := calls[..|calls| - 1];
      assert Params() == s.(locals := saved);
      r := Ok(());
    }

    /**
     * A command without argument on block `number`: `endrepeat` counts a
     * repetition down; the line to go to is the block's end, its last
     * line, its start or after its start, as the command and the counter
     * say, or else the next line.
     */
    method BareLine(number: nat, cmd: string)
      requires number in blocks
      modifies this`blocks, this`cursor
      ensures var b := old(blocks[number]);
        && blocks == old(blocks)[number := b.(runTimes := BareCounter(b, cmd))]
        && cursor == BareTarget(b, cmd, old(cursor))
    {
      var b := blocks[number];
      var next := cursor + 1;
      if cmd == "sub" || cmd == "break" {
        next := b.endLine;
      } else if cmd == "continue" {
        next := if b.endLine == 0 then LINE_MAX else b.endLine - 1;
      } else if cmd == "endwhile" {
        next := b.startLine;
      } else if cmd == "endrepeat" {
        b := b.(runTimes := b.runTimes - 1);
        if b.runTimes > 0 {
          next := b.startLine + 1;
        }
      } else if cmd == "else" {
        if b.runTimes != 0 {
          next := b.endLine;
        }
      }
      blocks := blocks[number := b];
      cursor := next;
    }

    /**
     * `repeat`, `while`, `if` and `elseif` on block `number` with the
     * value `arg` of their first bracket: the counter they leave and the
     * line they go to.
     */
    method BranchLine(number: nat, cmd: string, arg: real)
      requires number in blocks
      modifies this`blocks, this`cursor
      ensures var b := old(blocks[number]);
        && blocks == old(blocks)[number := b.(runTimes := BranchCounter(b, cmd, arg))]
        && cursor == BranchTarget(b, cmd, arg, old(cursor))
    {
      var b := blocks[number];
      var next := cursor + 1;
      if cmd == "repeat" {
        b := b.(runTimes := Trunc(arg));
      } else if cmd == "while" {
        if arg == 0.0 {
          next := b.endLine;
        } else if cursor != b.startLine {
          next := b.startLine + 1;
        }
      } else if cmd == "if" {
        b := b.(runTimes := if arg != 0.0 then 1 else 0);
        if arg == 0.0 {
          next := if b.midLines == [] then b.endLine else b.midLines[0];
        }
      } else if cmd == "elseif" {
        if b.runTimes != 0 {
          next := b.endLine;
        } else {
          b := b.(runTimes := if arg != 0.0 then 1 else 0);
          if arg == 0.0 {
            next := NextMid(b.midLines, cursor, b.endLine);
          }
        }
      }
      blocks := blocks[number := b];
      cursor := next;
    }

    /**
     * A command of block `number` once the brackets of its line have been
     * calculated, `rest` being what is left of the line and `args` the
     * brackets' values: `call`, `return` and `endsub`, or a command that
     * needs an argument.
     */
    method ArgumentLine(number: nat, cmd: string, rest: string, args: seq<real>) returns (r: Result<()>)
      requires Valid() && number in blocks
      modifies this`blocks, this`cursor, this`calls, params, localParams
      ensures Valid()
      ensures var e := Arguments(old(State()), number, cmd, rest, args);
        && (r.Ok? <==> e.Ok?)
        && (r.Ok? ==> State() == e.value)
        && (r.Err? ==> r.error == e.error)
    {
      if cmd == "call" {
        r := CallSub(blocks[number], args);
      } else if cmd == "return" || cmd == "endsub" {
        r := ReturnSub(args);
      } else if rest == [] || args == [] {
        r := Err(NoArguments);
      } else {
        BranchLine(number, cmd, args[0]);
        r := Ok(());
      }
    }

    /**
     * A control line, the O-word `w`: its block must be known; a command
     * without argument moves at once, any other has the brackets of the
     * rest of the line calculated first.
     */
    method ControlLine(w: OWord) returns (r: Result<()>)
      requires Valid()
      modifies this`blocks, this`cursor, this`calls, this`scratch, params, localParams
      ensures Valid()
      ensures var e := Control(ops, old(State()), w);
        && (r.Ok? <==> e.Ok?)
        && (r.Ok? ==> State() == e.value)
        && (r.Err? ==> r.error == e.error)
    {
      if w.number !in blocks {
        return Err(BlockNotFound);
      }
      if Bare(w.command) {
        BareLine(w.number, w.command);
        return Ok(());
      }
      var simple := SimplifyOperators(w.rest);
      var calculated := CalculateExpressions(simple);
      if calculated.Err? {
        return Err(calculated.error);
      }
      var (rest, args) := calculated.value;
      r := ArgumentLine(w.number, w.command, rest, args);
    }

    /**
     * The first half of an ordinary G-code line: the cursor moves on (to
     * the end for `M2`/`M30`) and the line is resolved at precision 3.
     */
    method ResolveLine(line: string) returns (r: Result<string>)
      requires Valid()
      modifies this`cursor, this`scratch, params, localParams
      ensures Valid()
      ensures var e := Lines.Resolve(ops, old(Params()), line, STEP_PRECISION);
        && (r.Ok? <==> e.Ok?)
        && (r.Err? ==> r.error == e.error)
        && (r.Ok? ==> r.value == e.value.0)
        && (r.Ok? ==> State() == old(State()).(store := e.value.1, cursor := if EndsProgram(r.value) then |code| else old(cursor) + 1))
    {
      cursor := cursor + 1;
      r := Resolve(line, STEP_PRECISION);
      if r.Ok? && EndsProgram(r.value) {
        cursor := |code|;
      }
    }

    /**
     * An ordinary G-code line, normalised: resolved and formatted, and
     * handed out when it is not empty or a message is pending.
     */
    method Emit(box: ExtraInfo, line: string) returns (r: Result<Option<string>>)
      requires Valid() && box.Valid()
      modifies this`cursor, this`scratch, params, localParams
      ensures Valid()
      ensures TurnOf(r, State(), box.Slots()) == Stepper.Emit(ops, Switches(), old(State()), box.Slots(), line)
    {
      ghost var m0 := State();
      var resolved := ResolveLine(line);
      if resolved.Err? {
        return Err(resolved.error);
      }
      ghost var e := Lines.Resolve(ops, m0.store, line, STEP_PRECISION);
      assert e == Ok((resolved.value, Params()));
      var out := Offer(box, resolved.value);
      r := Ok(out);
      assert Stepper.Emit(ops, Switches(), m0, box.Slots(), line) == Ok(Stepper.Emitted(Switches(), m0, box.Slots(), e.value));
    }

    /** The resolved text `resolved` formatted, handed out when it is not empty or a message is pending. */
    method Offer(box: ExtraInfo, resolved: string) returns (r: Option<string>)
      requires box.Valid()
      ensures var out := Normaliser.FormatPretty(resolved, formatPretty, convertToUpper);
        r == if out != [] || Pending(box.Slots()) then Some(out) else None
    {
      var out := FormatPretty(resolved);
      var pending := box.FirstNonEmpty();
      r := if out != [] || pending.Some? then Some(out) else None;
    }

    /**
     * The normalised line `line` at the cursor: an empty line is passed
     * over and an O-word line obeyed, both handing out an empty line only
     * when a message is pending; anything else is emitted.
     */
    method Act(box: ExtraInfo, line: string) returns (r: Result<Option<string>>)
      requires Valid() && box.Valid()
      modifies this`blocks, this`cursor, this`calls, this`scratch, params, localParams
      ensures Valid()
      ensures TurnOf(r, State(), box.Slots()) == Stepper.Act(ops, Switches(), old(State()), box.Slots(), line)
    {
      if line == [] {
        cursor := cursor + 1;
        var pending := box.FirstNonEmpty();
        return Ok(if pending.Some? then Some("") else None);
      }
      var word := ReadOword(line);
      if word.Err? {
        return Err(word.error);
      }
      if word.value.None? {
        r := Emit(box, line);
        return;
      }
      var done := ControlLine(word.value.value);
      if done.Err? {
        return Err(done.error);
      }
      var pending := box.FirstNonEmpty();
      r := Ok(if pending.Some? then Some("") else None);
    }

    /**
     * The line at the cursor: the scratch counter reset, its comments
     * carried out into `box` and removed, prepared, without its N-word,
     * then acted on.
     */
    method Execute(box: ExtraInfo) returns (r: Result<Option<string>>)
      requires Valid() && box.Valid() && cursor < |code|
      modifies this`blocks, this`cursor, this`calls, this`scratch, params, localParams, box.msg
      ensures Valid()
      ensures TurnOf(r, State(), box.Slots()) == Stepper.Execute(ops, Switches(), old(State()), old(box.Slots()))
    {
      scratch := INTERNAL_PARAMETERS_START - 1;
      var stripped := ProcessComments(code[cursor], box);
      if stripped.Err? {
        return Err(stripped.error);
      }
      var prepared := PrepareLine(stripped.value, blockDelete);
      if prepared.Err? {
        return Err(prepared.error);
      }
      var line := RemoveNword(prepared.value);
      if line.Err? {
        return Err(line.error);
      }
      r := Act(box, line.value);
    }

    /**
     * One round of the loop of `Step`: with a `%` region, its opening line
     * enters it, its closing line ends the program and a line before it is
     * skipped; any other line is executed.
     */
    method Cycle(box: ExtraInfo) returns (r: Result<Option<string>>)
      requires Valid() && box.Valid() && cursor < |code|
      modifies this`blocks, this`cursor, this`percentActive, this`calls, this`scratch
      modifies params, localParams, box.msg
      ensures Valid()
      ensures TurnOf(r, State(), box.Slots()) == Stepper.Cycle(ops, Switches(), old(State()), old(box.Slots()))
    {
      if percentStart > 0 {
        if cursor == percentStart {
          percentActive := true;
          cursor := cursor + 1;
          return Ok(None);
        } else if cursor == percentStop {
          cursor := |code|;
          return Ok(None);
        } else if !percentActive {
          cursor := cursor + 1;
          return Ok(None);
        }
      }
      r := Execute(box);
    }

    /**
     * `Step`: the mailbox `box` is emptied, then lines are looked at from
     * the cursor on until one hands out a line (`Produced`) or the program
     * ends (`Finished`); the loop gives up after `fuel` lines (`Stalled`).
     */
    method Step(box: ExtraInfo, fuel: nat) returns (r: Result<Outcome>)
      requires Valid() && box.Valid()
      modifies this`blocks, this`cursor, this`percentActive, this`calls, this`scratch
      modifies params, localParams, box.msg
      ensures Valid()
      ensures StopOf(r, State(), box.Slots()) == Stepper.Step(ops, Switches(), old(State()), fuel)
    {
      box.Clear();
      ghost var m, slots, flags := State(), box.Slots(), Switches();
      ghost var goal := Stepper.Step(ops, flags, m, fuel);
      var f := fuel;
      while cursor < |code|
        invariant Valid() && State() == m && box.Slots() == slots && Switches() == flags
        invariant Run(ops, flags, m, slots, f) == goal
        decreases f
      {
        if f == 0 {
          return Ok(Stalled);
        }
        ghost var c := Stepper.Cycle(ops, flags, m, slots);
        var turn := Cycle(box);
        assert TurnOf(turn, State(), box.Slots()) == c;
        if turn.Err? {
          FailRound(ops, flags, m, slots, f, turn.error);
          return Err(turn.error);
        }
        if turn.value.Some? {
          YieldRound(ops, flags, m, slots, f, turn.value.value, State(), box.Slots());
          return Ok(Produced(turn.value.value));
        }
        PassRound(ops, flags, m, slots, f, State(), box.Slots());
        m, slots := State(), box.Slots();
        f := f - 1;
      }
      r := Ok(Finished);
    }
  }

  /** One round of `LoadFrom`. */
  lemma LoadRound(t: Blocks.Table, lines: seq<string>, i: nat, blockDelete: bool)
    requires i < |lines|
    ensures var e := Blocks.LoadLine(t, i + 1, lines[i], blockDelete);
      && (e.Err? ==> LoadFrom(t, lines, i, blockDelete) == Err(e.error))
      && (e.Ok? ==> LoadFrom(t, lines, i, blockDelete) == LoadFrom(e.value, lines, i + 1, blockDelete))
  {
  }

  /** Rewinding a state that holds the loaded program and the old globals gives what `LoadProgram` gives. */
  lemma LoadedRewind(m0: Machine, text: string, blockDelete: bool, m1: Machine)
    requires Blocks.Load(text, blockDelete).Ok?
    requires var l := Blocks.Load(text, blockDelete).value;
      && m1.code == l.code && m1.blocks == l.table.blocks
      && m1.percentStart == l.table.percentStart && m1.percentStop == l.table.percentStop
      && m1.store.globals == m0.store.globals
    ensures LoadProgram(m0, text, blockDelete) == Ok(Stepper.Rewind(m1))
  {
  }

  /** `values` in front of the value list of a successful `CalcExprs`. */
  function Prepend(values: seq<real>, e: Result<(string, Store, seq<real>)>): Result<(string, Store, seq<real>)> {
    if e.Ok? then Ok((e.value.0, e.value.1, values + e.value.2)) else e
  }

  lemma PrependNothing(e: Result<(string, Store, seq<real>)>)
    ensures Prepend([], e) == e
  {
    if e.Ok? {
      assert [] + e.value.2 == e.value.2;
    }
  }

  lemma PrependTwice(a: seq<real>, b: seq<real>, e: Result<(string, Store, seq<real>)>)
    ensures Prepend(a + b, e) == Prepend(a, Prepend(b, e))
  {
    if e.Ok? {
      assert (a + b) + e.value.2 == a + (b + e.value.2);
    }
  }

  /** One round of `Normaliser.ProcessComments`, on the first comment. */
  lemma CommentRound(s: Store, box: Slots, active: bool, line: string, pos: nat, len: nat, text: string)
    requires FindFirstOf(line, {';', '('}, 0) == Some(pos)
    requires Normaliser.CommentAt(line, pos) == Ok((len, text))
    ensures var rest := Erase(line, pos, len);
      && (!active ==> ProcessComments(s, box, active, line) == ProcessComments(s, box, active, rest))
      && (active && Dispatch(s, box, text).Err? ==> ProcessComments(s, box, active, line) == Err(Dispatch(s, box, text).error))
      && (active && Dispatch(s, box, text).Ok? ==>
           ProcessComments(s, box, active, line)
           == ProcessComments(Dispatch(s, box, text).value.1, Dispatch(s, box, text).value.0, active, rest))
  {
  }

  /** What a line-level method gives back, as the stepper's `Turn`: `Some` line yields, `None` passes. */
  function TurnOf(r: Result<Option<string>>, m: Machine, box: Slots): Result<Turn> {
    match r
    case Err(e) => Err(e)
    case Ok(Some(line)) => Ok(Yield(line, m, box))
    case Ok(None) => Ok(Pass(m, box))
  }

  /** What `Step` gives back, as the stepper's `Stop`. */
  function StopOf(r: Result<Outcome>, m: Machine, box: Slots): Result<Stop> {
    match r
    case Err(e) => Err(e)
    case Ok(o) => Ok(Stop(o, m, box))
  }

  /** A round that passes leaves the rest of `Run` to the next line, with one unit of fuel less. */
  lemma PassRound(ops: FloatOps, flags: Flags, m: Machine, box: Slots, fuel: nat, m': Machine, box': Slots)
    requires m.cursor < |m.code| && fuel > 0
    requires Cycle(ops, flags, m, box) == Ok(Pass(m', box'))
    ensures Run(ops, flags, m, box, fuel) == Run(ops, flags, m', box', fuel - 1)
  {
  }

  /** A round that fails ends `Run` with its error. */
  lemma FailRound(ops: FloatOps, flags: Flags, m: Machine, box: Slots, fuel: nat, e: Error)
    requires m.cursor < |m.code| && fuel > 0
    requires Cycle(ops, flags, m, box) == Err(e)
    ensures Run(ops, flags, m, box, fuel) == Err(e)
  {
  }

  /** A round that hands out a line ends `Run` with that line. */
  lemma YieldRound(ops: FloatOps, flags: Flags, m: Machine, box: Slots, fuel: nat, line: string, m': Machine, box': Slots)
    requires m.cursor < |m.code| && fuel > 0
    requires Cycle(ops, flags, m, box) == Ok(Yield(line, m', box'))
    ensures Run(ops, flags, m, box, fuel) == Ok(Stop(Produced(line), m', box'))
  {
  }
}
