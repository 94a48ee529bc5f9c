/**
 * The line pipeline of the interpreter: the output switches, the part of
 * the work that turns a normalised G-code line into its output text, and
 * `_ParseLine`, the whole pipeline on one line without O-word handling.
 */
module Lines {
  import opened Errors
  import opened Text
  import opened Parameters
  import opened Extra
  import opened Normaliser
  import opened Operators
  import opened Expressions

  /** Block delete, pretty printing and upper case output. */
  datatype Flags = Flags(blockDelete: bool, pretty: bool, upper: bool)

  /** The switches a new interpreter starts with. */
  const DEFAULT_FLAGS: Flags := Flags(false, true, true)

  /** Precision of parameters resolved in an ordinary line while stepping. */
  const STEP_PRECISION: nat := 3

  /** Precision `_ParseLine` uses when none is given. */
  const PARSE_PRECISION: nat := 4

  /** The scratch counter at the start of every line: the first scratch value is `#5602`. */
  function Fresh(s: Store): (t: Store)
    ensures t.globals == s.globals && t.locals == s.locals
    ensures t.scratch == INTERNAL_PARAMETERS_START - 1
  {
    s.(scratch := INTERNAL_PARAMETERS_START - 1)
  }

  /**
   * Operators simplified, expressions calculated, parameters resolved: the
   * result holds neither a parameter reference nor a bracket, and the
   * scratch counter has not moved back.
   */
  function Resolve(ops: FloatOps, s: Store, line: string, prec: nat): (r: Result<(string, Store)>)
    ensures r.Ok? ==> Avoids(r.value.0, {'#', '['})
    ensures r.Ok? ==> s.scratch <= r.value.1.scratch
  {
    var (flat, s1, _) :- CalcExprs(ops, s, SimplifyOperators(line));
    var (text, s2) :- ResolveParameters(s1, flat, prec);
    ResolvedHasNoReference(s1, flat, prec);
    ResolveAvoids(s1, flat, prec, {'['});
    Ok((text, s2))
  }

  /**
   * `_ParseLine`: the line with its comments carried out (into the mailbox)
   * and removed, prepared, without its N-word, resolved at precision `prec`
   * and formatted; also the mailbox and the store afterwards.
   */
  function ParseLine(ops: FloatOps, flags: Flags, s: Store, box: Slots, line: string, prec: nat)
    : (r: Result<(string, Slots, Store)>)
  {
    var (stripped, box', s1) :- ProcessComments(Fresh(s), box, true, line);
    var prepared :- PrepareLine(stripped, flags.blockDelete);
    var bare :- RemoveNword(prepared);
    var (resolved, s2) :- Resolve(ops, s1, bare, prec);
    Ok((FormatPretty(resolved, flags.pretty, flags.upper), box', s2))
  }

  /**
   * A parsed line is plain G-code: no parameter reference, no bracket, no
   * digit run into a letter when pretty printing, no lowercase letter when
   * converting to upper case.
   */
  lemma ParseLinePlain(ops: FloatOps, flags: Flags, s: Store, box: Slots, line: string, prec: nat)
    requires ParseLine(ops, flags, s, box, line, prec).Ok?
    ensures var out := ParseLine(ops, flags, s, box, line, prec).value.0;
      && Avoids(out, {'#', '['})
      && (flags.pretty ==> forall k :: 1 <= k < |out| ==> !WordBoundary(out, k))
      && (flags.upper ==> forall k :: 0 <= k < |out| ==> !IsLower(out[k]))
  {
    var (stripped, box', s1) := ProcessComments(Fresh(s), box, true, line).value;
    var prepared := PrepareLine(stripped, flags.blockDelete).value;
    var bare := RemoveNword(prepared).value;
    var (resolved, s2) := Resolve(ops, s1, bare, prec).value;
    FormatPrettyShape(resolved, flags.pretty, flags.upper, {'#', '['});
  }
}
