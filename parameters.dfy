/**
 * The parameter store and the text forms that refer to it.
 *
 * Layout: numbers 1..30 are the local frame, kept apart from `globals`;
 * every other number k lives in `globals[k-1]`. The public range ends at
 * 5602; the 50 slots above it are scratch space for values computed on the
 * current line, and `scratch` is the 0-based index of the next one
 * (initially 5601, so the first scratch value is `#5602`).
 *
 * A reference `#...#n` with m hashes is dereferenced m times: the number
 * is rounded to an index, the value at that index read, and so on.
 */
module Parameters {
  import opened Errors
  import opened Text
  import opened Numerals

  const TOTAL_CNC_PARAMETERS: nat := 5602
  const TOTAL_LOCAL_PARAMETERS: nat := 30
  const TOTAL_INTERNAL_PARAMETERS: nat := 50
  const TOTAL_PARAMETERS: nat := TOTAL_CNC_PARAMETERS + TOTAL_INTERNAL_PARAMETERS
  const INTERNAL_PARAMETERS_START: nat := TOTAL_CNC_PARAMETERS
  const MAX_STACK_LEVELS: nat := 1000
  const RETURN_VALUE_PARAMETER: nat := 5000

  datatype Space = Space(globals: seq<real>, locals: seq<real>, scratch: nat)

  predicate WellFormed(s: Space) {
    && |s.globals| == TOTAL_PARAMETERS
    && |s.locals| == TOTAL_LOCAL_PARAMETERS
    && INTERNAL_PARAMETERS_START - 1 <= s.scratch < TOTAL_PARAMETERS
  }

  type Store = s: Space | WellFormed(s)
    witness Space(seq(TOTAL_PARAMETERS, _ => 0.0), seq(TOTAL_LOCAL_PARAMETERS, _ => 0.0), INTERNAL_PARAMETERS_START - 1)

  function ZeroFrame(): (f: seq<real>)
    ensures |f| == TOTAL_LOCAL_PARAMETERS
    ensures forall i :: 0 <= i < |f| ==> f[i] == 0.0
  {
    seq(TOTAL_LOCAL_PARAMETERS, _ => 0.0)
  }

  /** The value of parameter `idx` (1-based). */
  function Get(s: Store, idx: nat): real
    requires 1 <= idx <= TOTAL_PARAMETERS
  {
    if idx <= TOTAL_LOCAL_PARAMETERS then s.locals[idx - 1] else s.globals[idx - 1]
  }

  /** The store with parameter `idx` set to `v`. */
  function Put(s: Store, idx: nat, v: real): (r: Store)
    requires 1 <= idx <= TOTAL_PARAMETERS
    ensures Get(r, idx) == v
    ensures forall j :: 1 <= j <= TOTAL_PARAMETERS && j != idx ==> Get(r, j) == Get(s, j)
    ensures r.scratch == s.scratch
    ensures idx <= TOTAL_LOCAL_PARAMETERS ==> r.globals == s.globals
    ensures idx > TOTAL_LOCAL_PARAMETERS ==> r.locals == s.locals
  {
    if idx <= TOTAL_LOCAL_PARAMETERS then s.(locals := s.locals[idx - 1 := v])
    else s.(globals := s.globals[idx - 1 := v])
  }

  /** `GetParam(n)`: the public read, range 1..5602. */
  function GetParam(s: Store, n: nat): (r: Result<real>)
    ensures r.Err? <==> n == 0 || n > TOTAL_CNC_PARAMETERS
    ensures r.Err? ==> r.error == ParameterOutOfRange
    ensures r.Ok? && n <= TOTAL_LOCAL_PARAMETERS ==> r.value == s.locals[n - 1]
    ensures r.Ok? && n > TOTAL_LOCAL_PARAMETERS ==> r.value == s.globals[n - 1]
  {
    if n == 0 || n > TOTAL_CNC_PARAMETERS then Err(ParameterOutOfRange) else Ok(Get(s, n))
  }

  /** `SetParam(n, v)`: the public write, range 1..5602. */
  function SetParam(s: Store, n: nat, v: real): (r: Result<Store>)
    ensures r.Err? <==> n == 0 || n > TOTAL_CNC_PARAMETERS
    ensures r.Err? ==> r.error == ParameterOutOfRange
    ensures r.Ok? && n <= TOTAL_LOCAL_PARAMETERS ==>
      r.value.locals == s.locals[n - 1 := v] && r.value.globals == s.globals
    ensures r.Ok? && n > TOTAL_LOCAL_PARAMETERS ==>
      r.value.globals == s.globals[n - 1 := v] && r.value.locals == s.locals
    ensures r.Ok? ==> r.value.scratch == s.scratch
  {
    if n == 0 || n > TOTAL_CNC_PARAMETERS then Err(ParameterOutOfRange) else Ok(Put(s, n, v))
  }

  /** Writing a parameter and reading it back gives the written value, and no other parameter changes. */
  lemma SetThenGet(s: Store, n: nat, v: real, m: nat)
    requires SetParam(s, n, v).Ok?
    ensures GetParam(SetParam(s, n, v).value, n) == Ok(v)
    ensures m != n ==> GetParam(SetParam(s, n, v).value, m) == GetParam(s, m)
  {
  }

  /** The return-value parameter is a global one within the public range. */
  lemma ReturnValueIsGlobal()
    ensures TOTAL_LOCAL_PARAMETERS < RETURN_VALUE_PARAMETER <= TOTAL_CNC_PARAMETERS
    ensures INTERNAL_PARAMETERS_START + TOTAL_INTERNAL_PARAMETERS == TOTAL_PARAMETERS
  {
  }

  /** The index a (dereferenced) value names: rounded, and between 1 and 5652. */
  function IndexOf(v: real): (r: Result<nat>)
    ensures r.Ok? ==> 1 <= r.value <= TOTAL_PARAMETERS && r.value == Round(v)
    ensures r.Err? ==> r.error == NoSuchParameter && (Round(v) <= 0 || Round(v) > TOTAL_PARAMETERS)
  {
    var i := Round(v);
    if i <= 0 || i > TOTAL_PARAMETERS then Err(NoSuchParameter) else Ok(i)
  }

  /**
   * The index that `nref` hashes in front of the number `v` finally name:
   * `#v` names `v`, `##v` names the value of `#v`, and so on. Every index on
   * the way must exist.
   */
  function Target(s: Store, v: real, nref: nat): (r: Result<nat>)
    requires nref >= 1
    ensures r.Ok? ==> 1 <= r.value <= TOTAL_PARAMETERS
    ensures nref == 1 ==> r == IndexOf(v)
    ensures r.Err? ==> r.error == NoSuchParameter
    decreases nref
  {
    var idx :- IndexOf(v);
    if nref == 1 then Ok(idx) else Target(s, Get(s, idx), nref - 1)
  }

  /** Number of consecutive '#' characters starting at index `i`. */
  function HashRun(s: string, i: nat): (n: nat)
    requires i <= |s|
    ensures i + n <= |s|
    ensures forall k :: i <= k < i + n ==> s[k] == '#'
    ensures i + n < |s| ==> s[i + n] != '#'
    decreases |s| - i
  {
    if i < |s| && s[i] == '#' then 1 + HashRun(s, i + 1) else 0
  }

  /** A number follows the run of hashes that starts at `pos`. */
  predicate NumberFollows(line: string, pos: nat)
    requires pos <= |line|
  {
    pos + HashRun(line, pos) < |line| && IsDigit(line[pos + HashRun(line, pos)])
  }

  /** An assigned value may start at `q`: a digit, '.' or '-'. */
  predicate ValueStarts(line: string, q: nat) {
    q < |line| && (IsDigit(line[q]) || line[q] == '.' || line[q] == '-')
  }

  /** The value assigned by the text at `q`: the signed number there, or 0 when none can be read. */
  function AssignedValue(line: string, q: nat): real
    requires q <= |line|
  {
    match ReadSigned(line, q)
    case None => 0.0
    case Some((v, _)) => v
  }

  /** The length of the value text at `q`: that of the signed number, or nothing. */
  function AssignedLength(line: string, q: nat): (n: nat)
    requires q <= |line|
    ensures q + n <= |line|
  {
    match ReadSigned(line, q)
    case None => 0
    case Some((_, n)) => n
  }

  /**
   * Reading the reference that starts at the '#' at `pos`: its value and
   * the length of its text (hashes and number).
   */
  function ReadParameter(s: Store, line: string, pos: nat): (r: Result<(real, nat)>)
    requires pos < |line| && line[pos] == '#'
    ensures r.Ok? ==> 2 <= r.value.1 && pos + r.value.1 <= |line|
    ensures r.Err? ==> r.error in {BadParameterIndex, NoSuchParameter}
  {
    if !NumberFollows(line, pos) then Err(BadParameterIndex)
    else
      var nref := HashRun(line, pos);
      var (index, size) := ReadLiteral(line, pos + nref).value;
      var idx :- Target(s, index, nref);
      Ok((Get(s, idx), nref + size))
  }

  /**
   * Carrying out the assignment `#...#n=value` that starts at `pos`: the
   * new store and the length of the assignment's text. One character (the
   * '=') is skipped after the number; the value must start with a digit,
   * '.' or '-', and when no number can be read from it the value is 0 and
   * only the text up to the '=' counts.
   */
  function AssignParameter(s: Store, line: string, pos: nat): (r: Result<(Store, nat)>)
    requires pos < |line| && line[pos] == '#'
    ensures r.Ok? ==> 1 <= r.value.1 && pos + r.value.1 <= |line|
    ensures r.Ok? ==> r.value.0.scratch == s.scratch
    ensures r.Err? ==> r.error in {BadParameterIndex, BadAssignedValue, NoSuchParameter}
  {
    if !NumberFollows(line, pos) then Err(BadParameterIndex)
    else
      var nref := HashRun(line, pos);
      var (index, size) := ReadLiteral(line, pos + nref).value;
      var q := pos + nref + size + 1;
      if !ValueStarts(line, q) then Err(BadAssignedValue)
      else
        var idx :- Target(s, index, nref);
        Ok((Put(s, idx, AssignedValue(line, q)), q + AssignedLength(line, q) - pos))
  }

  /**
   * What a reference reads: with no number after its hashes it is a bad
   * index; otherwise the parameter its hashes and number name, and its
   * text spans the hashes and the number.
   */
  lemma {:induction false} ReadParameterValue(s: Store, line: string, pos: nat)
    requires pos < |line| && line[pos] == '#'
    ensures !NumberFollows(line, pos) ==> ReadParameter(s, line, pos) == Err(BadParameterIndex)
    ensures NumberFollows(line, pos) ==>
      var nref := HashRun(line, pos);
      var lit := ReadLiteral(line, pos + nref).value;
      var target := Target(s, lit.0, nref);
      ReadParameter(s, line, pos) == if target.Ok? then Ok((Get(s, target.value), nref + lit.1)) else Err(target.error)
  {
  }

  /**
   * What an assignment writes: the parameter its hashes and number name
   * takes the signed number after the '=' (0 when none can be read), and
   * nothing else in the store changes.
   */
  lemma {:induction false} AssignParameterStore(s: Store, line: string, pos: nat)
    requires pos < |line| && line[pos] == '#'
    ensures !NumberFollows(line, pos) ==> AssignParameter(s, line, pos) == Err(BadParameterIndex)
    ensures NumberFollows(line, pos) ==>
      var nref := HashRun(line, pos);
      var lit := ReadLiteral(line, pos + nref).value;
      var q := pos + nref + lit.1 + 1;
      var target := Target(s, lit.0, nref);
      AssignParameter(s, line, pos) ==
        if !ValueStarts(line, q) then Err(BadAssignedValue)
        else if target.Ok? then Ok((Put(s, target.value, AssignedValue(line, q)), q + AssignedLength(line, q) - pos))
        else Err(target.error)
  {
  }

  /** The parameter a successful assignment at `pos` writes. */
  function AssignedIndex(s: Store, line: string, pos: nat): (idx: nat)
    requires pos < |line| && line[pos] == '#' && AssignParameter(s, line, pos).Ok?
    ensures 1 <= idx <= TOTAL_PARAMETERS
  {
    var nref := HashRun(line, pos);
    Target(s, ReadLiteral(line, pos + nref).value.0, nref).value
  }

  /** A successful assignment writes its own parameter and leaves every other one as it was. */
  lemma AssignWrites(s: Store, line: string, pos: nat)
    requires pos < |line| && line[pos] == '#' && AssignParameter(s, line, pos).Ok?
    ensures var q := pos + HashRun(line, pos) + ReadLiteral(line, pos + HashRun(line, pos)).value.1 + 1;
      q <= |line| && Get(AssignParameter(s, line, pos).value.0, AssignedIndex(s, line, pos)) == AssignedValue(line, q)
    ensures forall j :: 1 <= j <= TOTAL_PARAMETERS && j != AssignedIndex(s, line, pos) ==>
      Get(AssignParameter(s, line, pos).value.0, j) == Get(s, j)
  {
  }

  /** One more hash dereferences once more: the index named by `m + 1` hashes is the one the value of the `m`-hash target names. */
  lemma {:induction false} TargetOneMore(s: Store, v: real, m: nat)
    requires m >= 1
    ensures Target(s, v, m + 1) == if Target(s, v, m).Ok? then IndexOf(Get(s, Target(s, v, m).value)) else Target(s, v, m)
    decreases m
  {
    match IndexOf(v)
    case Err(_) =>
    case Ok(idx) =>
      if m > 1 {
        TargetOneMore(s, Get(s, idx), m - 1);
      }
  }

  /**
   * With one hash the target does not depend on the store, so reading
   * the reference of an assignment after it gives the assigned value.
   */
  lemma {:induction false} AssignThenRead(s: Store, line: string, pos: nat)
    requires pos + 1 < |line| && line[pos] == '#' && line[pos + 1] != '#'
    requires AssignParameter(s, line, pos).Ok?
    ensures var q := pos + 1 + ReadLiteral(line, pos + 1).value.1 + 1;
      q <= |line| && ReadParameter(AssignParameter(s, line, pos).value.0, line, pos).Ok?
      && ReadParameter(AssignParameter(s, line, pos).value.0, line, pos).value.0 == AssignedValue(line, q)
  {
    assert HashRun(line, pos + 1) == 0;
    assert HashRun(line, pos) == 1;
    AssignWrites(s, line, pos);
    ReadAssigned(s, line, pos, AssignParameter(s, line, pos).value.0);
  }

  /** With one hash, the reference of an assignment names in any store the parameter the assignment wrote. */
  lemma ReadAssigned(s: Store, line: string, pos: nat, t: Store)
    requires pos + 1 < |line| && line[pos] == '#' && line[pos + 1] != '#'
    requires AssignParameter(s, line, pos).Ok?
    ensures ReadParameter(t, line, pos).Ok? && ReadParameter(t, line, pos).value.0 == Get(t, AssignedIndex(s, line, pos))
  {
    assert HashRun(line, pos + 1) == 0;
    assert HashRun(line, pos) == 1;
    var lit := ReadLiteral(line, pos + 1).value;
    assert Target(t, lit.0, 1) == Target(s, lit.0, 1);
    ReadParameterValue(t, line, pos);
  }

  /**
   * `t` agrees with `s` on the local frame and on every global parameter
   * below the scratch area (`#31`..`#5601`), and has not moved the scratch
   * counter back: what evaluating expressions is allowed to change.
   */
  predicate Keeps(s: Store, t: Store) {
    && t.locals == s.locals
    && t.globals[..INTERNAL_PARAMETERS_START - 1] == s.globals[..INTERNAL_PARAMETERS_START - 1]
    && s.scratch <= t.scratch
  }

  /** The text of a reference to parameter `k`. */
  function Reference(k: nat): (r: string)
    ensures |r| >= 2 && r[0] == '#' && r[1..] == NatToString(k)
    ensures forall i :: 1 <= i < |r| ==> IsDigit(r[i])
  {
    "#" + NatToString(k)
  }

  /**
   * Storing `value` in the next scratch parameter and putting a reference
   * to it in place of `line[start..start+len]`. The slot is written before
   * the counter is checked, so the 51st value on a line is an error.
   */
  function ReplaceWithParameter(s: Store, value: real, line: string, start: nat, len: nat): (r: Result<(string, Store)>)
    requires start + len <= |line|
    ensures r.Err? <==> s.scratch + 1 >= TOTAL_PARAMETERS
    ensures r.Err? ==> r.error == InternalParametersExhausted
    ensures r.Ok? ==> r.value.1.scratch == s.scratch + 1 && r.value.1.locals == s.locals
    ensures r.Ok? ==> r.value.1.globals == s.globals[s.scratch := value]
    ensures r.Ok? ==> r.value.0 == line[..start] + Reference(s.scratch + 1) + line[start + len..]
    ensures r.Ok? ==> Keeps(s, r.value.1)
  {
    var k := s.scratch + 1;
    if k >= TOTAL_PARAMETERS then Err(InternalParametersExhausted)
    else
      var t := Space(s.globals[s.scratch := value], s.locals, k);
      assert t.globals[..INTERNAL_PARAMETERS_START - 1] == s.globals[..INTERNAL_PARAMETERS_START - 1];
      Ok((line[..start] + Reference(k) + line[start + len..], t))
  }

  /**
   * Scratch numbering starts inside the public range: the first value
   * stored on a line lands in `#5602`, the last parameter `SetParam` and
   * `GetParam` accept, whatever was set there before.
   */
  lemma FirstScratchIsLastPublic(s: Store, value: real, line: string, start: nat, len: nat)
    requires s.scratch == INTERNAL_PARAMETERS_START - 1 && start + len <= |line|
    ensures ReplaceWithParameter(s, value, line, start, len).Ok?
    ensures GetParam(ReplaceWithParameter(s, value, line, start, len).value.1, TOTAL_CNC_PARAMETERS) == Ok(value)
    ensures ReplaceWithParameter(s, value, line, start, len).value.0
         == line[..start] + "#5602" + line[start + len..]
  {
    FirstScratchText();
  }

  /** The text of a reference to the first scratch parameter. */
  lemma FirstScratchText()
    ensures Reference(INTERNAL_PARAMETERS_START) == "#5602"
  {
    assert NatToString(5602) == "5602" by {
      assert NatToString(5) == "5";
      assert NatToString(56) == NatToString(5) + [DigitChar(6)];
      assert NatToString(560) == NatToString(56) + [DigitChar(0)];
    }
  }

  /** The text of `Reference(k)`, followed by a non-number, scans as one hash and the number `k`. */
  lemma ScanReference(pre: string, k: nat, post: string)
    requires post != [] ==> !IsDigit(post[0]) && post[0] != '.'
    ensures var l := pre + Reference(k) + post;
            && HashRun(l, |pre|) == 1
            && |pre| + 1 < |l| && IsDigit(l[|pre| + 1])
            && ReadLiteral(l, |pre| + 1) == Some((k as real, |Reference(k)| - 1))
  {
    var l := pre + Reference(k) + post;
    var digits := NatToString(k);
    assert l == (pre + "#") + digits + post;
    assert IsDigit(l[|pre| + 1]);
    assert HashRun(l, |pre| + 1) == 0;
    ReadNatToString(pre + "#", k, post);
  }

  /** A reference `#k` not followed by a digit or '.' reads parameter `k`. */
  lemma ReadReference(s: Store, pre: string, k: nat, post: string)
    requires 1 <= k <= TOTAL_PARAMETERS
    requires post != [] ==> !IsDigit(post[0]) && post[0] != '.'
    ensures var l := pre + Reference(k) + post;
      |pre| < |l| && l[|pre|] == '#' && ReadParameter(s, l, |pre|) == Ok((Get(s, k), |Reference(k)|))
  {
    var l := pre + Reference(k) + post;
    ScanReference(pre, k, post);
    assert Round(k as real) == k;
    assert Target(s, k as real, 1) == Ok(k);
  }

  /**
   * The reference written by `ReplaceWithParameter` reads back exactly the
   * stored value, as long as it is not followed by more digits or a '.'.
   */
  lemma ReplaceThenRead(s: Store, value: real, line: string, start: nat, len: nat, l: string, t: Store)
    requires start + len <= |line|
    requires ReplaceWithParameter(s, value, line, start, len) == Ok((l, t))
    requires start + len < |line| ==> !IsDigit(line[start + len]) && line[start + len] != '.'
    ensures ReadParameter(t, l, start) == Ok((value, |Reference(s.scratch + 1)|))
  {
    var k := s.scratch + 1;
    ReadReference(t, line[..start], k, line[start + len..]);
    assert l == line[..start] + Reference(k) + line[start + len..];
    assert k > TOTAL_LOCAL_PARAMETERS && k - 1 == s.scratch;
    assert Get(t, k) == value;
  }

  // ------------------------------------------------------------------
  // Resolving a line: every read first, then the assignments in order.
  // ------------------------------------------------------------------

  /**
   * One reference of the first pass, at the '#' at `p`: a reference
   * followed by '=' is left in place and counted as an assignment, any
   * other is replaced by its rendered value. The result is the new line,
   * the index the scan goes on from, and whether it was an assignment.
   */
  function ReadStep(s: Store, line: string, prec: nat, p: nat): (r: Result<(string, nat, bool)>)
    requires p < |line| && line[p] == '#'
    ensures r.Ok? ==> var (line', next, counted) := r.value;
      && p < next <= |line'| && |line'| - next < |line| - p && line'[..p] == line[..p]
      && (counted ==> line' == line && next < |line| && line[next] == '=')
      && (!counted ==> forall i :: p <= i < next ==> line'[i] != '#')
    ensures r.Err? ==> r.error in {BadParameterIndex, NoSuchParameter}
  {
    var (value, len) :- ReadParameter(s, line, p);
    if p + len < |line| && line[p + len] == '=' then Ok((line, p + len, true))
    else
      var text := Render(value, prec);
      SpliceNumber(line, p, len, text);
      Ok((Splice(line, p, len, text), p + |text|, false))
  }

  /** Putting a number in place of `len` characters at `start`: the text before stays, and the number holds no '#'. */
  lemma {:induction false} SpliceNumber(s: string, start: nat, len: nat, t: string)
    requires start + len <= |s| && forall i :: 0 <= i < |t| ==> NumberChar(t[i])
    ensures var r := Splice(s, start, len, t);
      && start + |t| <= |r| && |r| - (start + |t|) == |s| - (start + len) && r[..start] == s[..start]
      && forall i :: start <= i < start + |t| ==> r[i] != '#'
  {
    SpliceAt(s, start, len, t);
  }

  /**
   * First pass from `pos`: each reference not followed by '=' is replaced
   * by its rendered value; references followed by '=' are counted and
   * skipped. All reads see the store as it was before the line.
   */
  function ResolveReads(s: Store, line: string, prec: nat, pos: nat, assignments: nat): (r: Result<(string, nat)>)
    requires pos <= |line|
    ensures r.Ok? ==> r.value.1 >= assignments
    ensures r.Err? ==> r.error in {BadParameterIndex, NoSuchParameter}
    decreases |line| - pos
  {
    match FindFirstOf(line, {'#'}, pos)
    case None => Ok((line, assignments))
    case Some(p) =>
      var (line', next, counted) :- ReadStep(s, line, prec, p);
      ResolveReads(s, line', prec, next, if counted then assignments + 1 else assignments)
  }

  /** Second pass from `pos`: each '#' starts an assignment, which is carried out and erased. */
  function ResolveWrites(s: Store, line: string, pos: nat): (r: Result<(string, Store)>)
    requires pos <= |line|
    ensures r.Ok? ==> r.value.1.scratch == s.scratch
    ensures r.Err? ==> r.error in {BadParameterIndex, BadAssignedValue, NoSuchParameter}
    decreases |line| - pos
  {
    match FindFirstOf(line, {'#'}, pos)
    case None => Ok((line, s))
    case Some(p) =>
      var (s', len) :- AssignParameter(s, line, p);
      ResolveWrites(s', Erase(line, p, len), p)
  }

  /** `_ResolveParameters(line, prec)`: the resolved line and the store after its assignments. */
  function ResolveParameters(s: Store, line: string, prec: nat): (r: Result<(string, Store)>)
    ensures r.Ok? ==> r.value.1.scratch == s.scratch
  {
    var (text, assignments) :- ResolveReads(s, line, prec, 0, 0);
    if assignments > 0 then ResolveWrites(s, text, 0) else Ok((text, s))
  }

  /** The text before `pos` stays, and when no assignment is found no reference is left from `pos` on. */
  lemma {:induction false} ReadsClear(s: Store, line: string, prec: nat, pos: nat, assignments: nat)
    requires pos <= |line|
    ensures var r := ResolveReads(s, line, prec, pos, assignments);
      r.Ok? ==> && |r.value.0| >= pos && r.value.0[..pos] == line[..pos]
                && (r.value.1 == assignments ==> forall i :: pos <= i < |r.value.0| ==> r.value.0[i] != '#')
    decreases |line| - pos
  {
    match FindFirstOf(line, {'#'}, pos)
    case None =>
      assert ResolveReads(s, line, prec, pos, assignments) == Ok((line, assignments));
    case Some(p) =>
      match ReadStep(s, line, prec, p)
      case Err(_) =>
      case Ok((line', next, counted)) =>
        var count := if counted then assignments + 1 else assignments;
        ReadsClear(s, line', prec, next, count);
        var r := ResolveReads(s, line', prec, next, count);
        assert ResolveReads(s, line, prec, pos, assignments) == r;
        match r
        case Err(_) =>
        case Ok((text, n)) =>
          SamePrefix(text, line', next, p);
          SamePrefix(text, line, p, pos);
          if n == assignments {
            forall i | pos <= i < |text|
              ensures text[i] != '#'
            {
              if i < next {
                assert text[i] == text[..next][i] == line'[i];
                if i < p {
                  assert line'[i] == line'[..p][i] == line[..p][i];
                }
              }
            }
          }
  }

  /** The text before `pos` stays, and no reference is left from `pos` on. */
  lemma {:induction false} WritesClear(s: Store, line: string, pos: nat)
    requires pos <= |line|
    ensures var r := ResolveWrites(s, line, pos);
      r.Ok? ==> && |r.value.0| >= pos && r.value.0[..pos] == line[..pos]
                && forall i :: pos <= i < |r.value.0| ==> r.value.0[i] != '#'
    decreases |line| - pos
  {
    match FindFirstOf(line, {'#'}, pos)
    case None =>
      assert ResolveWrites(s, line, pos) == Ok((line, s));
    case Some(p) =>
      match AssignParameter(s, line, p)
      case Err(_) =>
      case Ok((s', len)) =>
        var rest := Erase(line, p, len);
        WritesClear(s', rest, p);
        WritesStep(s, line, pos, p, s', len);
        var r := ResolveWrites(s', rest, p);
        match r
        case Err(_) =>
        case Ok((text, _)) =>
          assert rest[..p] == line[..p];
          SamePrefix(text, line, p, pos);
          forall i | pos <= i < p
            ensures text[i] != '#'
          {
            assert text[i] == text[..p][i] == line[..p][i];
          }
  }

  /** A resolved line holds no parameter reference: every read is replaced by its value and every assignment erased. */
  lemma ResolvedHasNoReference(s: Store, line: string, prec: nat)
    ensures ResolveParameters(s, line, prec).Ok? ==>
      forall i :: 0 <= i < |ResolveParameters(s, line, prec).value.0| ==> ResolveParameters(s, line, prec).value.0[i] != '#'
  {
    ReadsClear(s, line, prec, 0, 0);
    match ResolveReads(s, line, prec, 0, 0)
    case Err(_) =>
    case Ok((text, assignments)) =>
      if assignments > 0 {
        WritesClear(s, text, 0);
      }
  }

  /** Characters that resolution never writes: neither '#' nor a character of a rendered number. */
  predicate Unrendered(cs: set<char>) {
    '#' !in cs && forall c :: c in cs ==> !NumberChar(c)
  }

  /** One read introduces only the characters of a rendered number. */
  lemma ReadStepAvoids(s: Store, line: string, prec: nat, p: nat, cs: set<char>)
    requires p < |line| && line[p] == '#' && Avoids(line, cs) && Unrendered(cs)
    ensures ReadStep(s, line, prec, p).Ok? ==> Avoids(ReadStep(s, line, prec, p).value.0, cs)
  {
    match ReadParameter(s, line, p)
    case Err(_) =>
    case Ok((value, len)) =>
      if !(p + len < |line| && line[p + len] == '=') {
        SpliceAvoids(line, p, len, Render(value, prec), cs);
      }
  }

  lemma {:induction false} ReadsAvoid(s: Store, line: string, prec: nat, pos: nat, assignments: nat, cs: set<char>)
    requires pos <= |line| && Avoids(line, cs) && Unrendered(cs)
    ensures ResolveReads(s, line, prec, pos, assignments).Ok? ==>
      Avoids(ResolveReads(s, line, prec, pos, assignments).value.0, cs)
    decreases |line| - pos
  {
    match FindFirstOf(line, {'#'}, pos)
    case None =>
    case Some(p) =>
      ReadStepAvoids(s, line, prec, p, cs);
      match ReadStep(s, line, prec, p)
      case Err(_) =>
      case Ok((line', next, counted)) =>
        ReadsAvoid(s, line', prec, next, if counted then assignments + 1 else assignments, cs);
  }

  lemma {:induction false} WritesAvoid(s: Store, line: string, pos: nat, cs: set<char>)
    requires pos <= |line| && Avoids(line, cs)
    ensures ResolveWrites(s, line, pos).Ok? ==> Avoids(ResolveWrites(s, line, pos).value.0, cs)
    decreases |line| - pos
  {
    match FindFirstOf(line, {'#'}, pos)
    case None =>
    case Some(p) =>
      match AssignParameter(s, line, p)
      case Err(_) =>
      case Ok((s', len)) =>
        var rest := Erase(line, p, len);
        assert Avoids(rest, cs);
        WritesAvoid(s', rest, p, cs);
        WritesStep(s, line, pos, p, s', len);
  }

  /** A line without '=' holds no assignment: the first pass counts none. */
  lemma {:induction false} ReadsUncounted(s: Store, line: string, prec: nat, pos: nat, assignments: nat)
    requires pos <= |line| && Avoids(line, {'='})
    ensures ResolveReads(s, line, prec, pos, assignments).Ok? ==>
      ResolveReads(s, line, prec, pos, assignments).value.1 == assignments
    decreases |line| - pos
  {
    match FindFirstOf(line, {'#'}, pos)
    case None =>
    case Some(p) =>
      ReadStepAvoids(s, line, prec, p, {'='});
      match ReadStep(s, line, prec, p)
      case Err(_) =>
      case Ok((line', next, counted)) =>
        ReadsUncounted(s, line', prec, next, assignments);
  }

  /** Resolving a line without '=' changes no parameter. */
  lemma {:induction false} ReadOnlyLineKeepsStore(s: Store, line: string, prec: nat)
    requires Avoids(line, {'='})
    ensures ResolveParameters(s, line, prec).Ok? ==> ResolveParameters(s, line, prec).value.1 == s
  {
    ReadsUncounted(s, line, prec, 0, 0);
  }

  /** The parameters the second pass writes from `pos` on, one per assignment it carries out. */
  function Written(s: Store, line: string, pos: nat): (w: set<nat>)
    requires pos <= |line|
    ensures forall j :: j in w ==> 1 <= j <= TOTAL_PARAMETERS
    decreases |line| - pos
  {
    match FindFirstOf(line, {'#'}, pos)
    case None => {}
    case Some(p) =>
      match AssignParameter(s, line, p)
      case Err(_) => {}
      case Ok((s', len)) => {AssignedIndex(s, line, p)} + Written(s', Erase(line, p, len), p)
  }

  /** The second pass changes no parameter other than those its assignments write. */
  lemma {:induction false} WritesFrame(s: Store, line: string, pos: nat)
    requires pos <= |line|
    ensures ResolveWrites(s, line, pos).Ok? ==>
      forall j :: 1 <= j <= TOTAL_PARAMETERS && j !in Written(s, line, pos) ==>
        Get(ResolveWrites(s, line, pos).value.1, j) == Get(s, j)
    decreases |line| - pos
  {
    match FindFirstOf(line, {'#'}, pos)
    case None =>
    case Some(p) =>
      match AssignParameter(s, line, p)
      case Err(_) =>
      case Ok((s', len)) =>
        AssignWrites(s, line, p);
        WritesFrame(s', Erase(line, p, len), p);
  }

  /**
   * Resolving a line changes no parameter other than those the assignments
   * left by the first pass write.
   */
  lemma ResolveFrame(s: Store, line: string, prec: nat)
    ensures ResolveParameters(s, line, prec).Ok? ==>
      && ResolveReads(s, line, prec, 0, 0).Ok?
      && forall j :: 1 <= j <= TOTAL_PARAMETERS && j !in Written(s, ResolveReads(s, line, prec, 0, 0).value.0, 0) ==>
        Get(ResolveParameters(s, line, prec).value.1, j) == Get(s, j)
  {
    match ResolveReads(s, line, prec, 0, 0)
    case Err(_) =>
    case Ok((text, _)) =>
      WritesFrame(s, text, 0);
  }

  /** One round of the second pass. */
  lemma WritesStep(s: Store, line: string, pos: nat, p: nat, s': Store, len: nat)
    requires pos <= |line| && FindFirstOf(line, {'#'}, pos) == Some(p)
    requires AssignParameter(s, line, p) == Ok((s', len))
    ensures ResolveWrites(s, line, pos) == ResolveWrites(s', Erase(line, p, len), p)
  {
  }

  /** A failed assignment ends the second pass with its error. */
  lemma WritesFail(s: Store, line: string, pos: nat, p: nat)
    requires pos <= |line| && FindFirstOf(line, {'#'}, pos) == Some(p)
    requires AssignParameter(s, line, p).Err?
    ensures ResolveWrites(s, line, pos) == Err(AssignParameter(s, line, p).error)
  {
  }

  /** With no reference left the second pass is done. */
  lemma WritesDone(s: Store, line: string, pos: nat)
    requires pos <= |line| && FindFirstOf(line, {'#'}, pos).None?
    ensures ResolveWrites(s, line, pos) == Ok((line, s))
  {
  }

  /** Resolution adds no character other than those of rendered numbers. */
  lemma ResolveAvoids(s: Store, line: string, prec: nat, cs: set<char>)
    requires Avoids(line, cs) && Unrendered(cs)
    ensures ResolveParameters(s, line, prec).Ok? ==> Avoids(ResolveParameters(s, line, prec).value.0, cs)
  {
    ReadsAvoid(s, line, prec, 0, 0, cs);
    match ResolveReads(s, line, prec, 0, 0)
    case Err(_) =>
    case Ok((text, assignments)) =>
      if assignments > 0 {
        WritesAvoid(s, text, 0, cs);
      }
  }

  // ------------------------------------------------------------------
  // Worked lines.
  // ------------------------------------------------------------------

  /** A reference with one hash and one nonzero digit, followed by neither a digit nor '.', reads that parameter. */
  lemma ReadOneDigit(s: Store, line: string, p: nat)
    requires p + 1 < |line| && line[p] == '#' && '1' <= line[p + 1] <= '9'
    requires p + 2 < |line| ==> !IsDigit(line[p + 2]) && line[p + 2] != '.'
    ensures ReadParameter(s, line, p) == Ok((Get(s, DigitValue(line[p + 1])), 2))
  {
    var d := DigitValue(line[p + 1]);
    assert HashRun(line, p + 1) == 0;
    assert HashRun(line, p) == 1;
    ReadRun(line, p + 1, 1);
    assert line[p + 1..p + 2] == [line[p + 1]];
    assert DigitsValue(line[p + 1..p + 2]) == d;
    assert Round(d as real) == d;
    assert Target(s, d as real, 1) == Ok(d);
  }

  /** The first pass over "#3=5.0x#3": the assignment target stays, the later read becomes the old value 7. */
  lemma ParallelReads(s: Store, prec: nat)
    requires Get(s, 3) == 7.0 && prec >= 1
    ensures ResolveReads(s, "#3=5.0x#3", prec, 0, 0) == Ok(("#3=5.0x7", 1))
  {
    var l := "#3=5.0x#3";
    ReadOneDigit(s, l, 0);
    var first := ReadStep(s, l, prec, 0);
    assert first == Ok((l, 2, true));
    ReadsStep(s, l, prec, 0, 0, 0, l, 2, true);
    ParallelSecondRead(s, prec);
    ReadsStep(s, l, prec, 2, 1, 7, "#3=5.0x7", 8, false);
    ReadsDone(s, "#3=5.0x7", prec, 8, 1);
  }

  /** The read of `#3` at the end of "#3=5.0x#3" renders as "7". */
  lemma ParallelSecondRead(s: Store, prec: nat)
    requires Get(s, 3) == 7.0 && prec >= 1
    ensures FindFirstOf("#3=5.0x#3", {'#'}, 2) == Some(7)
    ensures ReadStep(s, "#3=5.0x#3", prec, 7) == Ok(("#3=5.0x7", 8, false))
  {
    var l := "#3=5.0x#3";
    SecondReference(s);
    RenderSeven(prec);
    ReadStepRenders(s, l, prec, 7, 7.0, 2);
    SpliceSeven();
    ReadStepEnds(s, l, prec, 7, "#3=5.0x7");
  }

  /** The second reference of "#3=5.0x#3" is at index 7 and reads `#3`. */
  lemma SecondReference(s: Store)
    ensures FindFirstOf("#3=5.0x#3", {'#'}, 2) == Some(7)
    ensures ReadParameter(s, "#3=5.0x#3", 7) == Ok((Get(s, 3), 2))
  {
    var l := "#3=5.0x#3";
    assert FindFirstOf(l, {'#'}, 2) == Some(7);
    ReadOneDigit(s, l, 7);
    assert DigitValue(l[8]) == 3;
  }

  lemma RenderSeven(prec: nat)
    requires prec >= 1
    ensures Render(7.0, prec) == "7"
  {
    RenderInteger(7, false, prec);
    assert NatToString(7) == "7";
  }

  /** A reference not followed by '=' is replaced by its rendered value. */
  lemma ReadStepRenders(s: Store, line: string, prec: nat, p: nat, value: real, len: nat)
    requires p < |line| && line[p] == '#' && ReadParameter(s, line, p) == Ok((value, len))
    requires !(p + len < |line| && line[p + len] == '=')
    ensures ReadStep(s, line, prec, p).Ok?
    ensures ReadStep(s, line, prec, p).value.0 == Splice(line, p, len, Render(value, prec))
    ensures !ReadStep(s, line, prec, p).value.2
  {
    var r := ReadParameter(s, line, p);
    assert r.value.0 == value && r.value.1 == len;
  }

  /** A read whose new line ends one character after the reference start goes on from the end. */
  lemma ReadStepEnds(s: Store, line: string, prec: nat, p: nat, line': string)
    requires p < |line| && line[p] == '#' && ReadStep(s, line, prec, p).Ok?
    requires ReadStep(s, line, prec, p).value.0 == line' && |line'| == p + 1
    requires !ReadStep(s, line, prec, p).value.2
    ensures ReadStep(s, line, prec, p) == Ok((line', p + 1, false))
  {
    var r := ReadStep(s, line, prec, p);
    var (l, next, counted) := r.value;
    assert next == p + 1;
    assert r == Ok((l, next, counted));
  }

  /** The text of the splice that puts the value 7 in place of the last reference. */
  lemma SpliceSeven()
    ensures Splice("#3=5.0x#3", 7, 2, "7") == "#3=5.0x7"
  {
    var l := "#3=5.0x#3";
    assert l[..7] == "#3=5.0x" && l[9..] == "";
  }

  /** One round of the first pass. */
  lemma ReadsStep(s: Store, line: string, prec: nat, pos: nat, a: nat, p: nat, line': string, next: nat, counted: bool)
    requires pos <= |line| && FindFirstOf(line, {'#'}, pos) == Some(p)
    requires ReadStep(s, line, prec, p) == Ok((line', next, counted))
    ensures ResolveReads(s, line, prec, pos, a)
         == ResolveReads(s, line', prec, next, if counted then a + 1 else a)
  {
  }

  /** With no reference left the first pass is done. */
  lemma ReadsDone(s: Store, line: string, prec: nat, pos: nat, a: nat)
    requires pos <= |line| && FindFirstOf(line, {'#'}, pos).None?
    ensures ResolveReads(s, line, prec, pos, a) == Ok((line, a))
  {
  }

  /** The numbers in "#3=5.0x7": the target 3 and the value 5. */
  lemma ParallelNumbers()
    ensures ReadLiteral("#3=5.0x7", 1) == Some((3.0, 1))
    ensures ReadSigned("#3=5.0x7", 3) == Some((5.0, 3))
  {
    ParallelTarget();
    ParallelValue();
  }

  lemma ParallelTarget()
    ensures ReadLiteral("#3=5.0x7", 1) == Some((3.0, 1))
  {
    var l := "#3=5.0x7";
    ReadRun(l, 1, 1);
    assert l[1..2] == "3";
  }

  lemma ParallelValue()
    ensures ReadLiteral("#3=5.0x7", 3) == Some((5.0, 3))
  {
    var l := "#3=5.0x7";
    ReadPointed(l, 3, 1, 1);
    assert DigitsAt(l, 3, 4) == 5 && DigitsAt(l, 5, 6) == 0;
  }

  /** The second pass over "#3=5.0x7": `#3` takes 5 and the assignment is erased. */
  lemma ParallelWrites(s: Store)
    ensures ResolveWrites(s, "#3=5.0x7", 0) == Ok(("x7", Put(s, 3, 5.0)))
  {
    ParallelAssign(s);
    EraseAssignment();
    WritesStep(s, "#3=5.0x7", 0, 0, Put(s, 3, 5.0), 6);
    WritesDone(Put(s, 3, 5.0), "x7", 0);
  }

  /** The assignment at the head of "#3=5.0x7" sets `#3` to 5 and spans 6 characters. */
  lemma ParallelAssign(s: Store)
    ensures AssignParameter(s, "#3=5.0x7", 0) == Ok((Put(s, 3, 5.0), 6))
  {
    var l := "#3=5.0x7";
    assert HashRun(l, 1) == 0 && HashRun(l, 0) == 1;
    ParallelNumbers();
    assert Target(s, 3.0, 1) == Ok(3);
    assert NumberFollows(l, 0) && ValueStarts(l, 3);
    assert AssignedValue(l, 3) == 5.0 && AssignedLength(l, 3) == 3;
    AssignParameterStore(s, l, 0);
  }

  /** Erasing the carried-out assignment from "#3=5.0x7". */
  lemma EraseAssignment()
    ensures Erase("#3=5.0x7", 0, 6) == "x7"
  {
  }

  /**
   * Assignments on a line take effect only after every read: with `#3`
   * equal to 7, "#3=5.0x#3" sets `#3` to 5 and leaves "x7".
   */
  lemma ReadsBeforeWrites(s: Store, prec: nat)
    requires Get(s, 3) == 7.0 && prec >= 1
    ensures ResolveParameters(s, "#3=5.0x#3", prec) == Ok(("x7", Put(s, 3, 5.0)))
  {
    ParallelReads(s, prec);
    ParallelWrites(s);
  }

  /** The numbers in "##1=0.375": the target 1 and the value 0.375. */
  lemma IndirectNumbers()
    ensures ReadLiteral("##1=0.375", 2) == Some((1.0, 1))
    ensures ReadSigned("##1=0.375", 4) == Some((0.375, 5))
  {
    IndirectTarget();
    IndirectValue();
  }

  lemma IndirectTarget()
    ensures ReadLiteral("##1=0.375", 2) == Some((1.0, 1))
  {
    var l := "##1=0.375";
    ReadRun(l, 2, 1);
    assert l[2..3] == "1";
  }

  lemma IndirectValue()
    ensures ReadLiteral("##1=0.375", 4) == Some((0.375, 5))
  {
    var l := "##1=0.375";
    ReadPointed(l, 4, 1, 3);
    assert DigitsAt(l, 4, 5) == 0;
    IndirectFraction();
    assert Fraction(375.0, 1) == 37.5;
    assert Fraction(375.0, 2) == 3.75;
    assert Fraction(375.0, 3) == 0.375;
  }

  lemma IndirectFraction()
    ensures DigitsAt("##1=0.375", 6, 9) == 375
  {
    var l := "##1=0.375";
    assert DigitsAt(l, 6, 7) == 3;
    assert DigitsAt(l, 6, 8) == 37;
  }

  /** `##1=0.375` with `#1` equal to 2 assigns 0.375 to `#2`, consuming the whole text. */
  lemma IndirectAssignment(s: Store)
    requires Get(s, 1) == 2.0
    ensures AssignParameter(s, "##1=0.375", 0) == Ok((Put(s, 2, 0.375), 9))
  {
    var l := "##1=0.375";
    assert HashRun(l, 2) == 0 && HashRun(l, 1) == 1 && HashRun(l, 0) == 2;
    IndirectNumbers();
    assert IndexOf(1.0) == Ok(1) && IndexOf(2.0) == Ok(2);
    assert Target(s, 1.0, 2) == Ok(2);
    assert NumberFollows(l, 0) && ValueStarts(l, 4);
    assert AssignedValue(l, 4) == 0.375 && AssignedLength(l, 4) == 5;
    AssignParameterStore(s, l, 0);
  }
}
