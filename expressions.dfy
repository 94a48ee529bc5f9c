/**
 * The expression evaluator. Each precedence level splits its text at the
 * rightmost operator of that level, recursing on the left at the same
 * level and on the right at the next one, so every level is
 * left-associative. From loosest to tightest: logical (`&` `|` `^`),
 * comparison (`~` `!` `{` `<` `>` `}`), sum (`+` `-`), product (`*` `/`
 * `%`), power (`@`), operand.
 *
 * Bracketed sub-expressions are evaluated innermost-first by the mutually
 * recursive `Evaluate`, `CalcExprs`, `FromBracket` and `ApplyFn`; each
 * value replaces its bracket (and function name) by a reference to a
 * fresh scratch parameter.
 */
module Expressions {
  import opened Errors
  import opened Text
  import opened Numerals
  import opened Parameters

  /**
   * The floating-point library, kept abstract: the model fixes where these
   * are called and with which arguments, not their values. The trigonometric
   * functions work in degrees, as the interpreter converts around the
   * library's radians. `divByZero(x)` is what `x / 0.0` gives and
   * `expOverflows(x)` says that `exp(x)` is `HUGE_VAL`.
   */
  datatype FloatOps = FloatOps(
    pow: (real, real) -> real,
    fmod: (real, real) -> real,
    divByZero: real -> real,
    sinDeg: real -> real,
    cosDeg: real -> real,
    tanDeg: real -> real,
    asinDeg: real -> real,
    acosDeg: real -> real,
    atan2Deg: (real, real) -> real,
    exp: real -> real,
    expOverflows: real -> bool,
    ln: real -> real,
    sqrt: real -> real)

  const TOLERANCE_EQUAL: real := 0.0001

  const DIGITS_DOT: set<char> := {'0', '1', '2', '3', '4', '5', '6', '7', '8', '9', '.'}
  const LOGICALS: set<char> := {'&', '|', '^'}
  const COMPARISONS: set<char> := {'~', '!', '{', '<', '>', '}'}
  const SUMS: set<char> := {'+', '-'}
  const PRODUCTS: set<char> := {'*', '/', '%'}
  const POWERS: set<char> := {'@'}
  const BRACKETS: set<char> := {'['}

  // ------------------------------------------------------------------
  // Operands and the arithmetic levels
  // ------------------------------------------------------------------

  /**
   * An operand: signs are peeled off one at a time ('+' keeps, '-'
   * negates); what is left must be exactly one parameter reference or
   * exactly one number starting with a digit or '.'.
   */
  function ParseOperand(s: Store, expr: string): (r: Result<real>)
    ensures |expr| == 0 ==> r == Err(EmptyOperand)
    ensures r.Ok? ==> |expr| > 0 && (expr[0] in DIGITS_DOT || expr[0] in SUMS || expr[0] == '#')
    decreases |expr|
  {
    if |expr| == 0 then Err(EmptyOperand)
    else if expr[0] == '+' then ParseOperand(s, expr[1..])
    else if expr[0] == '-' then
      var v :- ParseOperand(s, expr[1..]);
      Ok(-v)
    else if expr[0] == '#' then
      var (v, len) :- ReadParameter(s, expr, 0);
      if len != |expr| then Err(UnexpectedAfterParameter) else Ok(v)
    else if !IsDigit(expr[0]) && expr[0] != '.' then Err(UnexpectedOperand)
    else
      match ReadLiteral(expr, 0)
      case None => Err(InvalidNumber)
      case Some((v, n)) => if n != |expr| then Err(UnexpectedAfterValue) else Ok(v)
  }

  /** The decimal text of a natural number is an operand with that value. */
  lemma OperandLiteral(s: Store, n: nat)
    ensures ParseOperand(s, NatToString(n)) == Ok(n as real)
  {
    ReadNatToString("", n, "");
    assert "" + NatToString(n) + "" == NatToString(n);
  }

  /** A scratch reference `#k` is an operand whose value is parameter `k`. */
  lemma OperandReference(t: Store, k: nat)
    requires 1 <= k <= TOTAL_PARAMETERS
    ensures ParseOperand(t, Reference(k)) == Ok(Get(t, k))
  {
    var e := Reference(k);
    ReadReference(t, "", k, "");
    assert "" + e + "" == e;
  }

  /** `_ParsePower`: `a @ b` is `pow(a, b)`; the right side is a single operand. */
  function ParsePower(ops: FloatOps, s: Store, expr: string): (r: Result<real>)
    ensures FindLastOf(expr, POWERS).None? ==> r == ParseOperand(s, expr)
    decreases |expr|
  {
    match FindLastOf(expr, POWERS)
    case None => ParseOperand(s, expr)
    case Some(d) =>
      var lhs :- ParsePower(ops, s, expr[..d]);
      var rhs :- ParseOperand(s, expr[d + 1..]);
      Ok(ops.pow(lhs, rhs))
  }

  /** The product operators on two values; division by zero is left to the library. */
  function Product(ops: FloatOps, op: char, lhs: real, rhs: real): real {
    if op == '*' then lhs * rhs
    else if op == '/' then (if rhs == 0.0 then ops.divByZero(lhs) else lhs / rhs)
    else ops.fmod(lhs, rhs)
  }

  /** `_ParseMultiplication`: `*`, `/` and `%` (the library `fmod`). */
  function ParseMultiplication(ops: FloatOps, s: Store, expr: string): (r: Result<real>)
    ensures FindLastOf(expr, PRODUCTS).None? ==> r == ParsePower(ops, s, expr)
    decreases |expr|
  {
    match FindLastOf(expr, PRODUCTS)
    case None => ParsePower(ops, s, expr)
    case Some(d) =>
      var lhs :- ParseMultiplication(ops, s, expr[..d]);
      var rhs :- ParsePower(ops, s, expr[d + 1..]);
      Ok(Product(ops, expr[d], lhs, rhs))
  }

  /** A sign at `d` is a binary operator only when a digit or '.' precedes it. */
  predicate BinarySign(expr: string, d: nat)
    requires d < |expr|
  {
    d > 0 && (IsDigit(expr[d - 1]) || expr[d - 1] == '.')
  }

  /** The length of a unary sign and the digits and dots after it. */
  function SignedSpan(expr: string, d: nat): (len: nat)
    requires d < |expr|
    ensures 1 <= len && d + len <= |expr|
    ensures forall k :: d < k < d + len ==> expr[k] in DIGITS_DOT
    ensures d + len < |expr| ==> expr[d + len] !in DIGITS_DOT
  {
    match FindFirstNotOf(expr, DIGITS_DOT, d + 1)
    case None => |expr| - d
    case Some(p) => p - d
  }

  /** A reference holds no operator or bracket character. */
  lemma ReferenceCounts(k: nat, cs: set<char>)
    requires '#' !in cs && forall c :: c in cs ==> !IsDigit(c)
    ensures Count(Reference(k), cs) == 0
  {
    CountNone(Reference(k), cs);
  }

  /**
   * `_ParseSummation`: `+` and `-`. A sign that is not binary is folded:
   * the operand it starts (the sign with the digits and dots after it) is
   * evaluated, stored in a scratch parameter and replaced by its reference,
   * and the text is parsed again with one sign fewer.
   */
  function ParseSummation(ops: FloatOps, s: Store, expr: string): (r: Result<(real, Store)>)
    ensures r.Ok? ==> Keeps(s, r.value.1)
    ensures FindLastOf(expr, SUMS).None? ==> r == (var v :- ParseMultiplication(ops, s, expr); Ok((v, s)))
    decreases Count(expr, SUMS)
  {
    match FindLastOf(expr, SUMS)
    case None =>
      var v :- ParseMultiplication(ops, s, expr);
      Ok((v, s))
    case Some(d) =>
      if BinarySign(expr, d) then
        CountPrefix(expr, SUMS, d);
        var (lhs, s1) :- ParseSummation(ops, s, expr[..d]);
        var rhs :- ParseMultiplication(ops, s1, expr[d + 1..]);
        Ok((if expr[d] == '+' then lhs + rhs else lhs - rhs, s1))
      else
        var (folded, s1) :- FoldSign(s, expr, d);
        ParseSummation(ops, s1, folded)
  }

  /**
   * Folding the unary sign at `d`: the sign with the digits and dots after
   * it is evaluated as an operand, stored in a scratch parameter and
   * replaced by its reference, which leaves one sign fewer.
   */
  function FoldSign(s: Store, expr: string, d: nat): (r: Result<(string, Store)>)
    requires d < |expr| && expr[d] in SUMS
    ensures r.Ok? ==> Count(r.value.0, SUMS) < Count(expr, SUMS) && Keeps(s, r.value.1)
  {
    var len := SignedSpan(expr, d);
    var value :- ParseOperand(s, expr[d..d + len]);
    var (folded, s1) :- ReplaceWithParameter(s, value, expr, d, len);
    ReferenceCounts(s.scratch + 1, SUMS);
    CountReplaceSpan(expr, SUMS, d, d, d + len, Reference(s.scratch + 1));
    Ok((folded, s1))
  }

  /** The comparison operators: 1.0 or 0.0; `~` and `!` compare within the tolerance. */
  function Compare(op: char, lhs: real, rhs: real): (v: real)
    ensures v == 0.0 || v == 1.0
  {
    var holds :=
      if op == '~' then Abs(lhs - rhs) < TOLERANCE_EQUAL
      else if op == '!' then Abs(lhs - rhs) >= TOLERANCE_EQUAL
      else if op == '{' then lhs <= rhs
      else if op == '<' then lhs < rhs
      else if op == '>' then lhs > rhs
      else lhs >= rhs;
    if holds then 1.0 else 0.0
  }

  /** `_ParseConditional`. */
  function ParseConditional(ops: FloatOps, s: Store, expr: string): (r: Result<(real, Store)>)
    ensures r.Ok? ==> Keeps(s, r.value.1)
    ensures r.Ok? && FindLastOf(expr, COMPARISONS).Some? ==> r.value.0 == 0.0 || r.value.0 == 1.0
    decreases |expr|
  {
    match FindLastOf(expr, COMPARISONS)
    case None => ParseSummation(ops, s, expr)
    case Some(d) =>
      var (lhs, s1) :- ParseConditional(ops, s, expr[..d]);
      var (rhs, s2) :- ParseSummation(ops, s1, expr[d + 1..]);
      Ok((Compare(expr[d], lhs, rhs), s2))
  }

  /** The logical operators on two values: 1.0 or 0.0, any nonzero value counting as true. */
  function Logic(op: char, lhs: real, rhs: real): (v: real)
    ensures v == 0.0 || v == 1.0
  {
    var holds :=
      if op == '&' then lhs != 0.0 && rhs != 0.0
      else if op == '|' then lhs != 0.0 || rhs != 0.0
      else (lhs != 0.0) != (rhs != 0.0);
    if holds then 1.0 else 0.0
  }

  /** `_ParseLogical`. */
  function ParseLogical(ops: FloatOps, s: Store, expr: string): (r: Result<(real, Store)>)
    ensures r.Ok? ==> Keeps(s, r.value.1)
    ensures r.Ok? && FindLastOf(expr, LOGICALS).Some? ==> r.value.0 == 0.0 || r.value.0 == 1.0
    decreases |expr|
  {
    match FindLastOf(expr, LOGICALS)
    case None => ParseConditional(ops, s, expr)
    case Some(d) =>
      var (lhs, s1) :- ParseLogical(ops, s, expr[..d]);
      var (rhs, s2) :- ParseConditional(ops, s1, expr[d + 1..]);
      Ok((Logic(expr[d], lhs, rhs), s2))
  }

  // ------------------------------------------------------------------
  // The arithmetic levels as left folds over operator chains
  // ------------------------------------------------------------------

  /** An expression cut at every operator of one level: the first operand, then each operator with the operand after it. */
  datatype Chain = Chain(head: string, links: seq<(char, string)>)

  /** The text a chain was cut from. */
  function Join(c: Chain): string
    decreases |c.links|
  {
    if |c.links| == 0 then c.head
    else
      var last := c.links[|c.links| - 1];
      Join(Chain(c.head, c.links[..|c.links| - 1])) + [last.0] + last.1
  }

  /** No character of `cs` occurs in `e`. */
  predicate Free(e: string, cs: set<char>) {
    forall i :: 0 <= i < |e| ==> e[i] !in cs
  }

  /** The operands of a chain hold no operator of the level, and its operators are all of it. */
  predicate Cut(c: Chain, cs: set<char>) {
    && Free(c.head, cs)
    && forall k :: 0 <= k < |c.links| ==> c.links[k].0 in cs && Free(c.links[k].1, cs)
  }

  /** The chain of `expr` at the operators `cs`. */
  function Split(expr: string, cs: set<char>): (c: Chain)
    ensures Cut(c, cs) && Join(c) == expr
    decreases |expr|
  {
    match FindLastOf(expr, cs)
    case None => Chain(expr, [])
    case Some(d) =>
      var c := Split(expr[..d], cs);
      var links := c.links + [(expr[d], expr[d + 1..])];
      assert links[..|links| - 1] == c.links;
      assert expr == expr[..d] + [expr[d]] + expr[d + 1..];
      Chain(c.head, links)
  }

  /** The three arithmetic levels, each parsing its operands at the next tighter one. */
  datatype Tier = PowerTier | ProductTier | SumTier

  function Operators(tier: Tier): set<char> {
    match tier
    case PowerTier => POWERS
    case ProductTier => PRODUCTS
    case SumTier => SUMS
  }

  /** An operand of a level, parsed by the next tighter level. */
  function Operand(ops: FloatOps, s: Store, tier: Tier, e: string): Result<real> {
    match tier
    case PowerTier => ParseOperand(s, e)
    case ProductTier => ParsePower(ops, s, e)
    case SumTier => ParseMultiplication(ops, s, e)
  }

  /** An operator of a level applied to two values. */
  function Combine(ops: FloatOps, tier: Tier, op: char, lhs: real, rhs: real): real {
    match tier
    case PowerTier => ops.pow(lhs, rhs)
    case ProductTier => Product(ops, op, lhs, rhs)
    case SumTier => if op == '+' then lhs + rhs else lhs - rhs
  }

  /** Going left to right from the value `acc`: each link's operand is parsed and combined into the value. */
  function FoldLinks(ops: FloatOps, s: Store, tier: Tier, acc: real, links: seq<(char, string)>): Result<real>
    decreases |links|
  {
    if |links| == 0 then Ok(acc)
    else
      var rhs :- Operand(ops, s, tier, links[0].1);
      FoldLinks(ops, s, tier, Combine(ops, tier, links[0].0, acc, rhs), links[1..])
  }

  /** A chain evaluated from the left: the first operand, then each link in turn; the first failing operand is the error. */
  function FoldChain(ops: FloatOps, s: Store, tier: Tier, c: Chain): Result<real> {
    var v :- Operand(ops, s, tier, c.head);
    FoldLinks(ops, s, tier, v, c.links)
  }

  /** One more link at the end is one more step after the fold. */
  lemma {:induction false} FoldLinksSnoc(ops: FloatOps, s: Store, tier: Tier, acc: real, links: seq<(char, string)>, op: char, e: string)
    ensures FoldLinks(ops, s, tier, acc, links + [(op, e)])
         == (var lhs :- FoldLinks(ops, s, tier, acc, links);
             var rhs :- Operand(ops, s, tier, e);
             Ok(Combine(ops, tier, op, lhs, rhs)))
    decreases |links|
  {
    var all := links + [(op, e)];
    if |links| == 0 {
      assert all[1..] == [];
    } else {
      assert all[0] == links[0] && all[1..] == links[1..] + [(op, e)];
      match Operand(ops, s, tier, links[0].1)
      case Err(_) =>
      case Ok(rhs) =>
        FoldLinksSnoc(ops, s, tier, Combine(ops, tier, links[0].0, acc, rhs), links[1..], op, e);
    }
  }

  /** A chain with one more link at the end: the fold of the shorter chain, then that link. */
  lemma {:induction false} FoldChainSnoc(ops: FloatOps, s: Store, tier: Tier, c: Chain, op: char, e: string)
    ensures FoldChain(ops, s, tier, Chain(c.head, c.links + [(op, e)]))
         == (var lhs :- FoldChain(ops, s, tier, c);
             var rhs :- Operand(ops, s, tier, e);
             Ok(Combine(ops, tier, op, lhs, rhs)))
  {
    match Operand(ops, s, tier, c.head)
    case Err(_) =>
    case Ok(v) =>
      FoldLinksSnoc(ops, s, tier, v, c.links, op, e);
  }

  /** `_ParsePower` is the left fold of `pow` over the chain at '@': `a@b@c` is `pow(pow(a, b), c)`. */
  lemma {:induction false} PowerIsLeftFold(ops: FloatOps, s: Store, expr: string)
    ensures ParsePower(ops, s, expr) == FoldChain(ops, s, PowerTier, Split(expr, POWERS))
    decreases |expr|
  {
    match FindLastOf(expr, POWERS)
    case None =>
    case Some(d) =>
      PowerIsLeftFold(ops, s, expr[..d]);
      FoldChainSnoc(ops, s, PowerTier, Split(expr[..d], POWERS), expr[d], expr[d + 1..]);
  }

  /** `_ParseMultiplication` is the left fold of the product operators over the chain at `*`, `/` and `%`, each factor a power. */
  lemma {:induction false} ProductIsLeftFold(ops: FloatOps, s: Store, expr: string)
    ensures ParseMultiplication(ops, s, expr) == FoldChain(ops, s, ProductTier, Split(expr, PRODUCTS))
    decreases |expr|
  {
    match FindLastOf(expr, PRODUCTS)
    case None =>
    case Some(d) =>
      ProductIsLeftFold(ops, s, expr[..d]);
      FoldChainSnoc(ops, s, ProductTier, Split(expr[..d], PRODUCTS), expr[d], expr[d + 1..]);
  }

  /** Every sign of `expr` follows a digit or '.', so none is folded. */
  predicate BinarySigns(expr: string) {
    forall d :: 0 <= d < |expr| && expr[d] in SUMS ==> BinarySign(expr, d)
  }

  /**
   * With every sign binary, `_ParseSummation` is the left fold of `+` and
   * `-` over the chain at the signs, each summand a product, and the
   * store is untouched.
   */
  lemma {:induction false} SumIsLeftFold(ops: FloatOps, s: Store, expr: string)
    requires BinarySigns(expr)
    ensures FoldChain(ops, s, SumTier, Split(expr, SUMS)).Ok? ==>
      Yields(ParseSummation(ops, s, expr), FoldChain(ops, s, SumTier, Split(expr, SUMS)).value, s)
    ensures FoldChain(ops, s, SumTier, Split(expr, SUMS)).Err? ==>
      ParseSummation(ops, s, expr).Err? && ParseSummation(ops, s, expr).error == FoldChain(ops, s, SumTier, Split(expr, SUMS)).error
    decreases |expr|
  {
    match FindLastOf(expr, SUMS)
    case None =>
      assert Split(expr, SUMS) == Chain(expr, []);
    case Some(d) =>
      var left := expr[..d];
      BinarySignsPrefix(expr, d);
      SumIsLeftFold(ops, s, left);
      var c := Split(left, SUMS);
      FoldChainSnoc(ops, s, SumTier, c, expr[d], expr[d + 1..]);
      assert Split(expr, SUMS) == Chain(c.head, c.links + [(expr[d], expr[d + 1..])]);
      var lhs := FoldChain(ops, s, SumTier, c);
      var whole := FoldChain(ops, s, SumTier, Split(expr, SUMS));
      if lhs.Err? {
        SumLeftFails(ops, s, expr, d);
        assert whole.Err? && whole.error == lhs.error;
      } else {
        var rhs := ParseMultiplication(ops, s, expr[d + 1..]);
        assert Operand(ops, s, SumTier, expr[d + 1..]) == rhs;
        if rhs.Err? {
          SumRightFails(ops, s, expr, d, lhs.value, s);
          assert whole.Err? && whole.error == rhs.error;
        } else {
          BinarySum(ops, s, expr, d, lhs.value, s, rhs.value);
          assert whole == Ok(Combine(ops, SumTier, expr[d], lhs.value, rhs.value));
        }
      }
  }

  /** At a binary last sign, a failure of the text before it is the failure of the sum. */
  lemma SumLeftFails(ops: FloatOps, s: Store, expr: string, d: nat)
    requires FindLastOf(expr, SUMS) == Some(d) && BinarySign(expr, d)
    requires ParseSummation(ops, s, expr[..d]).Err?
    ensures ParseSummation(ops, s, expr).Err?
    ensures ParseSummation(ops, s, expr).error == ParseSummation(ops, s, expr[..d]).error
  {
  }

  /** At a binary last sign, a failure of the product after it is the failure of the sum. */
  lemma SumRightFails(ops: FloatOps, s: Store, expr: string, d: nat, a: real, t: Store)
    requires FindLastOf(expr, SUMS) == Some(d) && BinarySign(expr, d)
    requires Yields(ParseSummation(ops, s, expr[..d]), a, t)
    requires ParseMultiplication(ops, t, expr[d + 1..]).Err?
    ensures ParseSummation(ops, s, expr).Err?
    ensures ParseSummation(ops, s, expr).error == ParseMultiplication(ops, t, expr[d + 1..]).error
  {
  }

  /** The signs of a prefix are binary when those of the whole text are. */
  lemma {:induction false} BinarySignsPrefix(expr: string, d: nat)
    requires d <= |expr| && BinarySigns(expr)
    ensures BinarySigns(expr[..d])
  {
    var left := expr[..d];
    forall k | 0 <= k < |left| && left[k] in SUMS
      ensures BinarySign(left, k)
    {
      assert left[k] == expr[k] && BinarySign(expr, k);
      assert k > 0 ==> left[k - 1] == expr[k - 1];
    }
  }

  /** The comparison and logical levels, whose operands thread the store from left to right. */
  datatype Level = CompareLevel | LogicLevel

  /** An operand of a comparison or logical level, parsed by the next tighter level in the given store. */
  function LevelOperand(ops: FloatOps, s: Store, level: Level, e: string): Result<(real, Store)> {
    match level
    case CompareLevel => ParseSummation(ops, s, e)
    case LogicLevel => ParseConditional(ops, s, e)
  }

  /** An operator of a comparison or logical level applied to two values. */
  function Apply(level: Level, op: char, lhs: real, rhs: real): real {
    match level
    case CompareLevel => Compare(op, lhs, rhs)
    case LogicLevel => Logic(op, lhs, rhs)
  }

  /**
   * Going left to right from the value and store `acc`: each link's operand
   * is parsed in the store the previous one left and combined into the value.
   */
  function FoldThreaded(ops: FloatOps, level: Level, acc: (real, Store), links: seq<(char, string)>): Result<(real, Store)>
    decreases |links|
  {
    if |links| == 0 then Ok(acc)
    else
      var (rhs, s1) :- LevelOperand(ops, acc.1, level, links[0].1);
      FoldThreaded(ops, level, (Apply(level, links[0].0, acc.0, rhs), s1), links[1..])
  }

  /** A chain evaluated from the left, the store threaded through its operands. */
  function FoldThreadedChain(ops: FloatOps, s: Store, level: Level, c: Chain): Result<(real, Store)> {
    var v :- LevelOperand(ops, s, level, c.head);
    FoldThreaded(ops, level, v, c.links)
  }

  lemma {:induction false} FoldThreadedSnoc(ops: FloatOps, level: Level, acc: (real, Store), links: seq<(char, string)>, op: char, e: string)
    ensures FoldThreaded(ops, level, acc, links + [(op, e)])
         == (var (lhs, s1) :- FoldThreaded(ops, level, acc, links);
             var (rhs, s2) :- LevelOperand(ops, s1, level, e);
             Ok((Apply(level, op, lhs, rhs), s2)))
    decreases |links|
  {
    var all := links + [(op, e)];
    if |links| == 0 {
      assert all[1..] == [];
    } else {
      assert all[0] == links[0] && all[1..] == links[1..] + [(op, e)];
      match LevelOperand(ops, acc.1, level, links[0].1)
      case Err(_) =>
      case Ok(v) =>
        FoldThreadedSnoc(ops, level, (Apply(level, links[0].0, acc.0, v.0), v.1), links[1..], op, e);
    }
  }

  lemma {:induction false} FoldThreadedChainSnoc(ops: FloatOps, s: Store, level: Level, c: Chain, op: char, e: string)
    ensures FoldThreadedChain(ops, s, level, Chain(c.head, c.links + [(op, e)]))
         == (var (lhs, s1) :- FoldThreadedChain(ops, s, level, c);
             var (rhs, s2) :- LevelOperand(ops, s1, level, e);
             Ok((Apply(level, op, lhs, rhs), s2)))
  {
    match LevelOperand(ops, s, level, c.head)
    case Err(_) =>
    case Ok(v) =>
      FoldThreadedSnoc(ops, level, v, c.links, op, e);
  }

  /**
   * `_ParseConditional` is the left fold of the comparisons over the chain
   * at the comparison operators, each operand a summation evaluated in the
   * store the operand before it left: `a<b<c` is `(a<b)<c`.
   */
  lemma {:induction false} ConditionalIsLeftFold(ops: FloatOps, s: Store, expr: string)
    ensures ParseConditional(ops, s, expr) == FoldThreadedChain(ops, s, CompareLevel, Split(expr, COMPARISONS))
    decreases |expr|
  {
    match FindLastOf(expr, COMPARISONS)
    case None =>
    case Some(d) =>
      ConditionalIsLeftFold(ops, s, expr[..d]);
      FoldThreadedChainSnoc(ops, s, CompareLevel, Split(expr[..d], COMPARISONS), expr[d], expr[d + 1..]);
  }

  /**
   * `_ParseLogical` is the left fold of the logical operators over the chain
   * at `&`, `|` and `^`, each operand a comparison evaluated in the store the
   * operand before it left.
   */
  lemma {:induction false} LogicalIsLeftFold(ops: FloatOps, s: Store, expr: string)
    ensures ParseLogical(ops, s, expr) == FoldThreadedChain(ops, s, LogicLevel, Split(expr, LOGICALS))
    decreases |expr|
  {
    match FindLastOf(expr, LOGICALS)
    case None =>
    case Some(d) =>
      LogicalIsLeftFold(ops, s, expr[..d]);
      FoldThreadedChainSnoc(ops, s, LogicLevel, Split(expr[..d], LOGICALS), expr[d], expr[d + 1..]);
  }

  // ------------------------------------------------------------------
  // Brackets and functions
  // ------------------------------------------------------------------

  /** `name` stands immediately before index `start`. */
  predicate NameBefore(line: string, start: nat, name: string)
    requires start <= |line|
  {
    |name| <= start && line[start - |name|..start] == name
  }

  /**
   * `_EvaluateExpression`: the text between a pair of brackets. It may not
   * be empty; its own brackets are evaluated first, and then it may not
   * contain an assignment.
   */
  function Evaluate(ops: FloatOps, s: Store, expr: string): (r: Result<(real, Store)>)
    ensures r.Ok? ==> Keeps(s, r.value.1)
    ensures |expr| == 0 ==> r == Err(IllFormedExpression)
    decreases Count(expr, BRACKETS), 4
  {
    if |expr| == 0 then Err(IllFormedExpression)
    else
      var (flat, s1, _) :- CalcExprs(ops, s, expr);
      if FindFirstOf(flat, {'='}, 0).Some? then Err(AssignmentInExpression)
      else ParseLogical(ops, s1, flat)
  }

  /**
   * `_CalculateExpressions`: while a '[' is left, the leftmost bracket is
   * evaluated (as a function argument when a function name precedes it)
   * and the bracket with its name is replaced by a reference to a fresh
   * scratch parameter holding the value. The values of these outermost
   * brackets are listed in textual order.
   */
  function CalcExprs(ops: FloatOps, s: Store, line: string): (r: Result<(string, Store, seq<real>)>)
    ensures r.Ok? ==> var (flat, t, values) := r.value;
      && (forall i :: 0 <= i < |flat| ==> flat[i] != '[')
      && Keeps(s, t)
      && (|values| == 0 <==> forall i :: 0 <= i < |line| ==> line[i] != '[')
    ensures (forall i :: 0 <= i < |line| ==> line[i] != '[') ==> r == Ok((line, s, []))
    decreases Count(line, BRACKETS), 3
  {
    match FindFirstOf(line, BRACKETS, 0)
    case None => Ok((line, s, []))
    case Some(open) =>
      var (replaced, s1, result) :- Substitute(ops, s, line, open);
      var (flat, s2, values) :- CalcExprs(ops, s1, replaced);
      Ok((flat, s2, [result] + values))
  }

  /**
   * One round of `_CalculateExpressions` on the bracket at `open`: its
   * value (after any function before it), the line with the bracket and
   * the function name replaced by a reference to a fresh scratch
   * parameter, and the store. The line has one '[' fewer at least.
   */
  function Substitute(ops: FloatOps, s: Store, line: string, open: nat): (r: Result<(string, Store, real)>)
    requires open < |line| && line[open] == '['
    ensures r.Ok? ==> Count(r.value.0, BRACKETS) < Count(line, BRACKETS) && Keeps(s, r.value.1)
    decreases Count(line, BRACKETS), 2
  {
    var (value, len, s1) :- FromBracket(ops, s, line, open);
    var (result, start, span, s2) :- ApplyFn(ops, s1, value, line, open, len);
    var (replaced, s3) :- ReplaceWithParameter(s2, result, line, start, span);
    ReferenceCounts(s2.scratch + 1, BRACKETS);
    CountReplaceSpan(line, BRACKETS, start, open, start + span, Reference(s2.scratch + 1));
    Ok((replaced, s3, result))
  }

  /**
   * `_CalculateExpressionFromBracket`: the value of the bracket that opens
   * at `start` and the length of the bracketed text, brackets included.
   */
  function FromBracket(ops: FloatOps, s: Store, line: string, start: nat): (r: Result<(real, nat, Store)>)
    requires start < |line| && line[start] == '['
    ensures r.Ok? ==> var (_, len, t) := r.value;
      2 <= len && start + len <= |line| && Keeps(s, t)
    decreases Count(line, BRACKETS), 0
  {
    match MatchingClose(line, '[', ']', start + 1, 0)
    case None => Err(NoClosingBracket)
    case Some(close) =>
      var inner := line[start + 1..close];
      CountInside(line, BRACKETS, start, start + 1, close);
      match Evaluate(ops, s, inner)
      case Err(e) => Err(e)
      case Ok((value, s1)) =>
        Ok((value, close - start + 1, s1))
  }

  /**
   * The value of a bracket is that of the text up to its matching ']',
   * and its length runs to that ']'; without a matching ']' it is an error.
   */
  lemma {:induction false} FromBracketValue(ops: FloatOps, s: Store, line: string, start: nat)
    requires start < |line| && line[start] == '['
    ensures MatchingClose(line, '[', ']', start + 1, 0).None? ==> FromBracket(ops, s, line, start) == Err(NoClosingBracket)
    ensures var close := MatchingClose(line, '[', ']', start + 1, 0);
      close.Some? && Evaluate(ops, s, line[start + 1..close.value]).Err? ==>
      FromBracket(ops, s, line, start) == Err(Evaluate(ops, s, line[start + 1..close.value]).error)
    ensures var close := MatchingClose(line, '[', ']', start + 1, 0);
      close.Some? && Evaluate(ops, s, line[start + 1..close.value]).Ok? ==>
      var r := FromBracket(ops, s, line, start);
      var e := Evaluate(ops, s, line[start + 1..close.value]);
      r.Ok? && r.value.0 == e.value.0 && r.value.1 == close.value - start + 1 && r.value.2 == e.value.1
  {
  }

  /**
   * The bracket loop collects the leftmost bracket's value first: when no
   * function name stands before it, that is the value of the text up to
   * its matching ']'.
   */
  lemma {:induction false} FirstBracketValue(ops: FloatOps, s: Store, line: string, open: nat)
    requires FindFirstOf(line, BRACKETS, 0) == Some(open) && (open == 0 || !IsAlpha(line[open - 1]))
    requires CalcExprs(ops, s, line).Ok?
    ensures MatchingClose(line, '[', ']', open + 1, 0).Some?
    ensures var close := MatchingClose(line, '[', ']', open + 1, 0).value;
      var e := Evaluate(ops, s, line[open + 1..close]);
      e.Ok? && |CalcExprs(ops, s, line).value.2| >= 1 && CalcExprs(ops, s, line).value.2[0] == e.value.0
  {
    CalcExprsHead(ops, s, line, open);
    SubstitutePlain(ops, s, line, open);
    FromBracketValue(ops, s, line, open);
  }

  /** The first value the bracket loop collects is the one its first round substitutes. */
  lemma {:induction false} CalcExprsHead(ops: FloatOps, s: Store, line: string, open: nat)
    requires FindFirstOf(line, BRACKETS, 0) == Some(open) && CalcExprs(ops, s, line).Ok?
    ensures open < |line| && line[open] == '[' && Substitute(ops, s, line, open).Ok?
    ensures |CalcExprs(ops, s, line).value.2| >= 1
    ensures CalcExprs(ops, s, line).value.2[0] == Substitute(ops, s, line, open).value.2
  {
  }

  /** With no function name before it, a bracket substitutes its own value. */
  lemma {:induction false} SubstitutePlain(ops: FloatOps, s: Store, line: string, open: nat)
    requires open < |line| && line[open] == '[' && (open == 0 || !IsAlpha(line[open - 1]))
    requires Substitute(ops, s, line, open).Ok?
    ensures FromBracket(ops, s, line, open).Ok?
    ensures Substitute(ops, s, line, open).value.2 == FromBracket(ops, s, line, open).value.0
  {
    var fb := FromBracket(ops, s, line, open);
    assert fb.Ok?;
    assert ApplyFn(ops, fb.value.2, fb.value.0, line, open, fb.value.1) == Ok((fb.value.0, open, fb.value.1, fb.value.2));
  }

  /**
   * The one-argument functions, tried from the longest name (`round`) to
   * the shortest (`ln`), so that `asin` wins over `sin`: the value and the
   * length of the name found (0 when there is none).
   */
  function Unary(ops: FloatOps, arg: real, line: string, start: nat): (r: Result<(real, nat)>)
    requires start <= |line| && !NameBefore(line, start, "atan")
    ensures r.Ok? ==> r.value.1 <= start
    ensures r.Ok? && r.value.1 == 0 ==> r.value.0 == arg
    ensures r.Err? ==> r.error in {AcosOutOfRange, AsinOutOfRange, NegativeSqrt, ExpTooBig}
  {
    if NameBefore(line, start, "round") then Ok((Round(arg) as real, 5))
    else if NameBefore(line, start, "acos") then
      if arg < -1.0 || arg > 1.0 then Err(AcosOutOfRange) else Ok((ops.acosDeg(arg), 4))
    else if NameBefore(line, start, "asin") then
      if arg < -1.0 || arg > 1.0 then Err(AsinOutOfRange) else Ok((ops.asinDeg(arg), 4))
    else if NameBefore(line, start, "sqrt") then
      if arg < 0.0 then Err(NegativeSqrt) else Ok((ops.sqrt(arg), 4))
    else if NameBefore(line, start, "abs") then Ok((Abs(arg), 3))
    else if NameBefore(line, start, "cos") then Ok((ops.cosDeg(arg), 3))
    else if NameBefore(line, start, "fix") then Ok((Floor(arg) as real, 3))
    else if NameBefore(line, start, "fup") then Ok((Ceil(arg) as real, 3))
    else if NameBefore(line, start, "sin") then Ok((ops.sinDeg(arg), 3))
    else if NameBefore(line, start, "tan") then Ok((ops.tanDeg(arg), 3))
    else if NameBefore(line, start, "exp") then
      if ops.expOverflows(arg) then Err(ExpTooBig) else Ok((ops.exp(arg), 3))
    else if NameBefore(line, start, "ln") then Ok((ops.ln(arg), 2))
    else Ok((arg, 0))
  }

  /**
   * `_ApplyAsFunctionArgument`: when a letter stands before the bracket at
   * `start` (of length `len`), a function name ending there is applied and
   * the span widened to cover the name. `atan` (tried among the four-letter
   * names, before `tan`) takes a second bracket after a '/', and its span
   * covers that one too. The result is the value, the new start and length,
   * and the store.
   */
  function ApplyFn(ops: FloatOps, s: Store, arg: real, line: string, start: nat, len: nat)
    : (r: Result<(real, nat, nat, Store)>)
    requires start + len <= |line|
    ensures r.Ok? ==> var (_, pos, span, t) := r.value;
      pos <= start && start + len <= pos + span <= |line| && Keeps(s, t)
    ensures r.Ok? ==> r.value.1 + r.value.2 == start + len || NameBefore(line, start, "atan")
    ensures start == 0 || !IsAlpha(line[start - 1]) ==> r == Ok((arg, start, len, s))
    decreases Count(line, BRACKETS), 1
  {
    if start == 0 || !IsAlpha(line[start - 1]) then Ok((arg, start, len, s))
    else if NameBefore(line, start, "atan") then
      var last := start + len;
      if !(last + 1 < |line| && line[last] == '/' && line[last + 1] == '[') then Err(IllFormedAtan)
      else
        var (arg2, len2, t) :- FromBracket(ops, s, line, last + 1);
        Ok((ops.atan2Deg(arg, arg2), start - 4, len + 4 + 1 + len2, t))
    else
      var (value, name) :- Unary(ops, arg, line, start);
      Ok((value, start - name, len + name, s))
  }

  // ------------------------------------------------------------------
  // Evaluation examples: associativity, precedence and sign folding
  // ------------------------------------------------------------------

  /** The evaluation succeeded with value `v`, leaving store `t`. */
  predicate Yields(r: Result<(real, Store)>, v: real, t: Store) {
    r.Ok? && r.value.0 == v && r.value.1 == t
  }

  /** A single digit is an operand with its value. */
  lemma DigitOperand(s: Store, c: char)
    requires IsDigit(c)
    ensures ParseOperand(s, [c]) == Ok(DigitValue(c) as real)
  {
    assert [c][0..1] == [c] && [c][..0] == [];
    assert DigitsAt([c], 0, 1) == DigitValue(c);
    assert DigitRun([c], 1) == 0;
    assert DigitRun([c], 0) == 1;
    assert ReadLiteral([c], 0) == Some((DigitValue(c) as real, 1));
  }

  /** A single digit evaluates to its value at every arithmetic level. */
  lemma SingleDigit(ops: FloatOps, s: Store, c: char)
    requires IsDigit(c)
    ensures ParsePower(ops, s, [c]) == Ok(DigitValue(c) as real)
    ensures ParseMultiplication(ops, s, [c]) == Ok(DigitValue(c) as real)
    ensures Yields(ParseSummation(ops, s, [c]), DigitValue(c) as real, s)
  {
    DigitOperand(s, c);
    assert [c][0] == c && c !in POWERS && c !in PRODUCTS && c !in SUMS;
    assert FindLastOf([c], POWERS).None?;
    assert ParsePower(ops, s, [c]) == ParseOperand(s, [c]);
    assert FindLastOf([c], PRODUCTS).None?;
    assert FindLastOf([c], SUMS).None?;
  }

  /** Two digits around a product operator. */
  lemma DigitProduct(ops: FloatOps, s: Store, a: char, op: char, b: char)
    requires IsDigit(a) && IsDigit(b) && op in PRODUCTS
    ensures ParseMultiplication(ops, s, [a, op, b])
         == Ok(Product(ops, op, DigitValue(a) as real, DigitValue(b) as real))
  {
    var e := [a, op, b];
    LastOfAt(e, PRODUCTS, 1);
    assert e[..1] == [a] && e[2..] == [b];
    SingleDigit(ops, s, a);
    SingleDigit(ops, s, b);
  }

  /** A binary sign at the rightmost sign splits the sum into its left sum and right product. */
  lemma BinarySum(ops: FloatOps, s: Store, e: string, d: nat, a: real, t: Store, b: real)
    requires FindLastOf(e, SUMS) == Some(d) && BinarySign(e, d)
    requires Yields(ParseSummation(ops, s, e[..d]), a, t)
    requires ParseMultiplication(ops, t, e[d + 1..]) == Ok(b)
    ensures Yields(ParseSummation(ops, s, e), if e[d] == '+' then a + b else a - b, t)
  {
  }

  /** Sums associate to the left: `8-4-2` is `(8-4)-2`, not `8-(4-2)`. */
  lemma SumsAssociateLeft(ops: FloatOps, s: Store)
    ensures Yields(ParseSummation(ops, s, "8-4-2"), 2.0, s)
  {
    var e := "8-4-2";
    EightFourTwoSplit();
    SingleDigit(ops, s, '8');
    SingleDigit(ops, s, '4');
    SingleDigit(ops, s, '2');
    BinarySum(ops, s, "8-4", 1, 8.0, s, 4.0);
    BinarySum(ops, s, e, 3, 4.0, s, 2.0);
  }

  /** The last sign of `8-4-2` is the '-' at index 3, and that of `8-4` the '-' at index 1. */
  lemma EightFourTwoSplit()
    ensures var e := "8-4-2";
      && FindLastOf(e, SUMS) == Some(3) && BinarySign(e, 3) && e[..3] == "8-4" && e[4..] == "2"
      && FindLastOf("8-4", SUMS) == Some(1) && BinarySign("8-4", 1) && "8-4"[..1] == "8" && "8-4"[2..] == "4"
  {
    LastOfAt("8-4-2", SUMS, 3);
    LastOfAt("8-4", SUMS, 1);
  }

  /** The only sign of `1+2*3` is the binary '+' at index 1. */
  lemma OnePlusSplit()
    ensures var e := "1+2*3";
      FindLastOf(e, SUMS) == Some(1) && BinarySign(e, 1) && e[..1] == "1" && e[2..] == "2*3"
  {
    var e := "1+2*3";
    assert forall j :: 1 < j < |e| ==> e[j] !in SUMS;
    LastOfAt(e, SUMS, 1);
  }

  /** Products bind tighter than sums: `1+2*3` is 7, not 9. */
  lemma ProductInSum(ops: FloatOps, s: Store)
    ensures Yields(ParseSummation(ops, s, "1+2*3"), 7.0, s)
  {
    var e := "1+2*3";
    OnePlusSplit();
    SingleDigit(ops, s, '1');
    DigitProduct(ops, s, '2', '*', '3');
    BinarySum(ops, s, e, 1, 1.0, s, 6.0);
  }

  /** Products bind tighter than sums: `1+2*3-4/5` is 6.2. */
  lemma ProductsBeforeSums(ops: FloatOps, s: Store)
    ensures Yields(ParseSummation(ops, s, "1+2*3-4/5"), 6.2, s)
  {
    var e := "1+2*3-4/5";
    SummandsSplit();
    ProductInSum(ops, s);
    DigitProduct(ops, s, '4', '/', '5');
    assert Product(ops, '/', 4.0, 5.0) == 0.8;
    assert ParseMultiplication(ops, s, e[6..]) == Ok(0.8);
    assert Yields(ParseSummation(ops, s, e[..5]), 7.0, s);
    BinarySum(ops, s, e, 5, 7.0, s, 0.8);
  }

  /** The last sign of `1+2*3-4/5` is the binary '-' at index 5. */
  lemma SummandsSplit()
    ensures var e := "1+2*3-4/5";
      FindLastOf(e, SUMS) == Some(5) && BinarySign(e, 5) && e[..5] == "1+2*3" && e[6..] == "4/5"
  {
    var e := "1+2*3-4/5";
    assert forall j :: 5 < j < |e| ==> e[j] !in SUMS;
    LastOfAt(e, SUMS, 5);
  }

  /**
   * The sign fold takes the sign with the digits and dots after it only,
   * so a '-' in front of a reference leaves an empty operand: `-#1` is an
   * error although `#1` alone is not.
   */
  lemma SignBeforeReference(ops: FloatOps, s: Store)
    ensures ParseSummation(ops, s, "-#1") == Err(EmptyOperand)
  {
    var e := "-#1";
    LastOfAt(e, SUMS, 0);
    assert FindFirstNotOf(e, DIGITS_DOT, 1) == Some(1);
    assert e[0..1] == "-" && "-"[1..] == "";
  }

  /** The first scratch reference alone is a product with that parameter's value. */
  lemma FirstScratchFactor(ops: FloatOps, t: Store)
    ensures ParseMultiplication(ops, t, "#5602") == Ok(Get(t, INTERNAL_PARAMETERS_START))
  {
    var e := "#5602";
    assert forall i :: 0 <= i < |e| ==> e[i] !in PRODUCTS && e[i] !in POWERS;
    FirstScratchText();
    OperandReference(t, INTERNAL_PARAMETERS_START);
  }

  /** `1-#5602` subtracts the first scratch parameter from 1. */
  lemma OneMinusFirstScratch(ops: FloatOps, t: Store)
    ensures Yields(ParseSummation(ops, t, "1-#5602"), 1.0 - Get(t, INTERNAL_PARAMETERS_START), t)
  {
    var e := "1-#5602";
    assert forall j :: 1 < j < |e| ==> e[j] !in SUMS;
    LastOfAt(e, SUMS, 1);
    assert BinarySign(e, 1) && e[..1] == "1" && e[2..] == "#5602";
    FirstScratchFactor(ops, t);
    SingleDigit(ops, t, '1');
    assert Yields(ParseSummation(ops, t, e[..1]), 1.0, t);
    assert ParseMultiplication(ops, t, e[2..]) == Ok(Get(t, INTERNAL_PARAMETERS_START));
    BinarySum(ops, t, e, 1, 1.0, t, Get(t, INTERNAL_PARAMETERS_START));
  }

  /** A fold that succeeds: the next scratch parameter takes the operand and its reference the span. */
  lemma FoldAt(s: Store, e: string, d: nat, len: nat, v: real)
    requires d < |e| && e[d] in SUMS && SignedSpan(e, d) == len
    requires ParseOperand(s, e[d..d + len]) == Ok(v)
    requires s.scratch + 1 < TOTAL_PARAMETERS
    ensures FoldSign(s, e, d).Ok?
    ensures var (f, t) := FoldSign(s, e, d).value;
      && f == e[..d] + Reference(s.scratch + 1) + e[d + len..]
      && t.scratch == s.scratch + 1
      && t.globals == s.globals[s.scratch := v] && t.locals == s.locals
  {
    var rr := ReplaceWithParameter(s, v, e, d, len);
    assert rr.Ok?;
    assert FoldSign(s, e, d) == rr;
  }

  /** Folding the second '-' of `1--3` stores -3 in `#5602` and leaves `1-#5602`. */
  lemma FoldMinusThree(s: Store)
    requires s.scratch == INTERNAL_PARAMETERS_START - 1
    ensures FoldSign(s, "1--3", 2).Ok?
    ensures FoldSign(s, "1--3", 2).value.0 == "1-#5602"
    ensures Get(FoldSign(s, "1--3", 2).value.1, INTERNAL_PARAMETERS_START) == -3.0
  {
    MinusThreeSpan();
    DigitOperand(s, '3');
    assert ParseOperand(s, "-3") == Ok(-3.0);
    FirstScratchText();
    FoldAt(s, "1--3", 2, 2, -3.0);
  }

  /** In `1--3` the unary '-' at index 2 spans `-3`, the rest of the line. */
  lemma MinusThreeSpan()
    ensures var e := "1--3";
      && SignedSpan(e, 2) == 2 && e[2..4] == "-3" && "-3"[1..] == "3"
      && e[..2] + "#5602" + e[4..] == "1-#5602"
  {
    var e := "1--3";
    assert FindFirstNotOf(e, DIGITS_DOT, 3).None?;
  }

  /**
   * A sign after another operator is folded with the digits after it:
   * at the start of a line `1--3` is `1-#5602` with `-3` stored in
   * `#5602`, that is 4.
   */
  lemma DoubleMinus(ops: FloatOps, s: Store)
    requires s.scratch == INTERNAL_PARAMETERS_START - 1
    ensures ParseSummation(ops, s, "1--3").Ok?
    ensures ParseSummation(ops, s, "1--3").value.0 == 4.0
    ensures Get(ParseSummation(ops, s, "1--3").value.1, INTERNAL_PARAMETERS_START) == -3.0
  {
    var e := "1--3";
    LastOfAt(e, SUMS, 2);
    assert !BinarySign(e, 2);
    FoldMinusThree(s);
    var t := FoldSign(s, e, 2).value.1;
    OneMinusFirstScratch(ops, t);
    assert ParseSummation(ops, s, e) == ParseSummation(ops, t, "1-#5602");
  }

  /** The text of a reference to the second scratch parameter. */
  lemma SecondScratchText()
    ensures Reference(INTERNAL_PARAMETERS_START + 1) == "#5603"
  {
    assert NatToString(5603) == "5603" by {
      assert NatToString(5) == "5";
      assert NatToString(56) == NatToString(5) + [DigitChar(6)];
      assert NatToString(560) == NatToString(56) + [DigitChar(0)];
    }
  }

  /** In `-1*+3` the last sign is the unary '+' at index 3, which spans `+3`. */
  lemma PlusThreeSpan()
    ensures var e := "-1*+3";
      && FindLastOf(e, SUMS) == Some(3) && !BinarySign(e, 3)
      && SignedSpan(e, 3) == 2 && e[3..5] == "+3" && "+3"[1..] == "3"
      && e[..3] + "#5602" + e[5..] == "-1*#5602"
  {
    var e := "-1*+3";
    LastOfAt(e, SUMS, 3);
    assert FindFirstNotOf(e, DIGITS_DOT, 4).None?;
  }

  /** Folding the '+' of `-1*+3` stores 3 in `#5602` and leaves `-1*#5602`. */
  lemma FoldPlusThree(s: Store)
    requires s.scratch == INTERNAL_PARAMETERS_START - 1
    ensures FoldSign(s, "-1*+3", 3).Ok?
    ensures var (e, t) := FoldSign(s, "-1*+3", 3).value;
      e == "-1*#5602" && t.scratch == INTERNAL_PARAMETERS_START && Get(t, INTERNAL_PARAMETERS_START) == 3.0
  {
    PlusThreeSpan();
    DigitOperand(s, '3');
    assert ParseOperand(s, "+3") == Ok(3.0);
    FirstScratchText();
    FoldAt(s, "-1*+3", 3, 2, 3.0);
  }

  /** In `-1*#5602` the only sign is the leading '-', which spans `-1`. */
  lemma MinusOneSpan()
    ensures var e := "-1*#5602";
      && FindLastOf(e, SUMS) == Some(0) && !BinarySign(e, 0)
      && SignedSpan(e, 0) == 2 && e[0..2] == "-1" && "-1"[1..] == "1"
      && e[..0] + "#5603" + e[2..] == "#5603*#5602"
  {
    var e := "-1*#5602";
    assert forall j :: 0 < j < |e| ==> e[j] !in SUMS;
    LastOfAt(e, SUMS, 0);
    assert FindFirstNotOf(e, DIGITS_DOT, 1) == Some(2);
  }

  /** Folding the '-' of `-1*#5602` stores -1 in `#5603` and leaves `#5603*#5602`. */
  lemma FoldMinusOne(t: Store)
    requires t.scratch == INTERNAL_PARAMETERS_START
    ensures FoldSign(t, "-1*#5602", 0).Ok?
    ensures var (e, u) := FoldSign(t, "-1*#5602", 0).value;
      && e == "#5603*#5602" && Get(u, INTERNAL_PARAMETERS_START + 1) == -1.0
      && Get(u, INTERNAL_PARAMETERS_START) == Get(t, INTERNAL_PARAMETERS_START)
  {
    MinusOneSpan();
    DigitOperand(t, '1');
    assert ParseOperand(t, "-1") == Ok(-1.0);
    SecondScratchText();
    FoldAt(t, "-1*#5602", 0, 2, -1.0);
  }

  /** A reference alone is a power and a product with the parameter's value. */
  lemma ReferenceFactor(ops: FloatOps, u: Store, k: nat)
    requires 1 <= k <= TOTAL_PARAMETERS
    ensures ParsePower(ops, u, Reference(k)) == Ok(Get(u, k))
    ensures ParseMultiplication(ops, u, Reference(k)) == Ok(Get(u, k))
  {
    LastOfNone(Reference(k), POWERS);
    LastOfNone(Reference(k), PRODUCTS);
    OperandReference(u, k);
  }

  /** Two references around a '*' multiply the two parameters. */
  lemma ReferenceProduct(ops: FloatOps, u: Store, a: nat, b: nat, e: string)
    requires 1 <= a <= TOTAL_PARAMETERS && 1 <= b <= TOTAL_PARAMETERS
    requires e == Reference(a) + "*" + Reference(b)
    ensures ParseMultiplication(ops, u, e) == Ok(Get(u, a) * Get(u, b))
  {
    var ra, rb := Reference(a), Reference(b);
    var d := |ra|;
    assert e[d] == '*';
    assert forall j :: d < j < |e| ==> e[j] == rb[j - d - 1];
    LastOfAt(e, PRODUCTS, d);
    assert e[..d] == ra && e[d + 1..] == rb;
    ReferenceFactor(ops, u, a);
    ReferenceFactor(ops, u, b);
    assert ParseMultiplication(ops, u, e) == Ok(Product(ops, e[d], Get(u, a), Get(u, b)));
  }

  /** The text `#5603*#5602` is the two scratch references around a '*'. */
  lemma ScratchProductText()
    ensures Reference(INTERNAL_PARAMETERS_START + 1) + "*" + Reference(INTERNAL_PARAMETERS_START) == "#5603*#5602"
  {
    FirstScratchText();
    SecondScratchText();
  }

  /**
   * Signs after an operator apply to the operand they precede: `-1*+3`
   * folds `+3` into `#5602` and `-1` into `#5603`, and is -3.
   */
  lemma SignedFactors(ops: FloatOps, s: Store)
    requires s.scratch == INTERNAL_PARAMETERS_START - 1
    ensures ParseSummation(ops, s, "-1*+3").Ok?
    ensures ParseSummation(ops, s, "-1*+3").value.0 == -3.0
  {
    PlusThreeSpan();
    FoldPlusThree(s);
    var t := FoldSign(s, "-1*+3", 3).value.1;
    assert ParseSummation(ops, s, "-1*+3") == ParseSummation(ops, t, "-1*#5602");
    MinusOneSpan();
    FoldMinusOne(t);
    var u := FoldSign(t, "-1*#5602", 0).value.1;
    assert ParseSummation(ops, t, "-1*#5602") == ParseSummation(ops, u, "#5603*#5602");
    ScratchProductText();
    ReferenceProductSum(ops, u, INTERNAL_PARAMETERS_START + 1, INTERNAL_PARAMETERS_START, "#5603*#5602");
  }

  /** Two references around a '*' hold no sign, so they sum to the product of the two parameters. */
  lemma ReferenceProductSum(ops: FloatOps, u: Store, a: nat, b: nat, e: string)
    requires 1 <= a <= TOTAL_PARAMETERS && 1 <= b <= TOTAL_PARAMETERS
    requires e == Reference(a) + "*" + Reference(b)
    ensures Yields(ParseSummation(ops, u, e), Get(u, a) * Get(u, b), u)
  {
    var ra, rb := Reference(a), Reference(b);
    forall j | 0 <= j < |e| ensures e[j] !in SUMS {
      if j < |ra| { assert e[j] == ra[j]; }
      else if j > |ra| { assert e[j] == rb[j - |ra| - 1]; }
    }
    LastOfNone(e, SUMS);
    ReferenceProduct(ops, u, a, b, e);
  }
}
