/**
 * The operator simplifier: word and two-character operators are rewritten,
 * in a fixed order, into single characters that the expression evaluator
 * splits on.
 */
module Operators {
  import opened Errors
  import opened Text

  /**
   * The rewriting loop from index `pos`: the next occurrence of `op` at or
   * after `pos` becomes `c`, and the search resumes at that same index.
   */
  function ReplaceFrom(line: string, op: string, c: char, pos: nat): (r: string)
    requires |op| >= 2 && pos <= |line|
    ensures |r| <= |line|
    decreases |line| - pos
  {
    match Find(line, op, pos)
    case None => line
    case Some(p) => ReplaceFrom(line[..p] + [c] + line[p + |op|..], op, c, p)
  }

  /** `_ReplaceSingleOperator(line, op, c)`. */
  function ReplaceOperator(line: string, op: string, c: char): string
    requires |op| >= 2
  {
    ReplaceFrom(line, op, c, 0)
  }

  /**
   * An occurrence of `w` after one rewrite step at `p` (with `n`
   * characters replaced by `c`, which `w` does not contain) lies wholly
   * before or wholly after the new character, so it was already in the line.
   */
  lemma StepOccurrence(line: string, p: nat, n: nat, c: char, w: string, i: nat)
    requires 1 <= n && p + n <= |line| && c !in w
    ensures OccursAt(line[..p] + [c] + line[p + n..], w, i) ==>
      (i + |w| <= p && OccursAt(line, w, i)) || (i > p && OccursAt(line, w, i + n - 1))
  {
    var l := line[..p] + [c] + line[p + n..];
    if OccursAt(l, w, i) {
      assert l[p] == c;
      assert forall k :: i <= k < i + |w| ==> w[k - i] == l[k];
      if i + |w| <= p {
        assert l[i..i + |w|] == line[i..i + |w|];
      } else {
        assert i > p;
        assert l[i..i + |w|] == line[i + n - 1..i + n - 1 + |w|];
      }
    }
  }

  /** When `c` is not part of `op`, no occurrence of `op` is left. */
  lemma {:induction false} ReplaceFromLeavesNone(line: string, op: string, c: char, pos: nat)
    requires |op| >= 2 && pos <= |line| && c !in op
    requires forall j: nat :: j < pos ==> !OccursAt(line, op, j)
    ensures !Contains(ReplaceFrom(line, op, c, pos), op)
    decreases |line| - pos
  {
    match Find(line, op, pos)
    case None =>
    case Some(p) =>
      var l := line[..p] + [c] + line[p + |op|..];
      forall j: nat | j < p
        ensures !OccursAt(l, op, j)
      {
        StepOccurrence(line, p, |op|, c, op, j);
      }
      ReplaceFromLeavesNone(l, op, c, p);
  }

  /** A word that does not contain `c` and is absent from the line stays absent. */
  lemma {:induction false} ReplaceFromKeepsAbsent(line: string, op: string, c: char, pos: nat, w: string)
    requires |op| >= 2 && pos <= |line| && c !in w
    requires !Contains(line, w)
    ensures !Contains(ReplaceFrom(line, op, c, pos), w)
    decreases |line| - pos
  {
    match Find(line, op, pos)
    case None =>
    case Some(p) =>
      var l := line[..p] + [c] + line[p + |op|..];
      forall i: nat | i <= |l|
        ensures !OccursAt(l, w, i)
      {
        StepOccurrence(line, p, |op|, c, w, i);
      }
      ReplaceFromKeepsAbsent(l, op, c, p, w);
  }

  /** A line without the first character of `op` is left as it is. */
  lemma {:induction false} ReplaceWithoutFirstChar(line: string, op: string, c: char, pos: nat)
    requires |op| >= 2 && pos <= |line|
    requires forall i :: pos <= i < |line| ==> line[i] != op[0]
    ensures ReplaceFrom(line, op, c, pos) == line
  {
    forall j: nat | pos <= j
      ensures !OccursAt(line, op, j)
    {
      if j + |op| <= |line| {
        assert line[j..j + |op|][0] == line[j];
      }
    }
  }

  /** The rewrites in the order they are applied. */
  const REWRITES: seq<(string, char)> := [
    ("mod", '%'), ("and", '&'), ("xor", '^'), ("or", '|'), ("**", '@'), ("eq", '~'),
    ("ne", '!'), ("gt", '>'), ("ge", '}'), ("lt", '<'), ("le", '{')]

  /** No operator word contains any of the replacement characters. */
  predicate Separated(k: nat, j: nat)
    requires k < |REWRITES| && j < |REWRITES|
  {
    |REWRITES[k].0| >= 2 && REWRITES[j].1 !in REWRITES[k].0
  }

  lemma RewritesSeparated()
    ensures forall k, j :: 0 <= k < |REWRITES| && 0 <= j < |REWRITES| ==> Separated(k, j)
  {
  }

  /** The line after the first `n` rewrites. */
  function Simplify(line: string, n: nat): string
    requires n <= |REWRITES|
  {
    if n == 0 then line
    else
      RewritesSeparated();
      assert Separated(n - 1, n - 1);
      ReplaceOperator(Simplify(line, n - 1), REWRITES[n - 1].0, REWRITES[n - 1].1)
  }

  /** `_SimplifyOperators`. */
  function SimplifyOperators(line: string): string {
    Simplify(line, |REWRITES|)
  }

  /** After the first `n` rewrites none of their words is left. */
  lemma {:induction false} SimplifyLeavesNone(line: string, n: nat)
    requires n <= |REWRITES|
    ensures forall k :: 0 <= k < n ==> !Contains(Simplify(line, n), REWRITES[k].0)
    decreases n
  {
    if n > 0 {
      RewritesSeparated();
      var prev := Simplify(line, n - 1);
      var (op, c) := REWRITES[n - 1];
      assert Separated(n - 1, n - 1);
      SimplifyLeavesNone(line, n - 1);
      ReplaceFromLeavesNone(prev, op, c, 0);
      forall k | 0 <= k < n - 1
        ensures !Contains(Simplify(line, n), REWRITES[k].0)
      {
        assert Separated(k, n - 1);
        ReplaceFromKeepsAbsent(prev, op, c, 0, REWRITES[k].0);
      }
    }
  }

  /** No operator word survives simplification. */
  lemma SimplifiedHasNoWords(line: string)
    ensures forall k :: 0 <= k < |REWRITES| ==> !Contains(SimplifyOperators(line), REWRITES[k].0)
  {
    SimplifyLeavesNone(line, |REWRITES|);
  }

  /** The one rewrite that changes "0xor1". */
  lemma XorRewrite()
    ensures ReplaceOperator("0xor1", "xor", '^') == "0^1"
  {
    var l := "0xor1";
    assert Find(l, "xor", 0) == Some(1) by {
      assert l[0..3][0] == '0';
      assert l[1..4] == "xor";
    }
    assert l[..1] + ['^'] + l[4..] == "0^1";
    ReplaceWithoutFirstChar("0^1", "xor", '^', 1);
  }

  /** Because `xor` is rewritten before `or`, it becomes `^` and never `x|`. */
  lemma XorBeforeOr()
    ensures SimplifyOperators("0xor1") == "0^1"
  {
    var l := "0xor1";
    assert REWRITES[0] == ("mod", '%') && REWRITES[1] == ("and", '&') && REWRITES[2] == ("xor", '^');
    ReplaceWithoutFirstChar(l, "mod", '%', 0);
    assert Simplify(l, 1) == l;
    ReplaceWithoutFirstChar(l, "and", '&', 0);
    assert Simplify(l, 2) == l;
    XorRewrite();
    assert Simplify(l, 3) == "0^1";
    TailWordsAbsent();
    SimplifyStays(l, "0^1", |REWRITES|);
  }

  /** "0^1" holds none of the first characters of the words after `xor`. */
  lemma TailWordsAbsent()
    ensures forall i, j :: 0 <= i < |"0^1"| && 3 <= j < |REWRITES| ==> "0^1"[i] != REWRITES[j].0[0]
  {
  }

  /** A line with none of the first characters of the remaining words does not change further. */
  lemma {:induction false} SimplifyStays(l: string, t: string, k: nat)
    requires 3 <= k <= |REWRITES| && Simplify(l, 3) == t
    requires forall i, j :: 0 <= i < |t| && 3 <= j < |REWRITES| ==> t[i] != REWRITES[j].0[0]
    ensures Simplify(l, k) == t
    decreases k
  {
    if k > 3 {
      SimplifyStays(l, t, k - 1);
      ReplaceWithoutFirstChar(t, REWRITES[k - 1].0, REWRITES[k - 1].1, 0);
    }
  }
}
