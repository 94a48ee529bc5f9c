/**
 * Character classes and string searches of the C/C++ library calls the
 * interpreter relies on (`isdigit`, `isalpha`, `isspace`, `tolower`,
 * `toupper`, `find`, `find_first_of`, `find_last_of`, ...), in the "C"
 * locale the interpreter runs in: ASCII only.
 *
 * A search that the library answers with `npos` answers `None` here.
 */
module Text {
  import opened Errors

  predicate IsDigit(c: char) { '0' <= c <= '9' }
  predicate IsUpper(c: char) { 'A' <= c <= 'Z' }
  predicate IsLower(c: char) { 'a' <= c <= 'z' }
  predicate IsAlpha(c: char) { IsUpper(c) || IsLower(c) }

  /** `isspace` in the "C" locale. */
  predicate IsSpace(c: char) {
    c == ' ' || c == '\t' || c == '\n' || c == '\r' || c == '\U{000B}' || c == '\U{000C}'
  }

  /** The two characters trimmed off a comment's text. */
  predicate IsBlank(c: char) { c == ' ' || c == '\t' }

  function ToLower(c: char): (r: char)
    ensures !IsUpper(r)
    ensures IsAlpha(c) <==> IsAlpha(r)
    ensures !IsUpper(c) ==> r == c
  {
    if IsUpper(c) then (c as int + 32) as char else c
  }

  function ToUpper(c: char): (r: char)
    ensures !IsLower(r)
    ensures IsAlpha(c) <==> IsAlpha(r)
    ensures !IsLower(c) ==> r == c
  {
    if IsLower(c) then (c as int - 32) as char else c
  }

  function LowerString(s: string): (r: string)
    ensures |r| == |s|
    ensures forall i :: 0 <= i < |s| ==> r[i] == ToLower(s[i])
  {
    seq(|s|, i requires 0 <= i < |s| => ToLower(s[i]))
  }

  function UpperString(s: string): (r: string)
    ensures |r| == |s|
    ensures forall i :: 0 <= i < |s| ==> r[i] == ToUpper(s[i])
  {
    seq(|s|, i requires 0 <= i < |s| => ToUpper(s[i]))
  }

  /** No character of `s` belongs to `cs`. */
  predicate Avoids(s: string, cs: set<char>) {
    forall i :: 0 <= i < |s| ==> s[i] !in cs
  }

  lemma AvoidsConcat(a: string, b: string, cs: set<char>)
    ensures Avoids(a + b, cs) <==> Avoids(a, cs) && Avoids(b, cs)
  {
    if Avoids(a, cs) && Avoids(b, cs) {
      forall i | 0 <= i < |a + b|
        ensures (a + b)[i] !in cs
      {
        if i >= |a| {
          assert (a + b)[i] == b[i - |a|];
        }
      }
    }
    if Avoids(a + b, cs) {
      forall i | 0 <= i < |a|
        ensures a[i] !in cs
      {
        assert (a + b)[i] == a[i];
      }
      forall i | 0 <= i < |b|
        ensures b[i] !in cs
      {
        assert (a + b)[|a| + i] == b[i];
      }
    }
  }

  /** Splicing text that avoids `cs` into a line that avoids it. */
  lemma SpliceAvoids(s: string, start: nat, len: nat, t: string, cs: set<char>)
    requires start <= |s| && Avoids(s, cs) && Avoids(t, cs)
    ensures Avoids(Splice(s, start, len, t), cs)
  {
    var tail := if start + len <= |s| then s[start + len..] else [];
    AvoidsConcat(s[..start], t, cs);
    AvoidsConcat(s[..start] + t, tail, cs);
  }

  /** `s.compare(0, |p|, p) == 0`. */
  predicate HasPrefix(s: string, p: string) {
    |p| <= |s| && s[..|p|] == p
  }

  /** `w` occurs in `s` starting at index `i`. */
  predicate OccursAt(s: string, w: string, i: nat) {
    i + |w| <= |s| && s[i..i + |w|] == w
  }

  predicate Contains(s: string, w: string) {
    exists i: nat :: i <= |s| && OccursAt(s, w, i)
  }

  /** `s.find(w, from)`. */
  function Find(s: string, w: string, from: nat): (r: Option<nat>)
    ensures r.Some? ==> from <= r.value && OccursAt(s, w, r.value)
    ensures r.Some? ==> forall j: nat :: from <= j < r.value ==> !OccursAt(s, w, j)
    ensures r.None? ==> forall j: nat :: from <= j ==> !OccursAt(s, w, j)
    decreases |s| - from
  {
    if from + |w| > |s| then None
    else if s[from..from + |w|] == w then Some(from)
    else Find(s, w, from + 1)
  }

  /** `s.erase(p, len)`: `s` without the `len` characters from index `p`. */
  function Erase(s: string, p: nat, len: nat): (r: string)
    requires p + len <= |s|
    ensures |r| == |s| - len
    ensures forall k :: 0 <= k < p ==> r[k] == s[k]
    ensures forall k :: p <= k < |r| ==> r[k] == s[k + len]
  {
    seq(|s| - len, k requires 0 <= k < |s| - len => if k < p then s[k] else s[k + len])
  }

  /** `s.find_first_of(cs, from)`. */
  function FindFirstOf(s: string, cs: set<char>, from: nat): (r: Option<nat>)
    ensures r.Some? ==> from <= r.value < |s| && s[r.value] in cs
    ensures r.Some? ==> forall j :: from <= j < r.value ==> s[j] !in cs
    ensures r.None? ==> forall j :: from <= j < |s| ==> s[j] !in cs
    decreases |s| - from
  {
    if from >= |s| then None
    else if s[from] in cs then Some(from)
    else FindFirstOf(s, cs, from + 1)
  }

  /** `s.find_first_not_of(cs, from)`. */
  function FindFirstNotOf(s: string, cs: set<char>, from: nat): (r: Option<nat>)
    ensures r.Some? ==> from <= r.value < |s| && s[r.value] !in cs
    ensures r.Some? ==> forall j :: from <= j < r.value ==> s[j] in cs
    ensures r.None? ==> forall j :: from <= j < |s| ==> s[j] in cs
    decreases |s| - from
  {
    if from >= |s| then None
    else if s[from] !in cs then Some(from)
    else FindFirstNotOf(s, cs, from + 1)
  }

  /** `s.find_last_of(cs)`. */
  function FindLastOf(s: string, cs: set<char>): (r: Option<nat>)
    ensures r.Some? ==> r.value < |s| && s[r.value] in cs
    ensures r.Some? ==> forall j :: r.value < j < |s| ==> s[j] !in cs
    ensures r.None? ==> forall j :: 0 <= j < |s| ==> s[j] !in cs
  {
    if |s| == 0 then None
    else if s[|s| - 1] in cs then Some(|s| - 1)
    else FindLastOf(s[..|s| - 1], cs)
  }

  /** The last character of `cs` found where the search says it is. */
  lemma {:induction false} LastOfAt(s: string, cs: set<char>, i: nat)
    requires i < |s| && s[i] in cs
    requires forall j :: i < j < |s| ==> s[j] !in cs
    ensures FindLastOf(s, cs) == Some(i)
    decreases |s|
  {
    if i < |s| - 1 {
      LastOfAt(s[..|s| - 1], cs, i);
    }
  }

  /** No character of `cs` anywhere: the backward search finds nothing. */
  lemma {:induction false} LastOfNone(s: string, cs: set<char>)
    requires forall j :: 0 <= j < |s| ==> s[j] !in cs
    ensures FindLastOf(s, cs).None?
    decreases |s|
  {
    if |s| > 0 {
      LastOfNone(s[..|s| - 1], cs);
    }
  }

  /**
   * The nesting scan shared by comments and expressions: from index `i`,
   * inside `depth` further open pairs, the index of the `close` character
   * that closes the pair opened just before `i`.
   */
  function MatchingClose(s: string, open: char, close: char, i: nat, depth: nat): (r: Option<nat>)
    requires open != close
    ensures r.Some? ==> i <= r.value < |s| && s[r.value] == close
    ensures r.Some? ==> i <= |s| && depth + Level(s, open, close, i, r.value) == 0
    ensures forall k :: i <= k < (if r.Some? then r.value else |s|) && s[k] == close ==>
      depth + Level(s, open, close, i, k) > 0
    decreases |s| - i
  {
    if i >= |s| then None
    else if s[i] == open then MatchingClose(s, open, close, i + 1, depth + 1)
    else if s[i] == close then (if depth == 0 then Some(i) else MatchingClose(s, open, close, i + 1, depth - 1))
    else MatchingClose(s, open, close, i + 1, depth)
  }

  /** The nesting that `s[i..j]` adds: its `open` characters minus its `close` characters. */
  function Level(s: string, open: char, close: char, i: nat, j: nat): int
    requires i <= j <= |s|
    decreases j - i
  {
    if i == j then 0
    else (if s[i] == open then 1 else if s[i] == close then -1 else 0) + Level(s, open, close, i + 1, j)
  }

  /** Number of occurrences of any character of `cs` in `s`. */
  function Count(s: string, cs: set<char>): nat
  {
    if |s| == 0 then 0
    else (if s[|s| - 1] in cs then 1 else 0) + Count(s[..|s| - 1], cs)
  }

  lemma {:induction false} CountConcat(a: string, b: string, cs: set<char>)
    ensures Count(a + b, cs) == Count(a, cs) + Count(b, cs)
    decreases |b|
  {
    if |b| == 0 {
      assert a + b == a;
    } else {
      assert (a + b)[..|a + b| - 1] == a + b[..|b| - 1];
      CountConcat(a, b[..|b| - 1], cs);
    }
  }

  lemma {:induction false} CountNone(s: string, cs: set<char>)
    requires forall i :: 0 <= i < |s| ==> s[i] !in cs
    ensures Count(s, cs) == 0
    decreases |s|
  {
    if |s| > 0 {
      CountNone(s[..|s| - 1], cs);
    }
  }

  lemma {:induction false} CountPositive(s: string, cs: set<char>, i: nat)
    requires i < |s| && s[i] in cs
    ensures Count(s, cs) >= 1
    decreases |s|
  {
    if i < |s| - 1 {
      CountPositive(s[..|s| - 1], cs, i);
    }
  }

  /** Counting over the pieces `s[..i]`, `s[i..j]`, `s[j..]`. */
  lemma CountSplit(s: string, i: nat, j: nat, cs: set<char>)
    requires i <= j <= |s|
    ensures Count(s, cs) == Count(s[..i], cs) + Count(s[i..j], cs) + Count(s[j..], cs)
  {
    assert s == s[..i] + s[i..j] + s[j..];
    CountConcat(s[..i] + s[i..j], s[j..], cs);
    CountConcat(s[..i], s[i..j], cs);
  }

  /** Removing a span that holds a character of `cs` lowers the count. */
  lemma CountDropSpan(s: string, cs: set<char>, p: nat, q: nat)
    requires p < q <= |s| && s[p] in cs
    ensures Count(s[..p] + s[q..], cs) < Count(s, cs)
  {
    CountSplit(s, p, q, cs);
    CountConcat(s[..p], s[q..], cs);
    CountPositive(s[p..q], cs, 0);
  }

  /** Moving the start of a suffix past a character of `cs` lowers its count. */
  lemma CountSuffixPast(s: string, cs: set<char>, i: nat, p: nat, q: nat)
    requires i <= p < q <= |s| && s[p] in cs
    ensures Count(s[q..], cs) < Count(s[i..], cs)
  {
    assert s[i..] == s[i..p] + s[p..q] + s[q..];
    CountConcat(s[i..p] + s[p..q], s[q..], cs);
    CountConcat(s[i..p], s[p..q], cs);
    CountPositive(s[p..q], cs, 0);
  }

  /** Replacing a span that holds a character of `cs` by text without one lowers the count. */
  lemma CountReplaceSpan(s: string, cs: set<char>, p: nat, i: nat, q: nat, t: string)
    requires p <= i < q <= |s| && s[i] in cs && Count(t, cs) == 0
    ensures Count(s[..p] + t + s[q..], cs) < Count(s, cs)
  {
    CountSplit(s, p, q, cs);
    CountConcat(s[..p] + t, s[q..], cs);
    CountConcat(s[..p], t, cs);
    CountPositive(s[p..q], cs, i - p);
  }

  /** The part before a character of `cs` counts fewer of them. */
  lemma CountPrefix(s: string, cs: set<char>, d: nat)
    requires d < |s| && s[d] in cs
    ensures Count(s[..d], cs) < Count(s, cs)
  {
    assert s == s[..d] + s[d..];
    CountConcat(s[..d], s[d..], cs);
    CountPositive(s[d..], cs, 0);
  }

  /** A slice that starts after a character of `cs` counts fewer of them. */
  lemma CountInside(s: string, cs: set<char>, p: nat, a: nat, b: nat)
    requires p < a <= b <= |s| && s[p] in cs
    ensures Count(s[a..b], cs) < Count(s, cs)
  {
    CountSplit(s, a, b, cs);
    CountPositive(s[..a], cs, p);
  }

  /** Two strings that agree on their first `m` characters agree on fewer. */
  lemma SamePrefix(a: string, b: string, m: nat, n: nat)
    requires n <= m <= |a| && m <= |b| && a[..m] == b[..m]
    ensures a[..n] == b[..n]
  {
    assert a[..n] == a[..m][..n];
    assert b[..n] == b[..m][..n];
  }

  /** `erase(remove_if(s, isspace))`. */
  function RemoveSpaces(s: string): (r: string)
    ensures |r| <= |s|
    ensures forall i :: 0 <= i < |r| ==> !IsSpace(r[i])
    ensures (forall i :: 0 <= i < |s| ==> !IsSpace(s[i])) ==> r == s
  {
    if |s| == 0 then []
    else if IsSpace(s[0]) then RemoveSpaces(s[1..])
    else [s[0]] + RemoveSpaces(s[1..])
  }

  /** `s` with leading and trailing blanks (space, tab) removed. */
  function TrimBlanks(s: string): (r: string)
    ensures |r| <= |s|
    ensures r != [] ==> !IsBlank(r[0]) && !IsBlank(r[|r| - 1])
    ensures (forall i :: 0 <= i < |s| ==> IsBlank(s[i])) <==> r == []
  {
    if |s| == 0 then []
    else if IsBlank(s[0]) then TrimBlanks(s[1..])
    else if IsBlank(s[|s| - 1]) then TrimBlanks(s[..|s| - 1])
    else s
  }

  /** The string `s` with `len` characters from `start` replaced by `t` (`replace`, `erase`). */
  function Splice(s: string, start: nat, len: nat, t: string): (r: string)
    requires start <= |s|
    ensures start + len <= |s| ==> |r| == |s| - len + |t|
  {
    s[..start] + t + (if start + len <= |s| then s[start + len..] else [])
  }

  /**
   * What a splice holds: the text in front of `start`, then the inserted
   * text, then what followed the replaced span.
   */
  lemma SpliceAt(s: string, start: nat, len: nat, t: string)
    requires start <= |s|
    ensures var r := Splice(s, start, len, t);
      && start + |t| <= |r| && r[..start] == s[..start]
      && (forall i :: start <= i < start + |t| ==> r[i] == t[i - start])
      && (start + len <= |s| ==> forall i :: start + |t| <= i < |r| ==> r[i] == s[i - |t| + len])
      && (start + len > |s| ==> |r| == start + |t|)
  {
  }
}
