/**
 * The line normaliser: what every source line goes through before it is
 * interpreted — comment removal (with active comments), the character
 * check, whitespace and case folding, block delete, the N-word and the
 * O-word — and the output formatting applied to a finished G-code line.
 */
module Normaliser {
  import opened Errors
  import opened Text
  import opened Numerals
  import opened Parameters
  import opened Extra

  /** Precision used for parameters resolved inside active comments. */
  const COMMENT_PRECISION: nat := 4

  // ------------------------------------------------------------------
  // Comments
  // ------------------------------------------------------------------

  /**
   * The comment that starts at `pos`: how many characters to erase and its
   * text without leading and trailing blanks. A ';' comment runs to the end
   * of the line; a '(' comment runs to its matching ')', with nested pairs
   * inside it.
   */
  function CommentAt(line: string, pos: nat): (r: Result<(nat, string)>)
    requires pos < |line| && line[pos] in {';', '('}
    ensures r.Ok? ==> 1 <= r.value.0 && pos + r.value.0 <= |line|
    ensures r.Ok? && line[pos] == ';' ==> pos + r.value.0 == |line|
    ensures r.Ok? && line[pos] == '(' ==> line[pos + r.value.0 - 1] == ')'
    ensures r.Err? ==> line[pos] == '(' && r.error == NoClosingComment
  {
    if line[pos] == '(' then
      match MatchingClose(line, '(', ')', pos + 1, 0)
      case None => Err(NoClosingComment)
      case Some(j) => Ok((j - pos + 1, TrimBlanks(line[pos + 1..j])))
    else Ok((|line| - pos, TrimBlanks(line[pos + 1..])))
  }

  /**
   * Which text a comment is: a ';' comment is the rest of the line; a '('
   * comment ends at the first ')' where the parentheses inside it balance,
   * and it is an error exactly when no ')' balances them.
   */
  lemma {:induction false} CommentBalanced(line: string, pos: nat)
    requires pos < |line| && line[pos] in {';', '('}
    ensures var r := CommentAt(line, pos);
      r.Ok? && line[pos] == ';' ==> r.value.1 == TrimBlanks(line[pos + 1..])
    ensures var r := CommentAt(line, pos);
      r.Ok? && line[pos] == '(' ==>
      var close := pos + r.value.0 - 1;
      && Level(line, '(', ')', pos + 1, close) == 0
      && (forall k :: pos + 1 <= k < close && line[k] == ')' ==> Level(line, '(', ')', pos + 1, k) > 0)
      && r.value.1 == TrimBlanks(line[pos + 1..close])
    ensures CommentAt(line, pos).Err? ==>
      forall k :: pos + 1 <= k < |line| && line[k] == ')' ==> Level(line, '(', ')', pos + 1, k) > 0
  {
  }

  /** The slot `slot` set to `text` with its parameters resolved at the comment precision, and the store after its assignments. */
  function Resolved(s: Store, box: Slots, slot: nat, text: string): Result<(Slots, Store)>
    requires slot < TOTAL_TYPES
  {
    var e := ResolveParameters(s, text, COMMENT_PRECISION);
    if e.Ok? then Ok((AssignSlot(box, slot, e.value.0), e.value.1)) else Err(e.error)
  }

  /**
   * Carrying out an active comment: a comment whose text starts, in any
   * case, with "msg," "print," "debug," or "log," puts the rest of its text
   * into the MSG, PRN, DBG or LOG slot; for the last three the parameters in
   * it are resolved first (assignments included). Any other comment does
   * nothing.
   */
  function Dispatch(s: Store, box: Slots, text: string): (r: Result<(Slots, Store)>)
    ensures r.Ok? && HasPrefix(LowerString(text), "msg,") ==>
      r.value == (AssignSlot(box, MSG, text[4..]), s)
    ensures r.Ok? ==> r.value.1.scratch == s.scratch
    ensures !HasPrefix(LowerString(text), "msg,") && !HasPrefix(LowerString(text), "print,")
         && !HasPrefix(LowerString(text), "debug,") && !HasPrefix(LowerString(text), "log,")
         ==> r == Ok((box, s))
    ensures !HasPrefix(LowerString(text), "msg,") && HasPrefix(LowerString(text), "print,") ==>
      r == Resolved(s, box, PRN, text[6..])
    ensures !HasPrefix(LowerString(text), "msg,") && !HasPrefix(LowerString(text), "print,")
         && HasPrefix(LowerString(text), "debug,")
         ==> r == Resolved(s, box, DBG, text[6..])
    ensures !HasPrefix(LowerString(text), "msg,") && !HasPrefix(LowerString(text), "print,")
         && !HasPrefix(LowerString(text), "debug,") && HasPrefix(LowerString(text), "log,")
         ==> r == Resolved(s, box, LOG, text[4..])
  {
    var low := LowerString(text);
    if HasPrefix(low, "msg,") then
      Ok((AssignSlot(box, MSG, text[4..]), s))
    else if HasPrefix(low, "print,") then
      var (t, s') :- ResolveParameters(s, text[6..], COMMENT_PRECISION);
      Ok((AssignSlot(box, PRN, t), s'))
    else if HasPrefix(low, "debug,") then
      var (t, s') :- ResolveParameters(s, text[6..], COMMENT_PRECISION);
      Ok((AssignSlot(box, DBG, t), s'))
    else if HasPrefix(low, "log,") then
      var (t, s') :- ResolveParameters(s, text[4..], COMMENT_PRECISION);
      Ok((AssignSlot(box, LOG, t), s'))
    else Ok((box, s))
  }

  /**
   * The line once its comments are removed, leftmost first, as the source
   * does without a mailbox.
   */
  function StripComments(line: string): (r: Result<string>)
    ensures r.Ok? ==> forall i :: 0 <= i < |r.value| ==> r.value[i] != ';' && r.value[i] != '('
    ensures r.Ok? ==> |r.value| <= |line|
    ensures r.Err? ==> r.error == NoClosingComment
    ensures (forall i :: 0 <= i < |line| ==> line[i] != ';' && line[i] != '(') ==> r == Ok(line)
    decreases |line|
  {
    match FindFirstOf(line, {';', '('}, 0)
    case None => Ok(line)
    case Some(pos) =>
      var (len, _) :- CommentAt(line, pos);
      StripComments(Erase(line, pos, len))
  }

  /**
   * `_ProcessComments`: comments are removed one at a time, leftmost first,
   * until none is left; with a mailbox (`active`) each one is dispatched as
   * soon as it is removed. The result is the line, the mailbox and the store.
   * Dispatching does not change which text is removed: a successful run
   * leaves the line `StripComments` gives, and without a mailbox the two
   * agree on success and failure and nothing else changes.
   */
  function ProcessComments(s: Store, box: Slots, active: bool, line: string): (r: Result<(string, Slots, Store)>)
    ensures r.Ok? ==> StripComments(line) == Ok(r.value.0)
    ensures r.Ok? ==> r.value.2.scratch == s.scratch
    ensures !active ==> (r.Ok? <==> StripComments(line).Ok?)
    ensures !active && r.Ok? ==> r.value.1 == box && r.value.2 == s
    decreases |line|
  {
    match FindFirstOf(line, {';', '('}, 0)
    case None => Ok((line, box, s))
    case Some(pos) =>
      var (len, text) :- CommentAt(line, pos);
      var rest := Erase(line, pos, len);
      if active then
        var (box', s') :- Dispatch(s, box, text);
        ProcessComments(s', box', active, rest)
      else ProcessComments(s, box, active, rest)
  }

  /**
   * Without a mailbox `_ProcessComments` is `StripComments`: the same line
   * or the same error, and the mailbox and the store untouched.
   */
  lemma {:induction false} PassiveComments(s: Store, box: Slots, line: string)
    ensures var e := StripComments(line);
      ProcessComments(s, box, false, line) == if e.Ok? then Ok((e.value, box, s)) else Err(e.error)
    decreases |line|
  {
    match FindFirstOf(line, {';', '('}, 0)
    case None =>
    case Some(pos) =>
      var c := CommentAt(line, pos);
      if c.Ok? {
        PassiveComments(s, box, Erase(line, pos, c.value.0));
      }
  }

  // ------------------------------------------------------------------
  // Preparing the line
  // ------------------------------------------------------------------

  /** Characters that may not appear in a line outside comments. */
  const FORBIDDEN: set<char> :=
    {'%', '&', '|', '^', '@', '~', '!', '<', '>', '{', '}', '(', ')', '$', '?', ',', '"', '`', '\'', ':', ';', '_'}

  /**
   * `_PrepareLine`: rejects a forbidden character, then removes whitespace
   * and lowercases; with block delete on, a line that then starts with '/'
   * is dropped entirely.
   */
  function PrepareLine(line: string, blockDelete: bool): (r: Result<string>)
    ensures r.Err? <==> exists i :: 0 <= i < |line| && line[i] in FORBIDDEN
    ensures r.Err? ==> r.error == UnexpectedCharacter
    ensures r.Ok? ==> forall i :: 0 <= i < |r.value| ==> !IsSpace(r.value[i]) && !IsUpper(r.value[i])
    ensures r.Ok? ==> forall i :: 0 <= i < |r.value| ==> r.value[i] !in FORBIDDEN
    ensures r.Ok? && !blockDelete ==> r.value == LowerString(RemoveSpaces(line))
    ensures r.Ok? && blockDelete ==>
      var t := LowerString(RemoveSpaces(line));
      r.value == if t != [] && t[0] == '/' then "" else t
  {
    if FindFirstOf(line, FORBIDDEN, 0).Some? then Err(UnexpectedCharacter)
    else
      var u := RemoveSpaces(line);
      var t := LowerString(u);
      assert forall i :: 0 <= i < |t| ==> t[i] !in FORBIDDEN by {
        SpacesKeepAbsent(line, FORBIDDEN);
        forall i | 0 <= i < |t|
          ensures t[i] !in FORBIDDEN
        {
          assert t[i] == ToLower(u[i]);
          if IsUpper(u[i]) {
            assert IsLower(t[i]);
          }
        }
      }
      if blockDelete && t != [] && t[0] == '/' then Ok("") else Ok(t)
  }

  /** Removing whitespace adds no character. */
  lemma {:induction false} SpacesKeepAbsent(s: string, cs: set<char>)
    requires forall i :: 0 <= i < |s| ==> s[i] !in cs
    ensures forall i :: 0 <= i < |RemoveSpaces(s)| ==> RemoveSpaces(s)[i] !in cs
    decreases |s|
  {
    if |s| > 0 {
      SpacesKeepAbsent(s[1..], cs);
    }
  }

  /** `_RemoveNword`: a leading 'n' must be followed by digits; both are dropped. */
  function RemoveNword(line: string): (r: Result<string>)
    ensures r.Err? <==> |line| > 0 && line[0] == 'n' && (|line| == 1 || !IsDigit(line[1]))
    ensures r.Err? ==> r.error == IllFormedNword
    ensures r.Ok? && (|line| == 0 || line[0] != 'n') ==> r.value == line
    ensures r.Ok? && |line| > 0 && line[0] == 'n' ==>
      exists k :: 2 <= k <= |line| && r.value == line[k..] && AllDigits(line[1..k])
        && (k < |line| ==> !IsDigit(line[k]))
  {
    if |line| == 0 || line[0] != 'n' then Ok(line)
    else if |line| <= 1 || !IsDigit(line[1]) then Err(IllFormedNword)
    else
      var k := 1 + DigitRun(line, 1);
      assert AllDigits(line[1..k]);
      Ok(line[k..])
  }

  /** Range of the library's unsigned long reader on a 64-bit platform. */
  const ULONG_MAX: nat := 0xFFFF_FFFF_FFFF_FFFF
  /** O-numbers are kept in a 32-bit unsigned integer. */
  const ONUMBER_MODULUS: nat := 0x1_0000_0000

  datatype OWord = OWord(number: nat, command: string, rest: string)

  /** Length of the run of lowercase letters starting at `i`. */
  function LowerRun(s: string, i: nat): (n: nat)
    requires i <= |s|
    ensures i + n <= |s|
    ensures forall k :: i <= k < i + n ==> IsLower(s[k])
    ensures i + n < |s| ==> !IsLower(s[i + n])
    decreases |s| - i
  {
    if i < |s| && IsLower(s[i]) then 1 + LowerRun(s, i + 1) else 0
  }

  /**
   * `_ReadOword`: `None` when the line does not start with 'o'. Otherwise
   * 'o' must be followed by digits; the number (narrowed to 32 bits) is
   * followed by the command, the run of lowercase letters after it, and the
   * rest of the line.
   */
  function ReadOword(line: string): (r: Result<Option<OWord>>)
    ensures (|line| == 0 || line[0] != 'o') <==> r == Ok(None)
    ensures r.Err? ==> r.error in {IllFormedOword, ONumberOutOfRange}
    ensures r.Err? && r.error == IllFormedOword <==> |line| > 0 && line[0] == 'o' && (|line| == 1 || !IsDigit(line[1]))
    ensures r.Ok? && r.value.Some? ==>
      var w := r.value.value;
      && w.number < ONUMBER_MODULUS
      && (forall i :: 0 <= i < |w.command| ==> IsLower(w.command[i]))
      && exists k :: 2 <= k && k + |w.command| + |w.rest| == |line|
           && AllDigits(line[1..k])
           && w.number == DigitsValue(line[1..k]) % ONUMBER_MODULUS
           && line[k..k + |w.command|] == w.command && line[k + |w.command|..] == w.rest
           && (w.rest != [] ==> !IsLower(w.rest[0]))
  {
    if |line| == 0 || line[0] != 'o' then Ok(None)
    else if |line| <= 1 || !IsDigit(line[1]) then Err(IllFormedOword)
    else
      var k := 1 + DigitRun(line, 1);
      assert AllDigits(line[1..k]);
      var value := DigitsValue(line[1..k]);
      if value > ULONG_MAX then Err(ONumberOutOfRange)
      else
        var c := LowerRun(line, k);
        Ok(Some(OWord(value % ONUMBER_MODULUS, line[k..k + c], line[k + c..])))
  }

  // ------------------------------------------------------------------
  // Output formatting
  // ------------------------------------------------------------------

  /** A digit directly followed by a letter at `i - 1`, `i`. */
  predicate WordBoundary(s: string, i: nat)
    requires 1 <= i < |s|
  {
    IsDigit(s[i - 1]) && IsAlpha(s[i])
  }

  /**
   * The pretty-printing loop from index `i`: wherever a digit is followed
   * by a letter, a space is inserted between them, and the scan goes on
   * after the space.
   */
  function SpaceWords(line: string, i: nat): (r: string)
    requires 1 <= i
    ensures |r| >= |line|
    decreases |line| - i
  {
    if i >= |line| then line
    else if WordBoundary(line, i) then SpaceWords(line[..i] + " " + line[i..], i + 2)
    else SpaceWords(line, i + 1)
  }

  /** `_FormatPretty`: no character is dropped. */
  function FormatPretty(line: string, pretty: bool, upper: bool): (r: string)
    ensures |r| >= |line|
  {
    var spaced := if pretty then SpaceWords(line, 1) else line;
    if upper then UpperString(spaced) else spaced
  }

  /** After pretty printing no digit is directly followed by a letter. */
  lemma {:induction false} SpaceWordsSeparates(line: string, i: nat)
    requires 1 <= i
    requires forall k :: 1 <= k < i && k < |line| ==> !WordBoundary(line, k)
    ensures forall k :: 1 <= k < |SpaceWords(line, i)| ==> !WordBoundary(SpaceWords(line, i), k)
    decreases |line| - i
  {
    if i >= |line| {
    } else if WordBoundary(line, i) {
      var l := line[..i] + " " + line[i..];
      assert forall k :: 1 <= k < i + 2 && k < |l| ==> !WordBoundary(l, k) by {
        forall k | 1 <= k < i + 2 && k < |l|
          ensures !WordBoundary(l, k)
        {
          if k < i {
            assert l[k - 1] == line[k - 1] && l[k] == line[k];
            assert !WordBoundary(line, k);
          } else if k == i {
            assert l[k] == ' ';
          } else {
            assert k == i + 1 && l[i] == ' ';
          }
        }
      }
      SpaceWordsSeparates(l, i + 2);
    } else {
      SpaceWordsSeparates(line, i + 1);
    }
  }

  /**
   * The text from index `i` on with a space put in front of every letter
   * that follows a digit in `line` itself: pretty printing stated without
   * the loop's restarts.
   */
  function SpacedFrom(line: string, i: nat): (r: string)
    requires 1 <= i <= |line|
    decreases |line| - i
  {
    if i == |line| then []
    else if WordBoundary(line, i) then [' ', line[i]] + SpacedFrom(line, i + 1)
    else [line[i]] + SpacedFrom(line, i + 1)
  }

  /** Two texts that agree from one character before `i` and `j` on give the same spaced rest. */
  lemma {:induction false} SpacedFromShift(a: string, i: nat, b: string, j: nat)
    requires 1 <= i <= |a| && 1 <= j <= |b| && |a| - i == |b| - j
    requires forall k :: i - 1 <= k < |a| ==> a[k] == b[k - i + j]
    ensures SpacedFrom(a, i) == SpacedFrom(b, j)
    decreases |a| - i
  {
    if i < |a| {
      assert a[i - 1] == b[j - 1] && a[i] == b[j];
      SpacedFromShift(a, i + 1, b, j + 1);
    }
  }

  /**
   * The pretty-printing loop inserts a space exactly where `line` has a
   * digit followed by a letter, and nowhere else.
   */
  lemma {:induction false} SpaceWordsSpaced(line: string, i: nat)
    requires 1 <= i <= |line|
    ensures SpaceWords(line, i) == line[..i] + SpacedFrom(line, i)
    decreases |line| - i
  {
    if i == |line| {
      assert line[..i] == line;
    } else if WordBoundary(line, i) {
      var l := line[..i] + " " + line[i..];
      SpaceWordsSpaced(l, i + 2);
      SpacedBoundary(line, i, l);
    } else {
      SpaceWordsSpaced(line, i + 1);
      SpacedPlain(line, i);
    }
  }

  /** At a boundary the spaced rest of the line with its space inserted is the space, the letter and the spaced rest after it. */
  lemma {:induction false} SpacedBoundary(line: string, i: nat, l: string)
    requires 1 <= i < |line| && WordBoundary(line, i) && l == line[..i] + " " + line[i..]
    ensures l[..i + 2] + SpacedFrom(l, i + 2) == line[..i] + SpacedFrom(line, i)
  {
    assert forall k :: i + 1 <= k < |l| ==> l[k] == line[k - (i + 2) + (i + 1)];
    SpacedFromShift(l, i + 2, line, i + 1);
    var rest := SpacedFrom(line, i + 1);
    assert l[..i + 2] == line[..i] + [' ', line[i]];
    Associative(line[..i], [' ', line[i]], rest);
  }

  /** Off a boundary the character at `i` is kept as it is. */
  lemma {:induction false} SpacedPlain(line: string, i: nat)
    requires 1 <= i < |line| && !WordBoundary(line, i)
    ensures line[..i + 1] + SpacedFrom(line, i + 1) == line[..i] + SpacedFrom(line, i)
  {
    var rest := SpacedFrom(line, i + 1);
    assert line[..i + 1] == line[..i] + [line[i]];
    Associative(line[..i], [line[i]], rest);
  }

  lemma Associative(a: string, b: string, c: string)
    ensures (a + b) + c == a + (b + c)
  {
  }

  /** Pretty printing only adds spaces: without whitespace, the text is unchanged. */
  lemma {:induction false} SpaceWordsOnlySpaces(line: string, i: nat)
    requires 1 <= i
    ensures RemoveSpaces(SpaceWords(line, i)) == RemoveSpaces(line)
    decreases |line| - i
  {
    if i >= |line| {
    } else if WordBoundary(line, i) {
      var l := line[..i] + " " + line[i..];
      RemoveSpacesConcat(line[..i], " " + line[i..]);
      RemoveSpacesConcat(" ", line[i..]);
      RemoveSpacesConcat(line[..i], line[i..]);
      assert line == line[..i] + line[i..];
      assert l == line[..i] + (" " + line[i..]);
      SpaceWordsOnlySpaces(l, i + 2);
    } else {
      SpaceWordsOnlySpaces(line, i + 1);
    }
  }

  lemma {:induction false} RemoveSpacesConcat(a: string, b: string)
    ensures RemoveSpaces(a + b) == RemoveSpaces(a) + RemoveSpaces(b)
    decreases |a|
  {
    if |a| == 0 {
      assert a + b == b;
    } else {
      assert (a + b)[1..] == a[1..] + b;
      RemoveSpacesConcat(a[1..], b);
    }
  }

  /** Pretty printing adds nothing but spaces. */
  lemma {:induction false} SpaceWordsAvoids(line: string, i: nat, cs: set<char>)
    requires 1 <= i && ' ' !in cs && Avoids(line, cs)
    ensures Avoids(SpaceWords(line, i), cs)
    decreases |line| - i
  {
    if i < |line| {
      if WordBoundary(line, i) {
        AvoidsConcat(line[..i], " ", cs);
        AvoidsConcat(line[..i] + " ", line[i..], cs);
        SpaceWordsAvoids(line[..i] + " " + line[i..], i + 2, cs);
      } else {
        SpaceWordsAvoids(line, i + 1, cs);
      }
    }
  }

  /**
   * What formatting guarantees: no character outside the letters and the
   * space appears that was not there before; with pretty printing on no
   * digit is directly followed by a letter; with upper case on no lowercase
   * letter is left.
   */
  lemma FormatPrettyShape(line: string, pretty: bool, upper: bool, cs: set<char>)
    requires ' ' !in cs && (forall c :: c in cs ==> !IsAlpha(c)) && Avoids(line, cs)
    ensures Avoids(FormatPretty(line, pretty, upper), cs)
    ensures pretty ==> forall k :: 1 <= k < |FormatPretty(line, pretty, upper)| ==> !WordBoundary(FormatPretty(line, pretty, upper), k)
    ensures upper ==> forall k :: 0 <= k < |FormatPretty(line, pretty, upper)| ==> !IsLower(FormatPretty(line, pretty, upper)[k])
    ensures RemoveSpaces(FormatPretty(line, pretty, false)) == RemoveSpaces(line)
  {
    var spaced := if pretty then SpaceWords(line, 1) else line;
    if pretty {
      SpaceWordsAvoids(line, 1, cs);
      SpaceWordsSeparates(line, 1);
      SpaceWordsOnlySpaces(line, 1);
    }
    if upper {
      var u := UpperString(spaced);
      forall k | 0 <= k < |u|
        ensures u[k] !in cs
      {
        if !IsLower(spaced[k]) {
          assert u[k] == spaced[k];
        }
      }
      if pretty {
        forall k | 1 <= k < |u|
          ensures !WordBoundary(u, k)
        {
          assert !WordBoundary(spaced, k);
          assert !IsLower(spaced[k - 1]) ==> u[k - 1] == spaced[k - 1];
        }
      }
    }
  }
}
