# G# macro interpreter, modelled in Dafny

G# turns macro G-code into plain G-code, one line at a time. Macro G-code has numbered parameters (`#1`, `##2`), bracketed expressions (`[1 + 2 * 3]`), functions (`sin[30]`) and O-word control blocks (`o100 if [...]`, `o200 sub`, `o200 call [1] [2]`). The engine is the class `gsharp::Program`:

- `Load` reads a program text and checks the structure of its O-blocks.
- Each call to `Step` runs lines until one plain G-code line is ready, or until a message is waiting in the `ExtraInfo` mailbox.

This project models that engine:

| file | module | what it models |
|---|---|---|
| `errors.dfy` | `Errors` | the error conditions the engine throws, as one datatype of kinds; `Result` and `Option` |
| `text.dfy` | `Text` | the `std::string` operations the parser relies on: `find`, `find_first_of`, `find_first_not_of`, `find_last_of`, `erase`, `replace`, `tolower`/`toupper`, whitespace removal |
| `numerals.dfy` | `Numerals` | number literals (digits with at most one '.'); `fixed`/`setprecision` rendering with trailing zeros and a trailing '.' removed |
| `parameters.dfy` | `Parameters` | the parameter space (5602 CNC parameters with the 30 locals in their own frame, and 50 scratch parameters); `SetParam`/`GetParam`; reads and assignments with `#` indirection; `_ReplaceWithParameter`; `_ResolveParameters` |
| `extra.dfy` | `Extra` | the `ExtraInfo` mailbox, as a class over a four-slot array, with the slot functions it is proved against |
| `normaliser.dfy` | `Normaliser` | `_ProcessComments` with active comments, `_PrepareLine`, `_RemoveNword`, `_ReadOword`, `_FormatPretty` |
| `operators.dfy` | `Operators` | `_ReplaceSingleOperator` and `_SimplifyOperators` |
| `expressions.dfy` | `Expressions` | the recursive-descent evaluator (operand, power, product, sum, comparison, logic); unary-sign folding; bracket matching; functions; `_CalculateExpressions` |
| `lines.dfy` | `Lines` | the switches, the per-line scratch reset, and `_ParseLine` |
| `blocks.dfy` | `Blocks` | `CodeBlock`, line splitting, and the single pass of `Program::Load` that builds the block table and the `%` region |
| `stepper.dfy` | `Stepper` | the machine state and `Program::Step` as a function, with what it preserves and how control commands move the cursor |
| `program.dfy` | `Interpreter` | the class `Program`, with `_params` and `_local_params` as arrays and the methods that update them, each proved against the functions above |

How the pieces relate:

- The imperative parts of the source are methods of `Interpreter.Program` and `Extra.ExtraInfo`. These include the comment loop, the operator rewrite loop, the bracket loop, the two passes of parameter resolution, `_FormatPretty`, `Load` and the `Step` loop.
- Each such method's postcondition says that its result and new state are exactly those of a specification function applied to the old state.
- The properties the source promises are proved about those functions as lemmas:
  - that each arithmetic level is a left fold over the chain of its operators, whose operands are parsed at the next tighter level (for sums, when every sign is binary), with worked lines for precedence and unary signs;
  - that a line's parameters are all read before any assignment is carried out, that an assignment writes its own parameter only, and the worked line of the test suite for this;
  - the well-formedness of a loaded block table;
  - that stepping preserves it;
  - `call`/`return` pairing;
  - the behaviour of the `%` region;
  - when `Step` yields.

Parameter values are `real`. The floating-point library functions are a record of function values, `Expressions.FloatOps`, that `Program`'s constructor receives. These are `pow`, `fmod`, division by zero, the trigonometric functions in degrees, `exp` with its overflow test, `log` and `sqrt`. The domain checks around them are modelled exactly: `acos`/`asin` outside [-1, 1], a negative `sqrt`, and `atan` not followed by `/[`.

## Model

| member | source | states |
|---|---|---|
| Text.ToLower | src/gsharp_parser.cpp:149 | the result is never an upper-case letter, is a letter exactly when the input is, and a non-upper-case character is unchanged |
| Text.ToUpper | src/gsharp_parser.cpp:733 | the result is never a lower-case letter, is a letter exactly when the input is, and a non-lower-case character is unchanged |
| Text.LowerString | src/gsharp_parser.cpp:149 | same length, and every character is the lower-case form of the one at the same index |
| Text.UpperString | src/gsharp_parser.cpp:732-733 | same length, and every character is the upper-case form of the one at the same index |
| Text.Find | src/gsharp_parser.cpp:202 | a found index is an occurrence at or after `from` with none between `from` and it; not found means no occurrence at or after `from` |
| Text.Erase | src/gsharp_parser.cpp:104 | the result is shorter by `len`, keeps the prefix before `p` and shifts the rest down by `len` |
| Text.FindFirstOf | src/gsharp_parser.cpp:73 | the first index at or after `from` holding a character of the set, or none when no such index exists |
| Text.FindFirstNotOf | src/gsharp_parser.cpp:167 | the first index at or after `from` holding a character outside the set, or none when every character from there is in it |
| Text.FindLastOf | src/gsharp_parser.cpp:274 | the last index holding a character of the set, with none after it; or none when no character is in the set |
| Text.LastOfAt | src/gsharp_parser.cpp:291 | a character of the set with none after it is the one the backward search finds |
| Text.LastOfNone | src/gsharp_parser.cpp:312 | with no character of the set anywhere, the backward search finds nothing |
| Text.MatchingClose | src/gsharp_parser.cpp:421-429 | a found closing index holds the closing character, lies at or after the start, and brings the nesting depth back to zero; no closing character before it (and none at all when nothing is found) does |
| Text.RemoveSpaces | src/gsharp_parser.cpp:148 | the result has no whitespace and is no longer; a string without whitespace is unchanged |
| Text.TrimBlanks | src/gsharp_parser.cpp:94-98 | the result is no longer, neither starts nor ends with a blank, and is empty exactly when the input is all blanks |
| Text.SpliceAt | src/gsharp_parser.cpp:579 | replacing `len` characters at `start` by `t` keeps the prefix before `start`, puts `t` at `start` and the text after the replaced span right after `t`; a span running past the end leaves nothing after `t` |
| Numerals.ReadLiteral | src/gsharp_parser.cpp:260 | a literal read at `i` is non-negative, starts with a digit or '.', is at least one character long, is never followed by a digit, and always exists when `i` holds a digit |
| Numerals.ReadSigned | src/gsharp_parser.cpp:641 | a signed literal read at `i` lies within the string and is at least one character long; a leading '-' reads as the negated literal after it, one character longer, and without one it is the plain literal |
| Numerals.NatToString | src/gsharp_parser.cpp:579 | `to_string` of a natural: at least one digit, all digits, with no leading zero above 9 |
| Numerals.NatToStringValue | src/gsharp_parser.cpp:579 | the digits of `to_string(n)` have the value `n` |
| Numerals.ReadNatToString | src/gsharp_parser.cpp:579 | `strtod` on the text `to_string(n)` in any context not followed by a digit or '.' reads back `n` and its whole length |
| Numerals.ReadDigits | src/gsharp_parser.cpp:602 | a run of digits not followed by a digit or '.' reads as its decimal value with its length |
| Numerals.ReadRun | src/gsharp_parser.cpp:602 | the digit run of length `n` at `i` reads as its decimal value with length `n` |
| Numerals.ReadPointed | src/gsharp_parser.cpp:635 | digits, one '.', and digits read as the whole part plus the fraction, with the length of all three |
| Numerals.DigitRun | src/gsharp_parser.cpp:329 | the run of digits starting at `i`: all digits, and the next character is not one |
| Numerals.DigitRunExact | src/gsharp_parser.cpp:329 | `n` digits followed by a non-digit is a run of exactly `n` |
| Numerals.Round | src/gsharp_parser.cpp:607 | the nearest integer, within one half, and non-negative for a non-negative value |
| Numerals.Floor | src/gsharp_parser.cpp:507-508 | the greatest integer not above the value |
| Numerals.Ceil | src/gsharp_parser.cpp:509-510 | the least integer not below the value |
| Numerals.Trunc | src/gsharp_program.cpp:341-342 | the integer part, toward zero, as the conversion to `int` gives it |
| Numerals.Abs | src/gsharp_parser.cpp:503-504 | the non-negative one of `x` and `-x` |
| Numerals.FixedReadsBack | src/gsharp_parser.cpp:685 | `fixed << setprecision(prec)` output, read back by `strtod` in a context not followed by a digit or '.', is the value rounded to `prec` digits and covers its whole text |
| Numerals.TrimZerosLength | src/gsharp_parser.cpp:687 | the length left once trailing zeros are cut: it ends in a non-zero and only zeros follow it |
| Numerals.TrimNumber | src/gsharp_parser.cpp:686-690 | the trimmed text is a non-empty prefix of the fixed text, or "0" |
| Numerals.RenderReadsBack | src/gsharp_parser.cpp:684-691 | a rendered number (trailing zeros and '.' removed) reads back as the value rounded to `prec` digits and covers its whole text |
| Numerals.RenderNear | src/gsharp_parser.cpp:684-691 | a rendered number reads back within half a unit of its last digit of the value |
| Numerals.FixedValueNear | src/gsharp_parser.cpp:685 | the value rounded to `prec` digits lies within half a unit of that digit of the value |
| Numerals.TrimPointZeros | src/gsharp_parser.cpp:687-689 | trimming `x` followed by '.' and zeros gives back `x` |
| Numerals.MagnitudeInteger | src/gsharp_parser.cpp:685 | an integer scaled to `prec` fraction digits is the integer times ten to the `prec` |
| Numerals.FixedInteger | src/gsharp_parser.cpp:685 | an integer in fixed notation is its sign, its digits, '.' and `prec` zeros |
| Numerals.RenderInteger | src/gsharp_parser.cpp:682-693 | an integer renders as its sign and digits, with no '.' and no zeros after it |
| Numerals.RenderZero | src/gsharp_parser.cpp:682-693 | zero renders as "0" at every precision |
| Parameters.ZeroFrame | src/gsharp_program.cpp:61 | a local frame of 30 zeros |
| Parameters.Put | src/gsharp_parser.cpp:648-656 | writing index `idx` changes that index only, keeps the scratch counter, and touches only the local frame for an index up to 30 and only `_params` for any other |
| Parameters.GetParam | src/gsharp_program.cpp:85-93 | fails with an out-of-range error exactly for 0 and above 5602; otherwise reads the local frame up to 30 and `_params[n-1]` above |
| Parameters.SetParam | src/gsharp_program.cpp:72-81 | fails exactly for 0 and above 5602; otherwise writes slot `n-1` of the local frame up to 30 and of `_params` above, leaving the other array and the scratch counter as they were |
| Parameters.SetThenGet | src/gsharp_program.cpp:72-93 | a successful `SetParam(n, v)` makes `GetParam(n)` return `v` and leaves every other `GetParam` unchanged |
| Parameters.IndexOf | src/gsharp_parser.cpp:605-611 | a value names the parameter at its rounded value, which must lie in 1..5652 |
| Parameters.Target | src/gsharp_parser.cpp:605-611 | each extra '#' dereferences once more, and every index on the way must exist; one '#' is the index itself |
| Parameters.TargetOneMore | src/gsharp_parser.cpp:605-611 | one more hash dereferences once more: the index is the one the value of the shorter reference's parameter rounds to, or the shorter reference's error |
| Parameters.HashRun | src/gsharp_parser.cpp:591-594 | the number of consecutive '#' at `i` |
| Parameters.ReadParameter | src/gsharp_parser.cpp:588-614 | a read covers at least the hash and one character and stays in the line; its only errors are a missing index and a non-existent parameter |
| Parameters.ReadParameterValue | src/gsharp_parser.cpp:588-614 | with no digit after the hashes the read is a bad index; otherwise its value is the parameter the hashes and number name and its length is the hashes plus the number, or the error of the first index on the way that does not exist |
| Parameters.AssignWrites | src/gsharp_parser.cpp:620-659 | a successful assignment sets its own parameter to the value read after the '=' and leaves every other parameter as it was |
| Parameters.AssignThenRead | src/gsharp_parser.cpp:588-659 | with one hash, reading the assignment's reference afterwards gives the assigned value |
| Parameters.AssignParameterStore | src/gsharp_parser.cpp:620-659 | with no digit after the hashes the assignment is a bad index; a value not starting with a digit, '.' or '-' after the one skipped character is a bad value; otherwise the named parameter takes the signed number there (0 when none reads) and the length runs to its end |
| Parameters.Reference | src/gsharp_parser.cpp:579 | the text `#k`: a hash followed by the digits of `k` |
| Parameters.ReplaceWithParameter | src/gsharp_parser.cpp:573-582 | fails exactly when the 51st scratch parameter of a line is asked for; otherwise stores the value in the next scratch parameter and writes its reference in place of the span |
| Parameters.FirstScratchIsLastPublic | src/gsharp_program.cpp:260 | the first scratch value of a line is written to `#5602`, which `GetParam(5602)` then returns |
| Parameters.ScanReference | src/gsharp_parser.cpp:591-602 | the reference `#k` in any context has one hash, then a digit, and its number reads as `k` |
| Parameters.ReadReference | src/gsharp_parser.cpp:588-614 | a reference `#k` not followed by a digit or '.' reads parameter `k` and covers its whole text |
| Parameters.ReplaceThenRead | src/gsharp_parser.cpp:573-614 | the reference `_ReplaceWithParameter` writes reads back exactly the value it stored |
| Parameters.ReadStep | src/gsharp_parser.cpp:672-700 | one reference of the first pass: an assignment target leaves the line as it was, and any other read leaves no '#' in the text it writes; the scan always moves forward |
| Parameters.ResolveReads | src/gsharp_parser.cpp:669-700 | the first pass counts at least the assignments it started with, and fails only on a bad or non-existent reference |
| Parameters.ResolveWrites | src/gsharp_parser.cpp:703-717 | the second pass keeps the scratch counter and fails only as an assignment fails |
| Parameters.WritesFrame | src/gsharp_parser.cpp:703-717 | the second pass changes no parameter other than those its assignments write |
| Parameters.ReadOnlyLineKeepsStore | src/gsharp_parser.cpp:664-718 | a line without '=' counts no assignment, so resolving it changes no parameter |
| Parameters.ResolveFrame | src/gsharp_parser.cpp:664-718 | resolving a line changes no parameter other than those the assignments written by the first pass name |
| Parameters.ReadsClear | src/gsharp_parser.cpp:669-700 | the first pass keeps what lies before its start, and when every '#' it met was a read it leaves none after its start |
| Parameters.WritesClear | src/gsharp_parser.cpp:703-717 | the second pass keeps what lies before its start and leaves no '#' after it |
| Parameters.ResolvedHasNoReference | src/gsharp_parser.cpp:664-718 | a resolved line contains no '#' |
| Parameters.ReadStepAvoids | src/gsharp_parser.cpp:685-695 | a read brings in only the characters of a rendered number |
| Parameters.ReadsAvoid | src/gsharp_parser.cpp:669-700 | the first pass adds no character other than '#', digits, '.' and '-' |
| Parameters.WritesAvoid | src/gsharp_parser.cpp:703-717 | the second pass only erases, so it adds no character |
| Parameters.ResolveAvoids | src/gsharp_parser.cpp:664-718 | resolving a line adds no character beyond those of rendered numbers |
| Parameters.ReadOneDigit | src/gsharp_parser.cpp:588-614 | a one-digit reference `#d` reads parameter `d` and covers two characters |
| Parameters.ReadStepRenders | src/gsharp_parser.cpp:680-697 | a reference not followed by '=' is replaced by its rendered value |
| Parameters.ReadStepEnds | src/gsharp_parser.cpp:680-697 | a read that ends its line leaves the scan at the end of the new line |
| Parameters.ParallelReads | test/parse_expression_test.cpp:138 | in `#3=5.0x#3` with #3 = 7 the first pass leaves the assignment and writes `7` for the read, counting one assignment |
| Parameters.ParallelSecondRead | test/parse_expression_test.cpp:138 | in `#3=5.0x#3` the second reference is the one at index 7, and reading it gives `#3=5.0x7` |
| Parameters.ParallelWrites | test/parse_expression_test.cpp:138 | the second pass on `#3=5.0x7` sets #3 to 5 and leaves `x7` |
| Parameters.ParallelAssign | src/gsharp_parser.cpp:620-659 | `#3=5.0` at the start of `#3=5.0x7` writes 5 to #3 and covers six characters |
| Parameters.ReadsBeforeWrites | test/parse_expression_test.cpp:138 | all reads of a line happen before its assignments: with #3 = 7, `#3=5.0x#3` resolves to `x7` and leaves #3 = 5 |
| Parameters.IndirectAssignment | test/parse_expression_test.cpp:136 | with #1 = 2, `##1=0.375` writes 0.375 to #2 and covers the whole line |
| Extra.EmptySlots | include/gsharp_extra.h:67-73 | every one of the four slots is empty |
| Extra.RetrieveSlot | include/gsharp_extra.h:51-58 | nothing for a type out of range or an empty slot, and then nothing changes; otherwise the slot's text, with that slot emptied and the others kept |
| Extra.AssignSlot | include/gsharp_extra.h:61-64 | writes only its own slot; a type out of range changes nothing |
| Extra.ClearSlot | include/gsharp_extra.h:67-73 | `Clear(t)` empties only slot `t`, and the default argument empties all four |
| Extra.FirstPending | include/gsharp_extra.h:76-85 | some type is found exactly when some slot is non-empty, and it is the lowest such type |
| Extra.PendingListSound | include/gsharp_extra.h:76-85 | the drained messages are non-empty slot texts, each under its own type, in increasing type order |
| Extra.PendingListComplete | include/gsharp_extra.h:76-85 | every non-empty slot appears among the drained messages |
| Extra.PendingListSkips | include/gsharp_extra.h:76-85 | empty slots contribute nothing to the drained messages |
| Extra.RetrieveTwice | include/gsharp_extra.h:51-58 | a second `Retrieve` of the same type returns nothing |
| Extra.AssignLastWins | include/gsharp_extra.h:61-64 | of two assignments to one type the last wins |
| Extra.ExtraInfo.constructor | include/gsharp_extra.h:87-89 | a new mailbox has four empty slots and no output |
| Extra.ExtraInfo.Retrieve | include/gsharp_extra.h:51-58 | returns and empties the slot as `RetrieveSlot` says, and keeps the text as its output |
| Extra.ExtraInfo.Assign | include/gsharp_extra.h:61-64 | the slots afterwards are `AssignSlot` of the slots before |
| Extra.ExtraInfo.Clear | include/gsharp_extra.h:67-73 | the slots afterwards are `ClearSlot` of the slots before |
| Extra.ExtraInfo.FirstNonEmpty | include/gsharp_extra.h:76-85 | reports the lowest non-empty type, or none, and changes nothing |
| Extra.ExtraInfo.Drain | test/parse_o_code_test.cpp:22-42 | the loop of `FirstNonEmpty` and `Retrieve` ends with every slot empty, having handed out every pending message once, in type order |
| Normaliser.CommentBalanced | src/gsharp_parser.cpp:73-99 | a `;` comment is the rest of the line trimmed of blanks; a `(` comment ends at the first `)` at depth zero, every `)` before it being nested, and is the text between them trimmed; an unclosed `(` has every `)` nested |
| Normaliser.Dispatch | src/gsharp_parser.cpp:107-131 | the prefixes are compared in order on the lower-cased text: `msg,` stores its remainder in MSG; `print,`, `debug,` and `log,` store the remainder with its parameters resolved in PRN, DBG and LOG, with the store that resolution leaves; any other comment changes nothing; the scratch counter is kept |
| Normaliser.StripComments | src/gsharp_parser.cpp:69-137 | with comments removed the line holds no ';' and no '(' and is no longer; an unclosed '(' is the only error; a line without comments is unchanged |
| Normaliser.ProcessComments | src/gsharp_parser.cpp:69-137 | the text left is exactly the comment-free line; without a mailbox no message or parameter changes and only an unclosed '(' fails |
| Normaliser.PassiveComments | src/gsharp_program.cpp:137 | comment processing without a mailbox is plain comment removal |
| Normaliser.PrepareLine | src/gsharp_parser.cpp:141-157 | fails exactly on a forbidden character; otherwise the line has its whitespace removed and is lowercased, and with block delete a line starting with '/' becomes empty |
| Normaliser.SpacesKeepAbsent | src/gsharp_parser.cpp:148 | removing whitespace brings in no character |
| Normaliser.RemoveNword | src/gsharp_parser.cpp:162-169 | fails exactly on an 'n' not followed by a digit; drops a leading 'n' and its digits; leaves any other line unchanged |
| Normaliser.LowerRun | src/gsharp_parser.cpp:186 | the run of lower-case letters starting at `i` |
| Normaliser.ReadOword | src/gsharp_parser.cpp:175-193 | nothing unless the line starts with 'o'; an 'o' without a digit is an error; otherwise the number modulo 2^32, the run of letters after it as the command, and the rest of the line |
| Normaliser.SpaceWordsSpaced | src/gsharp_parser.cpp:727-730 | the loop keeps the first character and, from there on, puts a space before exactly those characters that are letters after a digit in the input, and changes nothing else |
| Normaliser.FormatPretty | src/gsharp_parser.cpp:724-734 | formatting never shortens the line |
| Normaliser.SpaceWordsSeparates | src/gsharp_parser.cpp:727-730 | afterwards no digit is directly followed by a letter |
| Normaliser.SpaceWordsOnlySpaces | src/gsharp_parser.cpp:727-730 | the inserted characters are spaces only |
| Normaliser.SpaceWordsAvoids | src/gsharp_parser.cpp:727-730 | inserting spaces brings in no other character |
| Normaliser.FormatPrettyShape | src/gsharp_parser.cpp:724-734 | with pretty formatting no digit touches a letter; with upper case no lower-case letter is left; only spaces are added and no other character is brought in |
| Operators.ReplaceFrom | src/gsharp_parser.cpp:198-206 | replacing from `pos` to the end never lengthens the line |
| Operators.ReplaceFromLeavesNone | src/gsharp_parser.cpp:198-206 | after the loop no occurrence of the operator word is left |
| Operators.ReplaceFromKeepsAbsent | src/gsharp_parser.cpp:198-206 | a word absent before the loop is still absent when its replacement character is not in it |
| Operators.ReplaceWithoutFirstChar | src/gsharp_parser.cpp:198-206 | a line without the word's first character is unchanged |
| Operators.RewritesSeparated | src/gsharp_parser.cpp:213-223 | no operator word contains a replacement character of any rewrite |
| Operators.SimplifyLeavesNone | src/gsharp_parser.cpp:211-226 | after the first `n` rewrites none of their words is left |
| Operators.SimplifiedHasNoWords | src/gsharp_parser.cpp:211-226 | after all eleven rewrites no operator word is left |
| Operators.XorBeforeOr | test/parse_expression_test.cpp:109 | `xor` is rewritten before `or`, so `0xor1` becomes `0^1` and never `0x|1` |
| Expressions.ParseOperand | src/gsharp_parser.cpp:231-265 | an empty operand is an error; an operand that parses starts with a digit, '.', a sign or '#' |
| Expressions.OperandLiteral | src/gsharp_parser.cpp:255-264 | the digits of `n` are an operand with value `n` |
| Expressions.OperandReference | src/gsharp_parser.cpp:246-253 | a reference `#k` is an operand with the value of parameter `k` |
| Expressions.SignedSpan | src/gsharp_parser.cpp:329-331 | a unary sign takes the digits and dots right after it, and no more |
| Expressions.Split | src/gsharp_parser.cpp:270-302 | the chain at a set of operators has no operator in its head or its operands, and joined back it is the text |
| Expressions.PowerIsLeftFold | src/gsharp_parser.cpp:270-281 | `_ParsePower` is the left fold of `pow` over the operands between the '@'s, each an operand |
| Expressions.ProductIsLeftFold | src/gsharp_parser.cpp:287-302 | `_ParseMultiplication` is the left fold of `*`, `/` and `%` over the powers between them, each applied from the left |
| Expressions.SumIsLeftFold | src/gsharp_parser.cpp:308-324 | with every sign binary, `_ParseSummation` is the left fold of `+` and `-` over the products between them, and allocates no scratch parameter |
| Expressions.ParseSummation | src/gsharp_parser.cpp:308-339 | without a sign a sum is a product and allocates nothing; in every case it keeps every public parameter |
| Expressions.FoldSign | src/gsharp_parser.cpp:326-336 | folding a unary sign leaves one sign fewer and keeps every public parameter |
| Expressions.FoldAt | src/gsharp_parser.cpp:326-336 | a successful fold stores the signed operand in the next scratch parameter and puts its reference in place of the span |
| Expressions.Compare | src/gsharp_parser.cpp:352-365 | a comparison is always 0 or 1 |
| Expressions.ParseConditional | src/gsharp_parser.cpp:344-369 | with a comparison operator the value is 0 or 1; public parameters are kept |
| Expressions.Logic | src/gsharp_parser.cpp:382-387 | a logical operator is always 0 or 1 |
| Expressions.ParseLogical | src/gsharp_parser.cpp:374-390 | with a logical operator the value is 0 or 1; public parameters are kept |
| Expressions.ConditionalIsLeftFold | src/gsharp_parser.cpp:344-369 | `_ParseConditional` is the left fold of the comparisons over the summations between the comparison operators, each summation evaluated in the store the one before it left, and the first failing operand is the error |
| Expressions.LogicalIsLeftFold | src/gsharp_parser.cpp:374-390 | `_ParseLogical` is the left fold of the logical operators (and, or, exclusive or) over the comparisons between them, the store threaded from left to right, and the first failing operand is the error |
| Expressions.Evaluate | src/gsharp_parser.cpp:394-411 | an empty expression is an error; public parameters are kept |
| Expressions.CalcExprs | src/gsharp_parser.cpp:543-569 | no '[' is left; a value is collected exactly when the line had a bracket; a line without brackets is unchanged; public parameters are kept |
| Expressions.Substitute | src/gsharp_parser.cpp:547-566 | each round removes at least one '[' and keeps every public parameter |
| Expressions.FromBracket | src/gsharp_parser.cpp:418-434 | a bracketed expression spans at least `[]` and stays in the line |
| Expressions.FirstBracketValue | src/gsharp_parser.cpp:543-569 | when the first bracket has no function name before it, the first collected value is that of the expression inside it |
| Expressions.FromBracketValue | src/gsharp_parser.cpp:418-434 | no closing `]` at depth zero is an error; otherwise the value and store are those of evaluating the text between the brackets, and the span covers both brackets |
| Expressions.Unary | src/gsharp_parser.cpp:442-538 | a function name lies before the bracket; with no name the value is the argument; the only errors are acos/asin outside [-1, 1], a negative sqrt and exp overflow |
| Expressions.ApplyFn | src/gsharp_parser.cpp:440-539 | the span is widened to cover the function name, and for atan its second argument; with no letter before the bracket the value and span are unchanged |
| Expressions.DigitOperand | src/gsharp_parser.cpp:255-264 | a single digit is an operand with its value |
| Expressions.SingleDigit | src/gsharp_parser.cpp:270-339 | a single digit is a power, a product and a sum with its value |
| Expressions.DigitProduct | src/gsharp_parser.cpp:287-303 | two digits around `*`, `/` or `%` combine by that operator |
| Expressions.SumsAssociateLeft | src/gsharp_parser.cpp:312 | `8-4-2` is 2, so sums group to the left |
| Expressions.ProductInSum | src/gsharp_parser.cpp:308-324 | `1+2*3` is 7, so products bind tighter than sums |
| Expressions.ProductsBeforeSums | test/parse_expression_test.cpp:111 | `1+2*3-4/5` is 6.2 |
| Expressions.SignBeforeReference | src/gsharp_parser.cpp:326-336 | a sign in front of a reference takes no digits, so `-#1` leaves an empty operand, which is an error |
| Expressions.FirstScratchFactor | src/gsharp_parser.cpp:287-303 | `#5602` alone is a product with the value of the first scratch parameter |
| Expressions.OneMinusFirstScratch | src/gsharp_parser.cpp:315-324 | `1-#5602` is one minus the first scratch parameter |
| Expressions.FoldMinusThree | src/gsharp_parser.cpp:326-336 | in `1--3` the second '-' is unary: `-3` goes to `#5602`, leaving `1-#5602` |
| Expressions.DoubleMinus | test/parse_expression_test.cpp:98 | `1--3` is 4 |
| Expressions.FoldPlusThree | src/gsharp_parser.cpp:326-336 | in `-1*+3` the '+' is unary: 3 goes to `#5602`, leaving `-1*#5602` |
| Expressions.FoldMinusOne | src/gsharp_parser.cpp:326-336 | in `-1*#5602` the leading '-' is unary: -1 goes to `#5603`, leaving `#5603*#5602` with `#5602` kept |
| Expressions.ReferenceFactor | src/gsharp_parser.cpp:270-303 | a reference alone is a power and a product with its parameter's value |
| Expressions.ReferenceProduct | src/gsharp_parser.cpp:287-303 | two references around `*` multiply their parameters |
| Expressions.ReferenceProductSum | src/gsharp_parser.cpp:308-313 | two references around `*` hold no sign, so they are a sum with their product and allocate nothing |
| Expressions.SignedFactors | test/parse_expression_test.cpp:80 | `-1*+3` is -3 |
| Blocks.SplitLines | src/gsharp_program.cpp:119-120 | the lines `getline` gives hold no '\n', and there are none exactly for an empty text |
| Blocks.SplitJoin | src/gsharp_program.cpp:119-120 | lines written out with a '\n' after each are read back as they were |
| Blocks.JoinSplit | src/gsharp_program.cpp:119-120 | the lines of a text, written out again, are the text with a final '\n' added if missing |
| Blocks.OpeningKind | src/gsharp_program.cpp:155-164 | an opening command names a real block kind |
| Blocks.LoadCommand | src/gsharp_program.cpp:151-214 | `call` changes nothing; a new number must open a block, and a continuation or closing keyword is "unexpected" while anything else is "unrecognised"; a new block has the opened kind, starts on this line and has no mid lines, no end and a zero counter; a finished block takes no command; an accepted command neither reopens nor misfits its block, adds this line to the mid lines exactly for `elseif`/`else`, sets the end one past this line exactly for a closing keyword, and changes nothing else of the block; other blocks are kept |
| Blocks.OpeningNames | src/gsharp_program.cpp:155-164 | an opening command is the opening keyword of the kind it gives the block |
| Blocks.ClosingNames | src/gsharp_program.cpp:184-209 | a closing command the block accepts is the closing keyword of the block's kind (`while` for a `do` block) |
| Blocks.LoadLine | src/gsharp_program.cpp:127-135 | the first `%` line sets the start, the second the stop, a third is an error; other lines leave the region as it was |
| Blocks.Load | src/gsharp_program.cpp:106-121 | the loaded code is the placeholder line followed by the program's lines |
| Blocks.LoadCommandRecords | src/gsharp_program.cpp:151-214 | every block keeps a real kind, lines in order within the lines read so far, and a zero counter |
| Blocks.LoadCommandTraces | src/gsharp_program.cpp:151-214 | an accepted command keeps every block tied to the O-words of the lines: its start line opens it with its kind, its end line is one past a line closing it with its kind's keyword, its mid lines are elseif/else lines of that block, and every such line read so far is one of its mid lines |
| Blocks.LoadLineBuilds | src/gsharp_program.cpp:119-214 | each line keeps the table well-formed up to that line and tied to the lines' O-words as in `Blocks.LoadCommandTraces` |
| Blocks.LoadFromBuilds | src/gsharp_program.cpp:119-214 | the whole pass keeps the table well-formed up to the last line and tied to the lines' O-words |
| Blocks.LoadWellFormed | src/gsharp_program.cpp:106-229 | after a successful load line 0 is the placeholder and line `i` is raw line `i`; every block's closing line (its end line minus one) comes after its start, its elseif/else lines increase strictly between the two, and its counter is zero; a `%` start comes with a later stop |
| Blocks.LoadTraced | src/gsharp_program.cpp:119-214 | after a successful load, block `m` starts on a line whose O-word opens `m` with the block's kind, its end line is one past a line whose O-word closes `m` with that kind's keyword, and a line is one of its mid lines exactly when its O-word is an `elseif` or `else` of `m` |
| Lines.Fresh | src/gsharp_program.cpp:260 | every line starts scratch numbering again, with every parameter kept |
| Lines.Resolve | src/gsharp_program.cpp:374-376 | a resolved line holds no '#' and no '['; the scratch counter only grows |
| Lines.ParseLinePlain | src/gsharp_parser.cpp:42-60 | a parsed line holds no '#' and no '['; with pretty formatting no digit touches a letter, and with upper case no lower-case letter is left |
| Stepper.CopyArgs | src/gsharp_program.cpp:318-322 | the first min(#args, 30) locals take the arguments and the rest keep the caller's values |
| Stepper.BranchSound | src/gsharp_program.cpp:341-364 | a branch command keeps the machine runnable, the table's layout and the call stack |
| Stepper.CallSound | src/gsharp_program.cpp:311-325 | a successful call keeps the machine runnable and the table's layout |
| Stepper.ReturnSound | src/gsharp_program.cpp:326-333 | a successful return keeps the machine runnable and the table's layout |
| Stepper.BareSound | src/gsharp_program.cpp:281-297 | a command without arguments keeps the machine runnable and the table's layout |
| Stepper.ArgumentsSound | src/gsharp_program.cpp:298-365 | a command with arguments keeps the machine runnable and the table's layout |
| Stepper.ControlSound | src/gsharp_program.cpp:272-367 | a control line keeps the machine runnable and the table's layout |
| Stepper.ControlTurnSound | src/gsharp_program.cpp:272-370 | a control line's turn keeps the machine runnable and the table's layout |
| Stepper.EmitSound | src/gsharp_program.cpp:371-384 | an ordinary line keeps the machine runnable and the table's layout |
| Stepper.ActSound | src/gsharp_program.cpp:265-384 | acting on a prepared line keeps the machine runnable and the table's layout |
| Stepper.ExecuteSound | src/gsharp_program.cpp:255-384 | executing the line under the cursor keeps the machine runnable and the table's layout |
| Stepper.CycleSound | src/gsharp_program.cpp:237-384 | one round of the loop keeps the machine runnable and the table's layout |
| Stepper.RunSound | src/gsharp_program.cpp:237-388 | the whole loop keeps the machine runnable and the table's layout |
| Stepper.StepSound | src/gsharp_program.cpp:234-388 | `Step` keeps the machine runnable and the table's layout |
| Stepper.LoadSound | src/gsharp_program.cpp:106-229 | a loaded program is runnable, with the cursor at 1, no saved frames, the region inactive, the code as loaded, `_params` untouched, zero locals and zero counters |
| Stepper.RewindSound | src/gsharp_program.cpp:58-68 | rewinding twice is rewinding once, and a rewound machine is runnable with the same table |
| Stepper.CallEnters | src/gsharp_program.cpp:311-325 | a call to a non-SUB block fails as "not found" and one at depth 1000 or more as "overflow"; otherwise the cursor moves past the `sub` line, the return line and the caller's locals are pushed, `_params` is untouched, and the first locals take the arguments while the rest keep the caller's values |
| Stepper.CallReturn | src/gsharp_program.cpp:311-333 | a return from a call restores the return line, the caller's locals and the stack, puts the first result in #5000 and changes no other global |
| Stepper.NextMidFollows | src/gsharp_program.cpp:359-361 | after the elseif line at position `i` the next branch is the following mid line, or the block's end after the last |
| Stepper.RepeatRuns | src/gsharp_program.cpp:289-342 | `repeat [x]` runs its body `trunc(x)` times, and once when `trunc(x)` is below 2 |
| Stepper.EndRepeatsCount | src/gsharp_program.cpp:289-291 | with counter `n` the `endrepeat` sends control back `n - 1` times, and the body runs once for a counter below 2 |
| Stepper.SkipToPercent | src/gsharp_program.cpp:239-251 | lines before the `%` start are skipped without effect |
| Stepper.PercentStopEnds | src/gsharp_program.cpp:245-247 | reaching the `%` stop line finishes the program with the cursor past the last line and the parameters untouched |
| Stepper.ActHonest | src/gsharp_program.cpp:265-384 | a line passes on only with no message pending, and yields only with text or a message |
| Stepper.CycleHonest | src/gsharp_program.cpp:237-384 | one round starting with an empty mailbox passes on only with no message, and yields only with text or a message |
| Stepper.RunReports | src/gsharp_program.cpp:237-388 | from an empty mailbox the loop produces a line only with text or a message; otherwise no message is pending; it finishes exactly when the cursor has run past the code |
| Stepper.StepReports | src/gsharp_program.cpp:234-388 | `Step` clears the mailbox first; it returns true only with text or a message, and when it returns false every slot is empty |
| Stepper.EndsAfterM2 | src/gsharp_program.cpp:378-387 | an ordinary line starting with `m2` or `m30` yields and moves the cursor past the last line, so that the next `Step` finishes at once with an empty mailbox |
| Interpreter.Program.constructor | src/gsharp_program.cpp:42-54 | a new interpreter has zero parameters, empty code, no blocks, the cursor at 1, empty stacks and mailbox, block delete off, pretty formatting on and upper case on |
| Interpreter.Program.Rewind | src/gsharp_program.cpp:58-68 | the state afterwards is `Rewind` of the state before: cursor 1, scratch reset, zero locals, empty stacks, region inactive, `_params` kept |
| Interpreter.Program.Clear | src/gsharp_program.h:101 | every entry of `_params` is zero and the local frame is kept |
| Interpreter.Program.EnableBlockDelete | src/gsharp_program.h:103 | only the block-delete switch changes |
| Interpreter.Program.EnablePrettyFormat | src/gsharp_program.h:104 | only the pretty-format switch changes |
| Interpreter.Program.EnableConvertToUpper | src/gsharp_program.h:105 | only the upper-case switch changes |
| Interpreter.Program.SetParam | src/gsharp_program.cpp:72-81 | succeeds exactly as `SetParam` on values does, with its store; on an error nothing changes |
| Interpreter.Program.GetParam | src/gsharp_program.cpp:85-93 | returns `GetParam` of the current parameters |
| Interpreter.Program.GetSourceLine | src/gsharp_program.cpp:97-102 | returns code line `num` when it exists, and an error otherwise |
| Interpreter.Program.ReplaceSingleOperator | src/gsharp_parser.cpp:198-206 | the loop's result is the rewrite of every occurrence, so no occurrence is left |
| Interpreter.Program.SimplifyOperators | src/gsharp_parser.cpp:211-226 | the eleven rewrites in their fixed order |
| Interpreter.Program.FormatPretty | src/gsharp_parser.cpp:724-734 | the loop inserts the spaces and uppercases as the switches say |
| Interpreter.Program.ReplaceWithParameter | src/gsharp_parser.cpp:573-582 | the scratch write and the new text are those of `ReplaceWithParameter` |
| Interpreter.Program.AssignParameter | src/gsharp_parser.cpp:620-659 | the write to `_params` or the local frame and the length are those of `AssignParameter` |
| Interpreter.Program.ResolveReads | src/gsharp_parser.cpp:669-700 | the first pass's loop gives the line and count of `ResolveReads` and writes nothing |
| Interpreter.Program.ResolveWrites | src/gsharp_parser.cpp:703-717 | the second pass's loop applies the writes and erasures of `ResolveWrites` |
| Interpreter.Program.ResolveParameters | src/gsharp_parser.cpp:664-718 | both passes together give the line and store of `ResolveParameters` |
| Interpreter.Program.Substitute | src/gsharp_parser.cpp:547-566 | one round of the bracket loop, as `Substitute` |
| Interpreter.Program.CalculateExpressions | src/gsharp_parser.cpp:543-569 | the bracket loop's line, values and scratch writes are those of `CalcExprs` |
| Interpreter.Program.Resolve | src/gsharp_program.cpp:374-376 | operators, brackets and parameters are processed as `Resolve` says |
| Interpreter.Program.CommentAt | src/gsharp_parser.cpp:73-104 | the comment's length and text, as `CommentAt` |
| Interpreter.Program.Dispatch | src/gsharp_parser.cpp:107-131 | the mailbox write and parameter effects of an active comment, as `Dispatch` |
| Interpreter.Program.RemoveComment | src/gsharp_parser.cpp:73-134 | one round of the comment loop shortens the line and leaves the rest of the processing unchanged |
| Interpreter.Program.ProcessComments | src/gsharp_parser.cpp:69-137 | the comment loop gives the line, messages and parameters of `ProcessComments` |
| Interpreter.Program.ParseLine | src/gsharp_parser.cpp:42-60 | the parsed line, the messages and the parameters are those of `Lines.ParseLine` |
| Interpreter.Program.LineCommand | src/gsharp_program.cpp:137-149 | the normalised line's O-word, as `Blocks.LineCommand` |
| Interpreter.Program.LoadLine | src/gsharp_program.cpp:120-214 | appends the raw line to the code and updates the block table as `Blocks.LoadLine` |
| Interpreter.Program.LoadNext | src/gsharp_program.cpp:119-214 | one round of the load loop leaves the rest of the pass unchanged |
| Interpreter.Program.LoadLines | src/gsharp_program.cpp:119-214 | the load loop stores every line and builds the table of `LoadFrom` |
| Interpreter.Program.Load | src/gsharp_program.cpp:106-229 | succeeds exactly when `Blocks.Load` does, and then the state is the loaded and rewound program |
| Interpreter.Program.CallSub | src/gsharp_program.cpp:311-325 | a call behaves as `Stepper.Call` |
| Interpreter.Program.ReturnSub | src/gsharp_program.cpp:326-333 | a return behaves as `Stepper.Return` |
| Interpreter.Program.BareLine | src/gsharp_program.cpp:281-297 | a command without arguments sets the block's counter and the cursor as `BareCounter` and `BareTarget` say |
| Interpreter.Program.BranchLine | src/gsharp_program.cpp:341-364 | repeat, while, if and elseif set the counter and the cursor as `BranchCounter` and `BranchTarget` say |
| Interpreter.Program.ArgumentLine | src/gsharp_program.cpp:298-365 | a command with arguments behaves as `Arguments` |
| Interpreter.Program.ControlLine | src/gsharp_program.cpp:272-367 | a control line behaves as `Control` |
| Interpreter.Program.ResolveLine | src/gsharp_program.cpp:372-379 | an ordinary line is resolved as `Resolve` says and moves the cursor on, or past the end after `m2`/`m30` |
| Interpreter.Program.Emit | src/gsharp_program.cpp:371-384 | an ordinary line's turn is `Stepper.Emit` |
| Interpreter.Program.Offer | src/gsharp_program.cpp:382-384 | the formatted line is handed out when it is non-empty or a message waits |
| Interpreter.Program.Act | src/gsharp_program.cpp:265-384 | a prepared line's turn is `Stepper.Act` |
| Interpreter.Program.Execute | src/gsharp_program.cpp:255-384 | the turn for the line under the cursor is `Stepper.Execute` |
| Interpreter.Program.Cycle | src/gsharp_program.cpp:238-384 | one round of the loop is `Stepper.Cycle` |
| Interpreter.Program.Step | src/gsharp_program.cpp:234-388 | the outcome, the new state and the mailbox are those of `Stepper.Step` |

## Left out

- Debug tracing to `cout` under `_debug_level` is left out; it has no effect on results.
- The front ends (the GUI and the command-line program) and the forwarding layer in `src/gsharp.cpp` are not part of this model. They do file I/O and rethrow messages.
- Error messages are kinds of `Errors.Error`, without the formatted text or a line number. The line number comes from `_last_used_line`, which is never assigned. `GetCurrentLineNumber` is left out for the same reason.
- After an error the source may have changed some state already (a partly written parameter, a mailbox slot, a block counter). The methods promise only that the object stays well-formed in that case.
- Floating point is left out: parameter values are exact reals. `pow`, `fmod`, division by zero, trigonometry, `exp` with its `HUGE_VAL` test, `log` and `sqrt` are the functions in `FloatOps` given to the constructor. The `_radians`/`_degrees` conversions are folded into the trigonometric entries. NaN, infinities and negative zero are not modelled.
- `stod`/`strtod` accept only digits with at most one '.'. Exponents, hexadecimal, `inf` and overflow are left out.
- `fixed << setprecision` is modelled exactly on reals: the value is rounded half away from zero to `prec` digits. The library's binary rounding of a decimal tie is not modelled.
- `Stepper.Step`: the source's loop may run forever, for example on a `do ... while [1]` with an empty body. The model takes a fuel bound on the lines it looks at and reports `Stalled` when the bound runs out. Nothing is promised about how much fuel a program needs.
- `Normaliser.ReadOword`: the O-number is kept modulo 2^32, as the 32-bit `ONumber` stores it. An O-number above `ULONG_MAX` is the out-of-range error.
- `continue` on a block whose end line is 0 cannot happen after a successful load; the target `end_line - 1` then wraps to `Stepper.LINE_MAX`, as the unsigned subtraction does.
- `_return_stack` and `_param_stack` are always pushed and popped together, so they are modelled as one stack of frames, `Stepper.Frame`.
- `std::find` on the mid lines is `Stepper.NextMid`. A current line that is not among them leads to the block's end, as the iterator at the end does.
- Block numbers are keys of a Dafny `map`. The iteration order of the block table in the final check of `Load` does not matter for the result: the unclosed-`%` error is checked first, and any unfinished block then gives the same error kind.
- The locale is the "C" locale: whitespace (`Text.IsSpace`) is the six characters `isspace` accepts there, comments are trimmed of spaces and tabs only (`Text.IsBlank`), and case conversion is ASCII only.
- `print,`, `debug,` and `log,` comments resolve their parameters with the full `_ResolveParameters`. An assignment inside such a comment is therefore carried out.
- `Numerals.RenderReadsBack` and `Numerals.RenderNear` are stated for a precision of at least 1. The engine renders with precisions 3 and 4 only.
- `Parameters.IndexOf`: a rounded value of zero or below is the "does not exist" error. The source casts a negative rounded value to `size_t`, which is undefined behaviour in C++; on usual platforms it becomes a huge index and gives the same error.
- `Expressions.SumIsLeftFold` covers texts whose signs are all binary. Texts with unary signs are covered by `Expressions.FoldAt` and the worked lines.
- `Parameters.WritesFrame` says which parameters the second pass may change, not the closed form of the store after several assignments. That is given one step at a time and by the worked lines.
- `Numerals.Trunc`: repeat counts are unbounded integers. The source stores the truncated argument in the 32-bit `int run_times`; an argument outside that range, which is undefined behaviour in C++, is not modelled.
- `Blocks.LoadCommandRecords` states the shape of each block only. Which lines a block is made of is stated by `Blocks.LoadCommand`, `Blocks.LoadCommandTraces` and `Blocks.LoadTraced`.
- `Expressions.FirstBracketValue` states the first collected value when no function name comes before the first bracket. Later values, and values passed through a function, are not given a closed form.
