# Impcore and uScheme interpreter core, in Dafny

This project models the core of two small tree-walking interpreters from a
programming-languages course, and proves properties of the model.

- **Impcore** (`impcore-with-locals/eval.c`). Values are 32-bit integers. A
  variable is looked up in three scopes in a fixed order: locals, then
  formals, then globals. Functions live in their own table. A call gets fresh
  formal and local scopes, and every local starts at 0. The arithmetic
  primitives check arity, 32-bit overflow and division by zero. `evaldef`
  handles `val`, bare expressions (bound to `it`) and `define`.
- **uScheme with application tracing** (`uscheme-trace/eval.c`). The
  environment maps names to locations in a store. Closures capture the
  environment. `let`, `let*` and `letrec` each bind differently. When
  `&trace` is bound to a nonzero number, each application decrements it and
  indents the trace.
- **The runtime helpers both use** (`error.c`, `value.c`):
  - the error modes, and what `runerror` and `synerror` do to traceindent
    and the message buffer;
  - `checkargc` and `duplicatename`;
  - `istrue`, `initvalue` and `unspecified`.
- **The parser's pure functions** (`uscheme-trace/parse.c`, and the earlier
  `uscheme/parse.c` of the type-system version):
  - reading atoms and quoted S-expressions;
  - the duplicate-name checks and `namecat`;
  - the desugarings of `&&`, `||`, `cond` and `record`, which the parser
    applies;
  - `desugarLet` and `desugarLetStar`, which are defined but never called
    by `reduce_to_exp`. `let` and `let*` reach the evaluator as `LETX`.
- **The stack-trace counter** of `uscheme-ms/stack-debug.c`.

## How the model is built

**Layout.** One module per file. Both evaluators are total functions.

**Fuel.** Each evaluator takes a `fuel` argument, decremented on every `eval`
and on every `while` iteration. Running out gives `OutOfFuel`. This stands in
for the host-stack guard `checkoverflow` and cuts off non-terminating
programs.

**Errors.** A call of `runerror` becomes an `Abort` carrying the error and the
state at the moment it was raised. The evaluators always return normally.
`ErrorFacility.RunError` and `ErrorFacility.SynError` describe what the error
facility then does: where control lands, traceindent, and the buffer.

**Impcore state.** A value environment is a finite map. The C association
list is searched front to back and updated in place at the first match, which
behaves as a map from each name to its first-listed value.

**uScheme state.** The state holds:
- the store, `map<Loc, Value>`;
- the next free location;
- traceindent;
- the number of `rand()` results consumed so far.

An environment is a sequence of name-to-location bindings, innermost first.

**Oracles.** A `Machine` record supplies what the evaluator cannot see:
- the C functions of the primitives, as an oracle from tag and arguments to a
  value or an error message;
- the C library's `rand()`, as a function from the draw index to a number;
- whether the trace block is present. With the block on, the model is the
  source; with it off, it is the untraced reference evaluator.

**Main results.**
- `SchemeTrace.EvalAgrees`: tracing does not change results.
- `SchemeIndent.EvalBalanced`: the trace indentation is balanced.
- `SchemeFacts.LetrecBackpatches`: letrec ties the recursive knot.
- `SchemeParse.ParseSxShow`: parsing the written form of a value gives the
  value back.
- `SchemeDesugarFacts`: the desugared `&&`, `||` and `cond` compute what
  the forms mean, and so would the `let` that `desugarLet` builds.
- `RecordFacts`: the record desugaring's constructor, accessors and length
  test behave as intended.

## Model

| member | source | states |
|---|---|---|
| ErrorFacility.SetErrorMode | hw5-continuations-buttiprathyu/uscheme-trace/error.c:11-14 | only the codes of NORMAL (0) and TESTING (1) are accepted, each selecting its own mode; any other code is a failed assertion |
| ErrorFacility.RunError | hw5-continuations-buttiprathyu/uscheme-trace/error.c:17-47 | in NORMAL mode control lands at top level with the buffer emptied, traceindent 0 and the buffered message reported; in TESTING mode it lands in the test harness with traceindent untouched, the message kept in the buffer and nothing reported |
| ErrorFacility.SynError | hw5-continuations-buttiprathyu/uscheme-trace/error.c:52-82 | legal exactly in NORMAL mode (otherwise a failed assertion); lands at top level with traceindent 0 and the rest of the state unchanged |
| ErrorFacility.CheckArgc | hw5-continuations-buttiprathyu/uscheme-trace/error.c:90-94 | an error exactly when the counts differ, carrying both counts; the noun is "argument" exactly when one was expected and "arguments" otherwise |
| ErrorFacility.DuplicateName | hw5-continuations-buttiprathyu/uscheme-trace/error.c:96-105 | a name it reports occurs in the list |
| ErrorFacility.DuplicateNameNoneIffDistinct | hw5-continuations-buttiprathyu/uscheme-trace/error.c:96-105 | NULL is returned if and only if the names are pairwise distinct |
| ErrorFacility.DuplicateNameIsEarliest | hw5-continuations-buttiprathyu/uscheme-trace/error.c:97-102 | a reported name occurs at two positions, and no earlier position holds a name that repeats later |
| SchemeValue.IsTrue | hw5-continuations-buttiprathyu/uscheme-trace/value.c:6-8 | the boolean false is the only false value; 0, nil and every other value are true |
| SchemeValue.InitValue | hw5-continuations-buttiprathyu/uscheme-trace/value.c:12-15 | truev is #t and istrue of it holds; falsev is #f and istrue of it fails |
| SchemeValue.UnspecifiedDraws | hw5-continuations-buttiprathyu/uscheme-trace/value.c:17-24 | unspecified consumes one rand() result, or two; it takes two exactly when it builds a number, whatever the second draw |
| SchemeValue.UnspecifiedCases | hw5-continuations-buttiprathyu/uscheme-trace/value.c:17-24 | the selector lies in 0..3, so the result is #t, a number, the symbol `this value is unspecified` or primitive -12, and never the nil of the default case |
| SchemeValue.UnspecifiedReachesAllCases | hw5-continuations-buttiprathyu/uscheme-trace/value.c:18-22 | each of the four live cases is produced by some rand() result |
| SchemeValue.Find | hw5-continuations-buttiprathyu/uscheme-trace/eval.c:17-19 | no location exactly when no binding names x; otherwise the location of the first (innermost) binding of x |
| Int32Arith.TruncDiv | hw2-opsem-buttiprathyu/build-prove-compare/bare/impcore-with-locals/eval.c:160-163 | C division: the magnitude of the quotient is the floor of |a|/|b| and its sign is negative exactly when the operands' signs differ |
| Int32Arith.TruncDivRemainder | hw2-opsem-buttiprathyu/build-prove-compare/bare/impcore-with-locals/eval.c:160-163 | the remainder left by C division is smaller than the divisor in magnitude and has the dividend's sign |
| Int32Arith.TruncDivOverflow | hw2-opsem-buttiprathyu/build-prove-compare/bare/impcore-with-locals/eval.c:144 | the only int32 quotient outside the int32 range is INT32_MIN / -1 |
| Int32Arith.ClampLong | hw5-continuations-buttiprathyu/uscheme-trace/parse.c:172 | strtol (with a 64-bit long) is exact inside the long range and gives LONG_MAX above it and LONG_MIN below it, the ERANGE result |
| Int32Arith.WrapInt32 | hw5-continuations-buttiprathyu/uscheme-trace/parse.c:174 | narrowing to int32 keeps the value modulo 2^32 and is the identity on int32 values |
| Decimal.WholeNumeral | hw5-continuations-buttiprathyu/uscheme-trace/parse.c:229-233 | an empty atom never reads as a numeral, and an all-digit atom reads as its decimal value |
| Decimal.NatToStringRoundTrip | hw5-continuations-buttiprathyu/uscheme-trace/parse.c:323 | reading the digits `%d` prints for a natural number gives the number back |
| Decimal.NatToStringInjective | hw5-continuations-buttiprathyu/uscheme-trace/parse.c:322-326 | different suffixes print as different strings |
| Decimal.WholeNumeralOfIntToString | hw5-continuations-buttiprathyu/uscheme-trace/parse.c:230-233 | strtol reads the whole of what `%d` prints for any integer, and gets that integer |
| Decimal.WholeNumeralFirstChar | hw5-continuations-buttiprathyu/uscheme-trace/parse.c:173 | an atom strtol reads completely begins with white space, a sign or a digit |
| SchemeParse.ExpOfAtom | hw5-continuations-buttiprathyu/uscheme-trace/parse.c:223-242 | #t and #f exactly give the boolean literals; an atom that is not wholly a numeral gives a variable of that name; a numeral outside int32 is a LiteralOverflow error and no other atom is; a number literal carries the numeral's value, within int32 |
| SchemeParse.ExpOfAtomReadsNumerals | hw7-typesys-buttiprathyu/build-prove-compare/bare/uscheme/parse.c:184-203 | any int32 printed in decimal reads back as the number literal of that value (the two parsers' exp_of_atom are the same code) |
| SchemeParse.ExpOfAtomRejectsWide | hw7-typesys-buttiprathyu/build-prove-compare/bare/uscheme/parse.c:195-199 | any integer outside int32, printed in decimal, is rejected as an overflowing literal |
| SchemeParse.SxOfAtomAsWritten | hw5-continuations-buttiprathyu/uscheme-trace/parse.c:165-184 | under quote, as written: only "." is an error; exactly the complete numerals become numbers, their value saturated to a long and then wrapped to int32 with no range check; exactly the other atoms except #t, #f and "." become symbols of their own name |
| SchemeParse.SxOfAtom | hw5-continuations-buttiprathyu/uscheme-trace/parse.c:165-184 | the corrected conversion: an error exactly for "." or a numeral outside int32; in-range numerals become exactly their value; symbols as before |
| SchemeParse.NonNumericAtom | hw5-continuations-buttiprathyu/uscheme-trace/parse.c:175-183 | #t and #f become the booleans, "." is the only error, and every other atom becomes its symbol |
| SchemeParse.ParseItemsAsWritten | hw7-typesys-buttiprathyu/build-prove-compare/bare/uscheme/parse.c:146-152 | the list converts exactly when every item converts, to the cons chain of the item values in order; otherwise the error is that of the first item that fails |
| SchemeParse.ParseItems | hw5-continuations-buttiprathyu/uscheme-trace/parse.c:185-191 | the same element-wise statement for the corrected conversion: success iff every item converts, value the cons chain of the item values, error that of the first failing item |
| SchemeParse.QuotedWideNumeralWraps | hw5-continuations-buttiprathyu/uscheme-trace/parse.c:171-174 | `(quote 4294967296)` evaluates to 0 as written, while exp_of_atom and the corrected conversion reject the same numeral |
| SchemeParse.ParseSxAgreesInRange | hw5-continuations-buttiprathyu/uscheme-trace/parse.c:163-194 | on any phrase whose numerals all fit in 32 bits, the corrected and the as-written parsesx agree |
| SchemeParse.ParseSxAsWrittenShow | hw7-typesys-buttiprathyu/build-prove-compare/bare/uscheme/parse.c:124-155 | the same round trip for the conversion as written: the written form of a readable value contains only int32 numerals, where the two conversions agree |
| SchemeParse.ParseSxShow | hw5-continuations-buttiprathyu/uscheme-trace/parse.c:163-194 | round trip for the corrected conversion: every readable value (nil, booleans, int32 numbers, plain symbols, proper lists of these), written as a phrase, parses back to itself |
| SchemeParse.CheckExpDuplicates | hw5-continuations-buttiprathyu/uscheme-trace/parse.c:244-260 | no error if and only if lambda formals are distinct and let/letrec names are distinct (let* may repeat); an error names the name duplicatename reports and says lambda, let or letrec |
| SchemeParse.CheckDefDuplicates | hw7-typesys-buttiprathyu/build-prove-compare/bare/uscheme/parse.c:223-228 | no error if and only if a define's formals are distinct (val is never rejected); an error names duplicatename's answer and says define |
| SchemeParse.Namecat | hw5-continuations-buttiprathyu/uscheme-trace/parse.c:269-278 | the result is n1's text followed by n2's text, with no separator |
| SchemeParse.NamecatCancelsPrefix | hw7-typesys-buttiprathyu/build-prove-compare/bare/uscheme/parse.c:230-239 | two names built with the same prefix are equal exactly when their remainders are |
| SchemeParse.NamecatCancelsSuffix | hw5-continuations-buttiprathyu/uscheme-trace/parse.c:269-278 | two names built with the same suffix are equal exactly when their starts are |
| SchemeDesugar.DesugarLet | hw5-continuations-buttiprathyu/uscheme-trace/parse.c:290-292 | let becomes the application of a lambda whose formals are the bound names and whose body is the let body, to the initializers |
| SchemeDesugar.DesugarLetStar | hw5-continuations-buttiprathyu/uscheme-trace/parse.c:280-288 | succeeds exactly when the name and initializer lists have the same length (otherwise the assertion fails); empty lists give the body itself |
| SchemeDesugar.DesugarLetStarUnnests | hw5-continuations-buttiprathyu/uscheme-trace/parse.c:280-288 | round trip: peeling one single-binding let per name off the result returns the names, initializers and body, in order |
| SchemeDesugar.MemberNL | hw5-continuations-buttiprathyu/uscheme-trace/parse.c:303-310 | true if and only if the name occurs in the list |
| SchemeDesugar.TempNameInjective | hw5-continuations-buttiprathyu/uscheme-trace/parse.c:322-325 | different suffixes give different temporary names x1, x2, ... |
| SchemeDesugar.FreshSuffixIsLeast | hw5-continuations-buttiprathyu/uscheme-trace/parse.c:321-332 | the suffix search ends, at the least positive k whose name xk is not free in the rest |
| SchemeDesugar.DesugarOrTempIsFresh | hw5-continuations-buttiprathyu/uscheme-trace/parse.c:312-334 | or of two or more is a single-binding let of the first disjunct to a temporary that is not free in the desugared rest, and every earlier candidate is |
| SchemeDesugarFacts.EvalListLength | hw5-continuations-buttiprathyu/uscheme-trace/eval.c:146-153 | a completed evallist yields one value per operand |
| SchemeDesugarFacts.LetDesugarAgrees | hw5-continuations-buttiprathyu/uscheme-trace/parse.c:290-292 | without tracing, the expression desugarLet builds evaluates exactly as the let form of the evaluator: same value or error, same store |
| SchemeDesugarFacts.AndOfLiterals | hw5-continuations-buttiprathyu/uscheme-trace/parse.c:294-301 | and over values is #t for none, #f when a value before the last is #f, otherwise the last value; the store is untouched |
| SchemeDesugarFacts.OrOfLiterals | hw5-continuations-buttiprathyu/uscheme-trace/parse.c:312-334 | or over values always finishes with #f for none, the first true value before the last if any, and the last value otherwise |
| SchemeDesugarFacts.AndEvaluates | hw5-continuations-buttiprathyu/uscheme-trace/parse.c:294-301 | the desugared and over literal operands evaluates, with one step per operand, to the value of an independent left-to-right reading of the operands, leaving the state as it was |
| SchemeDesugarFacts.OrEvaluates | hw5-continuations-buttiprathyu/uscheme-trace/parse.c:312-334 | the desugared or over literal operands, with its fresh temporary per operand, evaluates to the value of an independent left-to-right reading of the operands |
| SchemeDesugarFacts.CondEvaluates | hw5-continuations-buttiprathyu/uscheme-trace/parse.c:339-348 | the desugared cond over literal questions runs exactly as the answer of its first true question, or the call of error when none holds, with one step spent per question looked at |
| SchemeDesugarFacts.CondPicksFirstTrue | hw5-continuations-buttiprathyu/uscheme-trace/parse.c:340-343 | cond evaluates the answer paired with the first true question, after one step per question skipped |
| SchemeDesugarFacts.CondNoneTrue | hw5-continuations-buttiprathyu/uscheme-trace/parse.c:344-348 | when no question holds, cond calls `error` on the symbol cond:-all-question-results-were-false |
| RecordSugar.PrefixThe | hw5-continuations-buttiprathyu/uscheme-trace/parse.c:434-440 | one parameter per field, in order, the i-th being "the-" followed by the i-th field |
| RecordSugar.PrefixTheDistinct | hw5-continuations-buttiprathyu/uscheme-trace/parse.c:427-432 | distinct field names give distinct constructor parameters, so make-R passes the define duplicate check |
| RecordSugar.RecordPredicate | hw5-continuations-buttiprathyu/uscheme-trace/parse.c:450-464 | the predicate is refused if and only if the record is called pair |
| RecordSugar.RecordAccessors | hw5-continuations-buttiprathyu/uscheme-trace/parse.c:466-488 | one accessor per field, in field order, the i-th built with i + preceding fields before it |
| RecordSugar.DesugarRecordDefines | hw5-continuations-buttiprathyu/uscheme-trace/parse.c:491-495 | fails exactly for a record called pair; otherwise defines make-R with one parameter per field, then R? and then R-f for each field in order, each of one parameter r |
| RecordSugar.AccessorReadsPosition | hw5-continuations-buttiprathyu/uscheme-trace/parse.c:475-477 | the accessor of field i tests R? of r and reads the car of i+1 cdrs of r |
| RecordSugar.AccessorNamesDistinct | hw5-continuations-buttiprathyu/uscheme-trace/parse.c:472-473 | distinct fields give distinct accessor names |
| RecordFacts.CdrsRead | hw5-continuations-buttiprathyu/uscheme-trace/parse.c:411-416 | with the pair primitives, cdrs(k, r) evaluates to the k-fold cdr of r's value, store unchanged |
| RecordFacts.VarListBuilds | hw5-continuations-buttiprathyu/uscheme-trace/parse.c:418-423 | varlist's code evaluates to the list of the variables' values, in order |
| RecordFacts.ConstructorBuilds | hw5-continuations-buttiprathyu/uscheme-trace/parse.c:427-432 | make-R's body, run on field values vs, builds the record value (make-R v1 ... vn) |
| RecordFacts.AccessorReadsField | hw5-continuations-buttiprathyu/uscheme-trace/parse.c:475 | the i-th accessor's field expression, on a record value, yields the i-th field value |
| RecordFacts.GoodRecordCdrTests | hw5-continuations-buttiprathyu/uscheme-trace/parse.c:442-448 | goodRecordCdr's code yields #t exactly when it looks at a list of one element per field, #f otherwise, and never takes the cdr of a non-pair |
| RecordFacts.RecordPassesLengthTest | hw5-continuations-buttiprathyu/uscheme-trace/parse.c:460-462 | on a record value the predicate's length test is #t exactly when the record has as many values as the fields |
| SchemeParseHw7.LetStarOutcomes | hw7-typesys-buttiprathyu/build-prove-compare/bare/uscheme/parse.c:241-256 | desugarLetStar as defined (with the desugarLet stub) succeeds exactly for empty lists, giving the body; lists of unequal length fail the assertion first; any other call reaches "desugaring for LET never got implemented" |
| SchemeParseHw7.LetStarAgreesWithLater | hw7-typesys-buttiprathyu/build-prove-compare/bare/uscheme/parse.c:241-249 | where the stub-era let* succeeds it agrees with the later desugaring |
| SchemeEval.BindAllocListShape | hw5-continuations-buttiprathyu/uscheme-trace/eval.c:80 | bindalloclist allocates min(|xs|,|vs|) fresh consecutive locations, the i-th holding vs[i] and bound to xs[i], the last name innermost, the rest of the store unchanged |
| SchemeEval.FirstNonLambda | hw5-continuations-buttiprathyu/uscheme-trace/eval.c:123-126 | no offending initializer exactly when all are lambdas; otherwise the first initializer that is not a lambda |
| SchemeEval.TraceEnter | hw5-continuations-buttiprathyu/uscheme-trace/eval.c:49-60 | tracing switches on exactly when &trace is bound to a nonzero number; then that location drops by 1 and traceindent rises by 2, and otherwise nothing changes |
| SchemeFacts.FindInnermost | hw5-continuations-buttiprathyu/uscheme-trace/eval.c:17-19 | find returns the location of the innermost binding of the name |
| SchemeFacts.VarReadsInnermost | hw5-continuations-buttiprathyu/uscheme-trace/eval.c:15-19 | a variable evaluates to the contents of its innermost binding, store unchanged |
| SchemeFacts.VarUnbound | hw5-continuations-buttiprathyu/uscheme-trace/eval.c:17-18 | a variable bound nowhere is "name not found" |
| SchemeFacts.SetUnboundSkipsRhs | hw5-continuations-buttiprathyu/uscheme-trace/eval.c:22-23 | set of an unbound name fails with the state as it was, before its right-hand side runs |
| SchemeFacts.SetWritesInnermost | hw5-continuations-buttiprathyu/uscheme-trace/eval.c:20-24 | set returns the rhs value, writes it to the innermost binding's location and changes no other location |
| SchemeFacts.IfTakesOneArm | hw5-continuations-buttiprathyu/uscheme-trace/eval.c:25-30 | if evaluates exactly one arm, the true arm unless the condition is #f |
| SchemeFacts.WhileReturnsFalse | hw5-continuations-buttiprathyu/uscheme-trace/eval.c:31-35 | a while loop that finishes returns #f |
| SchemeFacts.BeginEmpty | hw5-continuations-buttiprathyu/uscheme-trace/eval.c:36-43 | an empty begin returns #f |
| SchemeFacts.BeginLast | hw5-continuations-buttiprathyu/uscheme-trace/eval.c:36-43 | begin returns its last expression's value, evaluated after all the others |
| SchemeFacts.ListAppend | hw5-continuations-buttiprathyu/uscheme-trace/eval.c:146-153 | evallist of es1 + es2 evaluates es1 first and then es2 from the state es1 left |
| SchemeFacts.OperatorFirst | hw5-continuations-buttiprathyu/uscheme-trace/eval.c:47-48 | the operator is evaluated first; its failure fails the application before any operand; operands start from the operator's state |
| SchemeFacts.ClosureCall | hw5-continuations-buttiprathyu/uscheme-trace/eval.c:74-88 | a closure call checks arity, then runs the body in the captured environment extended with fresh locations for the formals; the result is the body's, traceindent restored after a traced call |
| SchemeFacts.NonFunctionFails | hw5-continuations-buttiprathyu/uscheme-trace/eval.c:89-91 | an operator value that is neither primitive nor closure is an error raised after the operands are evaluated |
| SchemeFacts.LambdaCaptures | hw5-continuations-buttiprathyu/uscheme-trace/eval.c:139-141 | a lambda evaluates to a closure over the current environment, without running the body |
| SchemeFacts.PreBindShape | hw5-continuations-buttiprathyu/uscheme-trace/eval.c:119-120 | letrec's first loop binds every name, in order, to a fresh consecutive location |
| SchemeFacts.PreBindFind | hw5-continuations-buttiprathyu/uscheme-trace/eval.c:119-120 | with distinct names, each name then finds its own fresh location |
| SchemeFacts.PreBindFindAll | hw5-continuations-buttiprathyu/uscheme-trace/eval.c:119-120 | the same for all the names at once |
| SchemeFacts.ListOfLambdas | hw5-continuations-buttiprathyu/uscheme-trace/eval.c:127 | lambda initializers evaluate, state untouched, to closures over the extended environment |
| SchemeFacts.BackpatchConsecutive | hw5-continuations-buttiprathyu/uscheme-trace/eval.c:128-132 | the back-patching loop stores each value at its name's location and touches no other location |
| SchemeFacts.LetrecRunsBody | hw5-continuations-buttiprathyu/uscheme-trace/eval.c:114-138 | letrec with lambda initializers runs the body in the pre-bound environment over the back-patched store |
| SchemeFacts.LetrecPatchedStore | hw5-continuations-buttiprathyu/uscheme-trace/eval.c:127-132 | after back-patching each name's location holds its own closure over the pre-bound environment |
| SchemeFacts.LetrecBackpatches | hw5-continuations-buttiprathyu/uscheme-trace/eval.c:114-138 | letrec with distinct names runs its body where every name's location holds the closure of its own lambda over that same environment, so the closures see each other |
| SchemeFacts.LetBindsAfterInitializers | hw5-continuations-buttiprathyu/uscheme-trace/eval.c:97-100 | let evaluates all initializers in the outer environment first: an initializer error is the let's error; otherwise the names get fresh locations holding the values, in order, in front of the outer environment, unequal lengths fail the assertion, and the body runs there |
| SchemeFacts.LetStarSplit | hw5-continuations-buttiprathyu/uscheme-trace/eval.c:101-113 | let* binds one name at a time: running the first i bindings gives an environment with those names in front, in order, from which the rest of the let* continues; an error among them is the whole let*'s error |
| SchemeFacts.LetStarInitializerSeesEarlier | hw5-continuations-buttiprathyu/uscheme-trace/eval.c:101-113 | the i-th let* initializer runs in the environment and store left by the first i bindings; its error is the let*'s error, otherwise its name is bound next |
| SchemeFacts.LetStarBodySeesAll | hw5-continuations-buttiprathyu/uscheme-trace/eval.c:101-113 | the let* body runs in the environment holding every binding in front of the outer one, in order; an initializer error is the let*'s error; unequal lengths fail the assertion after the common prefix is bound |
| SchemeFacts.LetrecRejectsNonLambda | hw5-continuations-buttiprathyu/uscheme-trace/eval.c:118-126 | a letrec whose first non-lambda initializer is the i-th fails with the "letrec tries to bind non-lambda" error for that expression, in the store after the names were allocated |
| SchemeTrace.EvalAgrees | hw5-continuations-buttiprathyu/uscheme-trace/eval.c:49-86 | for programs that never name &trace, the traced evaluator and the untraced one give the same value or the same error, with stores that differ only at &trace's location |
| SchemeTrace.ApplyAgrees | hw5-continuations-buttiprathyu/uscheme-trace/eval.c:44-93 | the same agreement for one application, the only place tracing acts |
| SchemeIndent.EvalBalanced | hw5-continuations-buttiprathyu/uscheme-trace/eval.c:58 | every evaluation that returns normally leaves traceindent where it found it |
| SchemeIndent.ApplyBalanced | hw5-continuations-buttiprathyu/uscheme-trace/eval.c:67-86 | a traced application's +2 on entry is undone by the -2 on exit |
| Impcore.Zeros | hw2-opsem-buttiprathyu/build-prove-compare/bare/impcore-with-locals/eval.c:88-92 | one 0 per declared local |
| Impcore.ApplyPrim | hw2-opsem-buttiprathyu/build-prove-compare/bare/impcore-with-locals/eval.c:99-167 | print, println and printu succeed exactly on one argument and return it; the arithmetic primitives need two; overflow is checked before the operation; division by zero is an error; a success is the exact result |
| ImpcoreFacts.LookupIsVisible | hw2-opsem-buttiprathyu/build-prove-compare/bare/impcore-with-locals/eval.c:19-26 | three-scope lookup (locals, then formals, then globals) is lookup in the merged view; a name in no scope is unbound |
| ImpcoreFacts.AssignIsVisibleUpdate | hw2-opsem-buttiprathyu/build-prove-compare/bare/impcore-with-locals/eval.c:33-41 | assignment succeeds exactly for a visible name, updates the merged view at that name only, and writes only the first scope binding it |
| ImpcoreFacts.EvalKeepsShape | hw2-opsem-buttiprathyu/build-prove-compare/bare/impcore-with-locals/eval.c:8-175 | evaluation never adds or removes a variable in any scope |
| ImpcoreFacts.MkScopeKeys | hw2-opsem-buttiprathyu/build-prove-compare/bare/impcore-with-locals/eval.c:95-96 | a value environment binds exactly the listed names that have values |
| ImpcoreFacts.MkScopeValues | hw2-opsem-buttiprathyu/build-prove-compare/bare/impcore-with-locals/eval.c:95-96 | each name is bound to the value paired with its first occurrence |
| ImpcoreFacts.CallFrameContents | hw2-opsem-buttiprathyu/build-prove-compare/bare/impcore-with-locals/eval.c:78-96 | a call's frame shares the caller's globals, binds each formal to its actual and every declared local (and nothing else) to 0 |
| ImpcoreFacts.UndefinedFunctionFails | hw2-opsem-buttiprathyu/build-prove-compare/bare/impcore-with-locals/eval.c:69-71 | a call of a name missing from the function table fails before any actual is evaluated |
| ImpcoreFacts.UserCall | hw2-opsem-buttiprathyu/build-prove-compare/bare/impcore-with-locals/eval.c:78-96 | after the actuals, an arity mismatch is an error; otherwise the body runs in the call frame and the caller resumes with its own formals and locals and the globals the body left |
| ImpcoreFacts.IfTestsNonzero | hw2-opsem-buttiprathyu/build-prove-compare/bare/impcore-with-locals/eval.c:46-49 | if takes the else arm exactly when the condition is 0 |
| ImpcoreFacts.WhileReturnsZero | hw2-opsem-buttiprathyu/build-prove-compare/bare/impcore-with-locals/eval.c:52-54 | a while loop that finishes returns 0 |
| ImpcoreFacts.BeginLast | hw2-opsem-buttiprathyu/build-prove-compare/bare/impcore-with-locals/eval.c:57-61 | begin returns its last value, evaluated after the others, and 0 when empty |
| ImpcoreFacts.SetAfterRhs | hw2-opsem-buttiprathyu/build-prove-compare/bare/impcore-with-locals/eval.c:31-43 | set runs the rhs first; an unbound target then fails keeping the rhs's effects on the globals; otherwise the merged view changes at that name only and the value is returned |
| ImpcoreFacts.AddSubMulChecked | hw2-opsem-buttiprathyu/build-prove-compare/bare/impcore-with-locals/eval.c:139-159 | +, - and * return the exact result when it fits in 32 bits and an overflow error when it does not |
| ImpcoreFacts.DivideChecked | hw2-opsem-buttiprathyu/build-prove-compare/bare/impcore-with-locals/eval.c:160-163 | / by 0 is "division by zero", INT32_MIN / -1 overflows, and every other quotient rounds toward zero |
| ImpcoreFacts.ComparisonsAreBoolean | hw2-opsem-buttiprathyu/build-prove-compare/bare/impcore-with-locals/eval.c:148-153 | <, > and = never fail on two arguments and return 1 or 0 |
| ImpcoreFacts.PrintReturnsArgument | hw2-opsem-buttiprathyu/build-prove-compare/bare/impcore-with-locals/eval.c:104-130 | print, println and printu return their one argument unchanged |
| ImpcoreFacts.ValBindsGlobal | hw2-opsem-buttiprathyu/build-prove-compare/bare/impcore-with-locals/eval.c:189-198 | val evaluates with empty formals and locals and binds or replaces the global, changing no other global and no function |
| ImpcoreFacts.ExpBindsIt | hw2-opsem-buttiprathyu/build-prove-compare/bare/impcore-with-locals/eval.c:199-208 | a bare expression's value is bound to `it`, the other globals keep what the expression left in them and no global appears or disappears besides `it`; an error is passed on with its globals |
| ImpcoreFacts.DefineChecksFormals | hw2-opsem-buttiprathyu/build-prove-compare/bare/impcore-with-locals/eval.c:209-218 | define fails exactly when a formal repeats, naming a repeated formal; otherwise it binds or replaces the function and leaves the globals alone |
| StackDebug.CurrentExpression | hw1-impcore-buttiprathyu/build-prove-compare/bare/uscheme-ms/stack-debug.c:11-19 | with a NULL pointer or a zero count nothing changes; otherwise the count drops by one and only etick rises |
| StackDebug.CurrentValue | hw1-impcore-buttiprathyu/build-prove-compare/bare/uscheme-ms/stack-debug.c:21-32 | the same with vtick |
| StackDebug.TicksConserveCount | hw1-impcore-buttiprathyu/build-prove-compare/bare/uscheme-ms/stack-debug.c:11-32 | ticks gained plus count lost is constant over any run |
| StackDebug.NullPointerIsInert | hw1-impcore-buttiprathyu/build-prove-compare/bare/uscheme-ms/stack-debug.c:12 | with a NULL count pointer no event changes anything |
| StackDebug.NotActiveStays | hw1-impcore-buttiprathyu/build-prove-compare/bare/uscheme-ms/stack-debug.c:22 | once the count is zero no event changes anything |
| StackDebug.CountdownShowsFirstN | hw1-impcore-buttiprathyu/build-prove-compare/bare/uscheme-ms/stack-debug.c:6-32 | after init with a count n >= 0, exactly the first min(n, events) events are shown: etick counts the expressions among them, vtick the values |
| StackDebug.NegativeCountShowsAll | hw1-impcore-buttiprathyu/build-prove-compare/bare/uscheme-ms/stack-debug.c:11-32 | a negative count never reaches zero, so every event is shown and counted |

## Left out

**Output and I/O**
- Printing of any kind is not modelled: traces, `print` and its relatives,
  echoing in `evaldef`, and error messages beyond the parts the model
  distinguishes.
- The Impcore `print`, `println` and `printu` are modelled as returning their
  argument.
- `readevalprint` is not modelled. It reads files with `use` and runs the
  unit tests, through code that is not part of this model.

**Control transfer and host limits**
- `setjmp`/`longjmp`: an error is an `Abort` result.
  `ErrorFacility.RunError` and `ErrorFacility.SynError` give the facility's
  state after the jump. `synerror`'s location prefix is taken as already
  formatted.
- `checkoverflow` is the fuel bound. `OutOfFuel`, and the uScheme
  `DanglingLocation` (a location missing from the store, which the C heap
  cannot produce), are artifacts of the model.

**Code outside the modelled files**
- The uScheme primitives' C functions are an oracle in `Machine`. The record
  desugaring's semantics assume only that cons, car, cdr, null? and pair?
  behave as their names say (`RecordFacts.PairPrims`).
- `rand()` is an oracle indexed by the number of draws. `unspecified` is
  modelled exactly, including its unreachable nil default.
- `env.c` is not part of this model:
  - `find`, `bindalloc` and `bindalloclist` are modelled on the store map;
  - `bindalloclist` binds pairs while both lists last;
  - unequal lengths in `let`, and in `letrec`'s back-patching loop, fail the
    C assertion (`AssertionFailure`).
- `freevars` is not part of this model. `SchemeDesugar.FreeVars` is the usual
  definition over the modelled expressions, with let* binding left to right.

**Parser details**
- The table-driven parser plumbing is not modelled: row parsing, shift
  functions, let-binding parsing and the mapping from codes to constructors.
  The model starts from a parsed `Par` or `Exp`.
- Source locations are not modelled.
- `desugarLet` and `desugarLetStar` are not called by `reduce_to_exp` in
  either parser. `let` and `let*` go to `mkLetx` (hw5 `parse.c`:79-83, hw7
  `parse.c`:59-63), and the hw5 call to `desugarLetStar` is commented out
  (hw5 `parse.c`:92-93). The evaluator runs `let*` natively. Statements about
  the two desugarings are about the functions as defined, not about how a
  program with `let` runs.
- `&trace` is decremented as an unbounded integer. In C it is the
  32-bit `num` of the bound value, so a negative `&trace` counted down past
  INT32_MIN would wrap; `SchemeEval.TraceEnter` does not model that.
- `long` is taken to be 64 bits wide (LP64). `Int32Arith.ClampLong` and the
  value 0 that `SchemeParse.QuotedWideNumeralWraps` gives for
  `(quote 4294967296)` depend on it. With a 32-bit `long`, `strtol`
  saturates at 2147483647 instead, and the wide numeral is still accepted
  silently.
- `checkarith` is not part of this model. `Impcore.Overflows` stands in for
  it as a test that the exact result leaves the int32 range. The test is
  skipped for a division by zero, so that case reaches the
  "division by zero" error. `ImpcoreFacts.DivideChecked` relies on this
  assumed behaviour.
- Name interning and the `malloc`/`free` in `namecat` are not modelled.
- The `ERANGE` disjunct of `exp_of_atom`'s range test is folded into the
  int32 bounds. A saturated `strtol` result lies far outside them, so the
  test is the same.
- `parsesx` on a list calls itself twice as arguments of `cons`, and C leaves
  the order of those calls unspecified. When both halves hold an error, the
  model reports the first half's.
- The two parsers share `exp_of_atom`, `parsesx`, the duplicate checks and
  `namecat`, line for line. They are modelled once, in `SchemeParse`. The
  hw7 citations above are for members of that module.

**Contracts stated weaker than the source**
- SchemeDesugarFacts.LetDesugarAgrees: proved only with tracing off and
  equal-length lists. With tracing on, the desugared form is an application
  and so decrements `&trace`, where `let` does not. With unequal lists the
  errors differ: `checkargc` against the `bindalloclist` assertion.
- SchemeDesugarFacts.AndOfLiterals: proved for literal operands. General
  operands would need a fuel-monotonicity argument, which is not made here.
- SchemeDesugarFacts.OrOfLiterals: proved for literal operands. General
  operands would need a fuel-monotonicity argument, which is not made here.
- SchemeDesugarFacts.CondPicksFirstTrue: proved for literal operands. General
  operands would need a fuel-monotonicity argument, which is not made here.
- SchemeDesugarFacts.CondNoneTrue: proved for literal operands, for the same
  reason.
- SchemeDesugarFacts.AndEvaluates: literal operands only, for the same reason.
- SchemeDesugarFacts.OrEvaluates: literal operands only, for the same reason.
- SchemeDesugarFacts.CondEvaluates: literal questions only, for the same reason.
- RecordFacts.RecordPassesLengthTest: covers only the length test in `R?`.
  The `good_car` test calls the global `=`, whose binding the program may
  change, so it is left unevaluated.
- SchemeTrace.EvalAgrees: holds only for programs that never read, set or
  bind `&trace`. A program that does can observe its own trace counter.
- StackDebug.CountdownShowsFirstN: assumes the program never writes `&trace-stack` between
  events. The C counter is the variable's own cell, which a `set` can change;
  `Run` feeds only trace events.
- StackDebug.ShowsFirstN: assumes the program never writes `&trace-stack` between
  events. The C counter is the variable's own cell, which a `set` can change;
  `Run` feeds only trace events.
- StackDebug.NotActiveStays: assumes the program never writes `&trace-stack` between
  events. The C counter is the variable's own cell, which a `set` can change;
  `Run` feeds only trace events.
- StackDebug.NegativeCountShowsAll: assumes the program never writes `&trace-stack` between
  events. The C counter is the variable's own cell, which a `set` can change;
  `Run` feeds only trace events.
- StackDebug.NegativeCountShowsAll: also relies on the count being an
  unbounded integer. Counting down, the C `int` would eventually pass INT_MIN, which
  is undefined behaviour and in practice wraps to a positive count that then
  reaches zero; the model does not follow it there.
- StackDebug.TicksConserveCount: assumes, like the lemmas above, that the
  program never writes `&trace-stack`. Counts are unbounded integers. The C `int`
  counters can overflow; that undefined behaviour is not modelled.

## Findings

| source | as written | input that shows it | evidently intended | confidence | as-written member | corrected member |
|---|---|---|---|---|---|---|
| hw5-continuations-buttiprathyu/uscheme-trace/parse.c:171-174 | a quoted numeral is stored with `mkNum(l)` and no range check. The `long` from `strtol` is narrowed to 32 bits, so a wide numeral silently wraps. The same code is in hw7-typesys-buttiprathyu/build-prove-compare/bare/uscheme/parse.c:132-135. | `(quote 4294967296)` gives the number 0 (with the usual 64-bit `long`), while the same numeral outside quote is a syntax error | the same int32 range check `exp_of_atom` applies, rejecting the literal | not executed | SchemeParse.SxOfAtomAsWritten, with SchemeParse.QuotedWideNumeralWraps | SchemeParse.SxOfAtom, with SchemeParse.ParseSx and SchemeParse.ParseSxAgreesInRange |
