# CPS interpreter, modelled in Dafny

This project models the interpreter class `CPSInterpreter` of `app.py`. CPS is a
small line-based scripting language.

A program has two parts.

- Before a run marker (`if!app.run ^^true^^::do`) it declares two kinds of thing:
  - variables, written `app.add ^^name^^:: value%^^value^^`;
  - functions, opened with `app.get::^^name^^`, followed by body lines and closed with `!`.
- After the marker it runs statements:
  - `Console.line^^text^^` prints a variable's value, or the text itself when no such variable exists;
  - `app.getthe^^name^^` replays a declared function, whose body may only contain print statements.

The last line of the program is never executed. The result is the printed lines joined
with line feeds, or a single `Syntax Error: …` message for the first error.

The project has five files:

- `Text.dfy` (module `Text`) models the Python string operations the interpreter relies
  on, with Python's semantics:
  - `str.strip`, `startswith`, `endswith` and `in`;
  - `split`, `join`;
  - slices with negative bounds.
- `Syntax.dfy` (module `CpsSyntax`) covers the surface syntax:
  - the keyword constants;
  - how a line is recognised as each kind of statement;
  - how a payload, name or value is cut out of a line;
  - the error messages.

  It also proves that extracting a payload from a canonically written statement gives
  back what was written.
- `Interpreter.dfy` (module `CpsInterpreter`) holds the semantics and the class.
  - The semantics is a function `Run(code)`. Its declaration pass is the left fold
    `DeclUpTo` of `DeclStep` over the classified lines. Its execution pass is
    `Exec`, which sequences the statements' outcomes with `Then`.
  - The class `Interpreter` keeps the two tables as fields. Its `RunCode` performs
    the same two passes with loops, and is proved to return `Run(code)` and to leave
    the tables that the declaration pass defines.
- `Properties.dfy` (module `CpsProperties`) proves how the pieces behave:
  - sequencing;
  - single statements and function calls;
  - the variable table and the function table.
- `Runs.dfy` (module `CpsRuns`) proves properties of whole runs:
  - how source text becomes lines;
  - which error a run reports;
  - which lines are executed;
  - complete programs.

The interpreter returns a string. The model returns an `Outcome`, which is `Printed`
lines or `Failed` with a `SyntaxError`. `Outcome.ToString` renders an outcome as that
string.

## Model

| member | source | states |
|---|---|---|
| Text.Trim | app.py:18 | the stripped string has no whitespace at either end and contains only characters of the input |
| Text.TrimUnique | app.py:18 | any string made of whitespace, a trimmed core and whitespace strips to exactly that core (an independent characterisation of `strip`) |
| Text.TrimTrimmed | app.py:18 | a string with no whitespace at its ends strips to itself |
| Text.TrimIdempotent | app.py:65 | stripping twice is stripping once, so re-stripping an already stripped line changes nothing |
| Text.FindFrom | app.py:34 | the result is the first occurrence of the pattern at or after the start index, and `None` means there is none |
| Text.Split | app.py:35 | a split always yields at least one piece |
| Text.SplitPieces | app.py:35 | no piece of a split contains the separator, and every piece only holds characters of the input |
| Text.JoinSplit | app.py:18 | joining the pieces of a split with the same separator gives back the string |
| Text.SplitJoin | app.py:18 | splitting on a one-character separator recovers any non-empty list of pieces that do not contain it |
| Text.SliceDropsEnds | app.py:39 | `s[k:-2]` drops the first `k` and the last two elements, and is empty when they overlap; it never adds elements |
| Text.SliceBetween | app.py:39 | `(p + x + cut)[len(p):-2]` is `x` whenever `cut` has two elements |
| CpsSyntax.ErrorText | app.py:58 | every error message starts with `Syntax Error` |
| CpsSyntax.PayloadShape | app.py:67-68 | a line with a keyword and a closing `^^` is keyword + sliced payload + `^^`, or has an empty payload when the two overlap |
| CpsSyntax.PayloadRoundTrip | app.py:68 | extracting the payload of keyword + trimmed text + `^^` gives back the text |
| CpsSyntax.PrintRoundTrip | app.py:67-68 | a canonically written print statement is recognised and yields its text |
| CpsSyntax.InvokeRoundTrip | app.py:72-73 | a canonically written invocation is recognised and yields the function name |
| CpsSyntax.FnOpenRoundTrip | app.py:45-46 | a canonically written function opening is recognised and yields its name |
| CpsSyntax.BarePrintKeyword | app.py:67-68 | the bare keyword `Console.line^^` is itself a print statement, with empty text, because the keyword ends in `^^` |
| CpsSyntax.BareFnOpenKeyword | app.py:45-46 | the bare `app.get::^^` opens a function with an empty name |
| CpsSyntax.SplitAtSeparator | app.py:35 | splitting head + `:: value%^^` + tail, with no colon on either side, yields exactly `[head, tail]` |
| CpsSyntax.DeclLineShape | app.py:34 | a line made of the keyword, anything, and the separator is taken for a variable declaration |
| CpsSyntax.HeadName | app.py:39 | the name is the first piece minus the keyword and its last two characters, stripped |
| CpsSyntax.NameCutByPosition | app.py:36-41 | the last two characters before the separator are dropped whatever they are, so `app.add ^^abcd:: value%^^v^^` declares `ab` with value `v` |
| CpsSyntax.ValueRoundTrip | app.py:40 | the value is the second piece minus its closing `^^`, stripped |
| CpsSyntax.VarDeclRoundTrip | app.py:34-41 | a canonically written declaration with trimmed, colon-free name and value is recognised and parses back to that name and value |
| CpsSyntax.FirstPieceKeepsKeyword | app.py:36 | the first piece of the split always starts with the keyword, so that part of the test never fails |
| CpsSyntax.MarkWithoutSeparatorRejected | app.py:34-37 | a line that contains `:: value%` but not `:: value%^^` is taken for a declaration and then rejected |
| CpsInterpreter.Outcome.ToString | app.py:87 | a failed run's string starts with `Syntax Error` |
| CpsInterpreter.NonBlankLines | app.py:18 | every prepared line is non-empty and stripped, and there are no more lines than pieces; its contents are pinned by NonBlankLinesAppend and NonBlankLinesSingle |
| CpsInterpreter.Classified | app.py:24 | one classification per line |
| CpsInterpreter.DeclStep | app.py:33-58 | a line stops the pass exactly when it is a malformed declaration or an unclaimed line with no function open; a stop leaves the state as it was and names the line with the matching error; table keys only grow; only a declaration changes variables; only `!` with a function open changes functions |
| CpsInterpreter.FirstMarker | app.py:24-27 | the result is the first line that starts with the run marker, and `None` means no line does |
| CpsInterpreter.Boundary | app.py:24-27 | the declaration pass sees only lines before the first marker |
| Text.StartsWith | app.py:25 | Python's `startswith`: the prefix of the right length equals the pattern; DistinctKeywords and the round-trip lemmas use it |
| Text.EndsWith | app.py:36 | Python's `endswith`: the suffix of the right length equals the pattern |
| Text.Contains | app.py:34 | Python's `in`: some occurrence exists, through FindFrom, whose contract states the first one |
| Text.Slice | app.py:39 | Python's `s[start:stop]` with negative bounds and clamping; SliceDropsEnds and SliceBetween give its closed form for `[k:-2]` |
| Text.Join | app.py:87 | Python's `sep.join(parts)`; JoinSplit and SplitJoin relate it to Split |
| CpsSyntax.IsRunMarker | app.py:25 | the marker is recognised by prefix; VarDeclNotMarker, ClassifyPrint and FirstMarker's contract characterise it |
| CpsSyntax.IsVarDeclLine | app.py:34 | the keyword prefix and the `:: value%` mark anywhere in the line; DeclLineShape, ClassifyVarDecl and MarkWithoutSeparatorRejected characterise it |
| CpsSyntax.IsFnOpen | app.py:45 | the `app.get::^^` prefix and a `^^` end; FnOpenRoundTrip, BareFnOpenKeyword and ClassifyFnOpen characterise it |
| CpsSyntax.IsPrint | app.py:67 | the `Console.line^^` prefix and a `^^` end, as also tested on body lines at app.py:76; PrintRoundTrip, BarePrintKeyword and DistinctKeywords characterise it |
| CpsSyntax.IsInvoke | app.py:72 | the `app.getthe^^` prefix and a `^^` end; InvokeRoundTrip and DistinctKeywords characterise it |
| CpsSyntax.Payload | app.py:46 | `line[len(k):-2].strip()`, as also written at app.py:68, 73 and 77; PayloadShape and PayloadRoundTrip characterise it |
| CpsSyntax.FnOpenName | app.py:46 | the name of an opened function; FnOpenRoundTrip characterises it |
| CpsSyntax.PrintText | app.py:68 | the text of a print statement, also at app.py:77; PrintRoundTrip and BarePrintKeyword characterise it |
| CpsSyntax.InvokeName | app.py:73 | the name in an invocation; InvokeRoundTrip characterises it |
| CpsInterpreter.Executed | app.py:64 | `lines[i + 1:-1]`, the lines after the marker without the last line; ExecutedWindow gives its closed form, and LastLineNeverChecked and MarkerNearEnd follow from it |
| CpsSyntax.ParseVarDecl | app.py:35-40 | split on `:: value%^^`; exactly two pieces, the first starting with the keyword and the second ending in `^^`, else malformed; VarDeclRoundTrip, NameCutByPosition, MarkWithoutSeparatorRejected and FirstPieceKeepsKeyword characterise it |
| CpsSyntax.SyntaxError.Message | app.py:37-85 | the six error texts of app.py:37, 58, 61, 80, 82 and 85, naming the offending line or function; ErrorText prefixes them with `Syntax Error: ` |
| CpsInterpreter.Lines | app.py:18 | the whole source stripped, split on line feeds, each line stripped, blank lines dropped; LinesRoundTrip, NoLines, NonBlankLinesAppend and NonBlankLinesSingle characterise it |
| CpsInterpreter.Classify | app.py:34-56 | the declaration test first, then the opening test, otherwise an unclaimed line; DeclStep, ClassifyClose, ClassifyPrint, ClassifyFnOpen and ClassifyVarDecl characterise it |
| CpsInterpreter.DeclUpTo | app.py:24-58 | the declaration loop over the first `k` lines, stopped by the first error; DeclStopOrigin, DeclNextBefore, VariableOrigin, LastDeclarationWins, FunctionStored and FunctionOrigin characterise it |
| CpsInterpreter.DeclPass | app.py:24-58 | the declaration loop up to the first marker; DeclarationPass is proved to compute it, and DeclarationError and MissingMarker state its errors |
| CpsInterpreter.Sequence | app.py:64-85 | statements' outcomes run in order, the first failure ending the run; SequenceAppend, SequencePrinted, SequenceOfLines, SequenceFirstFailure and SequenceFailureOrigin characterise it |
| CpsInterpreter.BodyLine | app.py:76-80 | a body line prints its resolved text if it is a print statement, and is otherwise an invalid statement naming the function; CallAllPrints and CallFirstBadLine use it |
| CpsInterpreter.CallBody | app.py:74-80 | a function's body replayed in order; CallErrors, CallAllPrints and CallFirstBadLine characterise it, and Call is proved to compute it |
| CpsInterpreter.ExecLine | app.py:65-85 | one statement: print, invocation or invalid statement; ExecLineErrors, PrintStatement and InvokeStatement characterise it, and Statement is proved to compute it |
| CpsInterpreter.Exec | app.py:64-85 | the statements run in order; ExecAppend and ExecFirstError characterise it, and Execute is proved to compute it |
| CpsInterpreter.RunLines | app.py:24-87 | the declaration pass, then the marker check, then the execution of the lines between marker and last line; DeclarationError, MissingMarker, ExecutedWindow, LastLineNeverChecked and MarkerNearEnd characterise it |
| CpsInterpreter.Run | app.py:16-87 | a run over the prepared lines of the source; RunCode is proved to return it, and PrintProgramText, LinesRoundTrip and the complete-program lemmas state it on whole programs |
| CpsInterpreter.Interpreter.constructor | app.py:8-10 | both tables start empty |
| CpsInterpreter.Interpreter.Reset | app.py:12-14 | both tables are empty afterwards |
| CpsInterpreter.Interpreter.RunCode | app.py:16-87 | the result is `Run(code)`, and the tables are left as the declaration pass of `code` defines them, whatever earlier runs left behind |
| CpsInterpreter.Interpreter.DeclarationPass | app.py:24-61 | fails exactly when the fold up to the first marker stops, with its error; otherwise it reports the first marker; the tables are the fold's |
| CpsInterpreter.Interpreter.DeclareLine | app.py:33-58 | advances the fold by one line; on an error the tables are unchanged |
| CpsInterpreter.Interpreter.Execute | app.py:64-87 | the result is the sequencing of the statements' outcomes: output in order, or the first error |
| CpsInterpreter.Interpreter.Statement | app.py:65-85 | the result of one statement is `ExecLine` of it |
| CpsInterpreter.Interpreter.Call | app.py:74-82 | replaying a body gives `CallBody`: its prints in order, or the first non-print line |
| CpsProperties.ThenAssociative | app.py:64-87 | combining outcomes is associative |
| CpsProperties.SequenceAppend | app.py:64-87 | running `a` and then `b` is running `a + b` |
| CpsProperties.SequencePrinted | app.py:64-87 | a run of statements succeeds if and only if every statement does |
| CpsProperties.SequenceOfLines | app.py:67-70 | statements that each print one line print those lines in order |
| CpsProperties.SequenceFirstFailure | app.py:80-85 | the first failing statement's error is the result, and earlier output is discarded |
| CpsProperties.SequenceFailureOrigin | app.py:80-85 | a failed run failed at some statement, the first to fail |
| CpsProperties.ExecAppend | app.py:64-87 | executing `a + b` is executing `a` and then `b` |
| CpsProperties.ExecFirstError | app.py:64-85 | the first statement that fails decides the run |
| CpsProperties.PrintStatement | app.py:67-70 | `Console.line^^t^^` prints the value of variable `t` if it is declared, and `t` otherwise |
| CpsProperties.InvokeStatement | app.py:72-83 | invoking a declared function replays its body; an undeclared name gives "function not found" naming it |
| CpsProperties.CallAllPrints | app.py:75-78 | a body made only of prints prints their resolved texts in order |
| CpsProperties.CallFirstBadLine | app.py:75-80 | the first non-print body line is reported, naming the function |
| CpsProperties.CallErrors | app.py:74-82 | a call succeeds if and only if every body line is a print; a failure names some body line and the function |
| CpsProperties.ExecLineErrors | app.py:65-85 | a statement is an invalid statement exactly when it is neither a print nor an invocation, and names the stripped line; it is "not found" exactly when it invokes an undeclared function, naming it; any other failure comes from a declared function's body; it succeeds exactly when it is a print or invokes a function whose body is all prints |
| CpsProperties.DistinctKeywords | app.py:25-45 | two keywords that differ at some position never both start a line |
| CpsProperties.ClassifyClose | app.py:50-53 | `!` is neither a declaration nor a function opening |
| CpsProperties.VarDeclNotMarker | app.py:25-34 | a variable declaration is never taken for the run marker |
| CpsProperties.DeclNextBefore | app.py:24-58 | a pass that got through `k` lines got through every shorter prefix |
| CpsProperties.DeclStopOrigin | app.py:37-58 | a stopped pass stopped at one line, the first whose step fails |
| CpsProperties.VariableOrigin | app.py:33-42 | every variable in the table was declared by some earlier line, the last one declaring it, and holds that line's value |
| CpsProperties.LastDeclarationWins | app.py:41 | a declaration that no later line overrides is in the table with its value |
| CpsProperties.Collected | app.py:55 | a collected body has no more lines than were scanned, and only unclaimed lines |
| CpsProperties.OpenFunctionOrigin | app.py:45-56 | an open function was opened by an earlier line, and its body so far is what that opening collected |
| CpsProperties.OpenFunctionTracks | app.py:45-56 | once a function with a non-empty name is opened, it stays open and collects every line that is not a declaration |
| CpsProperties.FunctionsFrozen | app.py:50-53 | without a `!` line, the function table does not change |
| CpsProperties.FunctionStored | app.py:50-53 | a function opened and then closed by `!` is stored with exactly the lines collected in between, until a function of the same name is closed again; closing other functions leaves it alone |
| CpsProperties.FunctionOrigin | app.py:44-56 | every stored function was opened and later closed, and its body is what was collected in between |
| CpsProperties.OpenAtMarkerDropped | app.py:25-27 | a function still open at the run marker adds nothing to the table |
| CpsRuns.NonBlankLinesAppend | app.py:18 | preparing `a + b` is preparing `a` and then `b`, so lines are handled one by one in order |
| CpsRuns.NonBlankLinesSingle | app.py:18 | one line is stripped, and kept exactly when the result is not empty |
| CpsRuns.NonBlankKeeps | app.py:18 | preparing lines that are already non-empty and stripped keeps them |
| CpsRuns.NoLines | app.py:18 | an empty program has no lines |
| CpsRuns.LinesRoundTrip | app.py:18 | stripped, non-empty lines without line feeds, joined with line feeds, come back unchanged |
| CpsRuns.DeclarationError | app.py:33-58 | a failing declaration pass reports its first offending line, the line before the marker whose step stops the pass: as an invalid variable declaration when it looks like one and as an invalid declaration otherwise |
| CpsRuns.DeclarationErrorAt | app.py:33-58 | conversely, a line before the marker that the pass reaches and that stops it makes the whole run fail with that line's `Invalid variable declaration` or `Invalid declaration` error |
| CpsRuns.MissingMarker | app.py:60-61 | without a marker a run fails, with the missing-marker error if and only if every line before it was a valid declaration |
| CpsRuns.DeclarationErrorBeforeMissingMarker | app.py:58-61 | the one-line program `hello` reports an invalid declaration, not the missing marker |
| CpsRuns.ExecutedWindow | app.py:64 | the executed lines are exactly those strictly between the marker and the last line |
| CpsRuns.LastLineNeverChecked | app.py:64 | once there is a marker, any last line gives the same result |
| CpsRuns.MarkerNearEnd | app.py:64-87 | a marker on the last or second-to-last line runs nothing and returns the empty string |
| CpsRuns.ClassifyPrint | app.py:34-58 | a print statement is an unclaimed line in the declaration pass, and not the marker |
| CpsRuns.ClassifyFnOpen | app.py:45-46 | a canonically written function opening is classified as an opening, and not the marker |
| CpsRuns.ClassifyVarDecl | app.py:34-41 | a canonically written declaration is classified with its parsed name and value, and not the marker |
| CpsRuns.PrintProgram | app.py:16-87 | the marker, `Console.line^^t^^` and a last line print `t` |
| CpsRuns.PrintProgramText | app.py:16-87 | the same program written as source text, one statement per line, prints `t` |
| CpsRuns.DeclareThenPrint | app.py:33-70 | a variable declared before the marker and printed after it prints its value |
| CpsRuns.DefineThenCall | app.py:44-83 | a function with a non-empty name, defined before the marker and invoked after it, prints its body's text |
| CpsRuns.CallUndefined | app.py:81-82 | invoking a function nobody defined fails, naming the function |

## Left out

- The graphical editor is outside the interpreter class and is not modelled: the window, buttons, autocompletion and the `CPS_COMMANDS` list (app.py:90 onwards).
- Whitespace is the ASCII set that Python's `str.isspace` accepts. The other Unicode whitespace characters that `str.strip` also removes are not modelled.
- The `if not line: continue` test in the declaration pass (app.py:30-31) is not modelled. Every prepared line is non-empty, which `NonBlankLines` states, so that branch cannot be taken.
- The source appends to one output list as it goes. The model returns the lines of each statement and concatenates them, which is the same output without the shared list.
- The source reuses the local variable `function_name` in the execution pass (app.py:73). That has no observable effect, so the model gives the invoked name its own variable.
- A function name of `None` and an empty name both count as "no function open", because the source only tests the name for truthiness. The model writes both as the empty name.
- The declaration and execution passes take ghost parameters (`decls`, `steps`) that say how each line reads. They are proof devices and are not part of the interpreter.
- CpsRuns.MissingMarker: the rendered message is stated as `ErrorText(MissingRunMarker)`, which is built from the constants. It is not compared character by character with the literal message at app.py:61.
- The run marker is recognised by prefix (`startswith`) and not as an exact line, as app.py:25 does. A line such as `if!app.run ^^true^^::do!!` also starts execution.
- When the marker is missing but an earlier line is not a valid declaration, the declaration error is reported first, because the source checks lines in order. `DeclarationErrorBeforeMissingMarker` shows this. The missing-marker message only appears when every line is a valid declaration.
