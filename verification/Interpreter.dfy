/**
 * The CPS interpreter: a declaration pass that fills a variable table and a
 * function table up to the run marker, then an execution pass over the lines
 * between the marker and the last line.
 *
 * The semantics is given by functions (`Run`, built from the left fold
 * `DeclUpTo` and the sequencing `Sequence`); the class `Interpreter` holds the
 * two tables as fields and runs the same passes with loops, and its `RunCode`
 * is proved to agree with `Run`.
 */
module CpsInterpreter {
  import opened Text
  import opened CpsSyntax

  /** What a run returns: the printed lines, or the first error. An error
      carries no partial output. */
  datatype Outcome = Printed(output: seq<string>) | Failed(error: SyntaxError)
  {
    /** The string handed back to the caller: the output lines joined with
        line feeds, or the error message after the `Syntax Error` prefix. */
    function ToString(): (r: string)
      ensures Failed? ==> StartsWith(r, ErrorPrefix)
    {
      match this
      case Printed(output) => Join(output, "\n")
      case Failed(error) => ErrorText(error)
    }
  }

  /** The state of the declaration pass: both tables and the function being
      collected. `openName == ""` stands for "no function open": the source
      only ever tests the open name for truthiness, which treats `None` and
      the empty name alike. */
  datatype DeclState = DeclState(
    variables: map<string, string>,
    functions: map<string, seq<string>>,
    openName: string,
    body: seq<string>)

  const Initial: DeclState := DeclState(map[], map[], "", [])

  /** One step of the declaration pass stops with an error, or goes on. */
  datatype Step = Next(st: DeclState) | Stop(error: SyntaxError, st: DeclState)

  // ---------------------------------------------------------------------
  // Preparing the lines

  /** Each piece trimmed, blank pieces dropped, order kept. */
  function NonBlankLines(raw: seq<string>): (lines: seq<string>)
    ensures forall i :: 0 <= i < |lines| ==> lines[i] != "" && IsTrimmed(lines[i])
    ensures |lines| <= |raw|
  {
    if raw == [] then []
    else
      var t := Trim(raw[0]);
      (if t == "" then [] else [t]) + NonBlankLines(raw[1..])
  }

  /** The program's lines: the source trimmed, split on line feeds, every
      line trimmed, blank lines dropped. */
  function Lines(code: string): seq<string> {
    NonBlankLines(Split(Trim(code), "\n"))
  }

  // ---------------------------------------------------------------------
  // Declaration pass

  /** How the declaration pass reads a line that is not the run marker. The
      tests are made in this order, so inside an open function a variable
      declaration is registered and a function opening restarts collection. */
  datatype DeclLine =
    | VarLine(line: string, decl: Option<VarDecl>)  // `None`: a malformed declaration
    | OpenLine(name: string)
    | OtherLine(line: string)                       // a close, a body line, or an error

  function Classify(line: string): DeclLine {
    if IsVarDeclLine(line) then VarLine(line, ParseVarDecl(line))
    else if IsFnOpen(line) then OpenLine(FnOpenName(line))
    else OtherLine(line)
  }

  function Classified(lines: seq<string>): (decls: seq<DeclLine>)
    ensures |decls| == |lines|
  {
    seq(|lines|, i requires 0 <= i < |lines| => Classify(lines[i]))
  }

  /** One declaration-pass line: a variable declaration updates the variable
      table, an opening starts collecting a function, and any other line is
      collected into the open function, closes it if it is `!`, or is an
      error when no function is open. */
  function DeclStep(st: DeclState, d: DeclLine): (r: Step)
    ensures r.Stop? <==> (d.VarLine? && d.decl.None?) || (d.OtherLine? && st.openName == "")
    ensures r.Stop? ==> r.st == st
    ensures r.Stop? ==> r.error == (if d.VarLine? then InvalidVariableDeclaration(d.line)
                                    else InvalidDeclaration(d.line))
    ensures st.variables.Keys <= r.st.variables.Keys
    ensures st.functions.Keys <= r.st.functions.Keys
    ensures !d.VarLine? ==> r.st.variables == st.variables
    ensures r.st.functions != st.functions ==> d == OtherLine(FnClose) && st.openName != ""
  {
    match d
    case VarLine(line, None) => Stop(InvalidVariableDeclaration(line), st)
    case VarLine(_, Some(v)) => Next(st.(variables := st.variables[v.name := v.value]))
    case OpenLine(name) => Next(st.(openName := name, body := []))
    case OtherLine(line) =>
      if st.openName == "" then Stop(InvalidDeclaration(line), st)
      else if line == FnClose then
        Next(st.(functions := st.functions[st.openName := st.body], openName := ""))
      else Next(st.(body := st.body + [line]))
  }

  /** The declaration pass over the first `k` lines: the first error stops it. */
  function DeclUpTo(decls: seq<DeclLine>, k: nat): Step
    requires k <= |decls|
  {
    if k == 0 then Next(Initial)
    else
      match DeclUpTo(decls, k - 1)
      case Stop(e, st) => Stop(e, st)
      case Next(st) => DeclStep(st, decls[k - 1])
  }

  /** The index of the first line that starts with the run marker. */
  function FirstMarker(lines: seq<string>): (r: Option<nat>)
    ensures r.Some? ==> r.value < |lines| && IsRunMarker(lines[r.value])
    ensures forall j :: 0 <= j < |lines| && (r.None? || j < r.value) ==> !IsRunMarker(lines[j])
  {
    if lines == [] then None
    else if IsRunMarker(lines[0]) then Some(0)
    else
      match FirstMarker(lines[1..])
      case None => None
      case Some(m) => Some(m + 1)
  }

  /** Where the declaration pass ends: at the marker, or after the last line. */
  function Boundary(lines: seq<string>): (b: nat)
    ensures b <= |lines|
    ensures forall j :: 0 <= j < b ==> !IsRunMarker(lines[j])
  {
    match FirstMarker(lines)
    case Some(m) => m
    case None => |lines|
  }

  /** The whole declaration pass; its state holds the tables as they stand
      when the run ends (the source leaves them in the interpreter). */
  function DeclPass(lines: seq<string>): Step {
    DeclUpTo(Classified(lines), Boundary(lines))
  }

  // ---------------------------------------------------------------------
  // Execution pass

  /** `variables.get(text, text)`: a declared variable's value, else the text. */
  function Resolve(variables: map<string, string>, text: string): (r: string)
    ensures text in variables ==> r == variables[text]
    ensures text !in variables ==> r == text
  {
    if text in variables then variables[text] else text
  }

  /** Sequencing: the first failure wins, otherwise the outputs are concatenated. */
  function Then(first: Outcome, second: Outcome): (r: Outcome)
    ensures first.Failed? ==> r == first
    ensures first.Printed? && second.Failed? ==> r == second
    ensures first.Printed? && second.Printed? ==> r == Printed(first.output + second.output)
  {
    match first
    case Failed(_) => first
    case Printed(out) =>
      match second
      case Failed(_) => second
      case Printed(more) => Printed(out + more)
  }

  /** Running statements one after another and stopping at the first error. */
  function Sequence(steps: seq<Outcome>): Outcome {
    if steps == [] then Printed([])
    else Then(Sequence(steps[..|steps| - 1]), steps[|steps| - 1])
  }

  /** One line of an invoked function's body: only a print statement is
      allowed, and this is checked at the call, not at the declaration. */
  function BodyLine(name: string, line: string, variables: map<string, string>): Outcome {
    if IsPrint(line) then Printed([Resolve(variables, PrintText(line))])
    else Failed(InvalidFunctionStatement(line, name))
  }

  function BodySteps(name: string, body: seq<string>, variables: map<string, string>): seq<Outcome> {
    seq(|body|, i requires 0 <= i < |body| => BodyLine(name, body[i], variables))
  }

  /** Invoking function `name` replays its body in order. */
  function CallBody(name: string, body: seq<string>, variables: map<string, string>): Outcome {
    Sequence(BodySteps(name, body, variables))
  }

  /** One execution-pass statement: a print or an invocation. */
  function ExecLine(raw: string, variables: map<string, string>,
                    functions: map<string, seq<string>>): Outcome
  {
    var line := Trim(raw);
    if IsPrint(line) then Printed([Resolve(variables, PrintText(line))])
    else if IsInvoke(line) then
      var name := InvokeName(line);
      if name in functions then CallBody(name, functions[name], variables)
      else Failed(FunctionNotFound(name))
    else Failed(InvalidStatement(line))
  }

  function ExecSteps(stmts: seq<string>, variables: map<string, string>,
                     functions: map<string, seq<string>>): seq<Outcome>
  {
    seq(|stmts|, i requires 0 <= i < |stmts| => ExecLine(stmts[i], variables, functions))
  }

  /** The execution pass: the statements in order, first error wins. */
  function Exec(stmts: seq<string>, variables: map<string, string>,
                functions: map<string, seq<string>>): Outcome
  {
    Sequence(ExecSteps(stmts, variables, functions))
  }

  /** `lines[m + 1:-1]`: the lines after the marker, without the last line. */
  function Executed(lines: seq<string>, m: nat): seq<string> {
    Slice(lines, m + 1, -1)
  }

  /** A whole run over prepared lines. */
  function RunLines(lines: seq<string>): Outcome {
    match DeclPass(lines)
    case Stop(e, _) => Failed(e)
    case Next(st) =>
      match FirstMarker(lines)
      case None => Failed(MissingRunMarker)
      case Some(m) => Exec(Executed(lines, m), st.variables, st.functions)
  }

  function Run(code: string): Outcome {
    RunLines(Lines(code))
  }

  // ---------------------------------------------------------------------
  // Helpers for the proof of `Interpreter.RunCode`

  /** `decls` classifies `lines` one by one. The quantifier is only
      instantiated where a line is classified explicitly, which keeps the
      parsing of a line out of proofs that only need the fold. */
  predicate ClassifiesAll(lines: seq<string>, decls: seq<DeclLine>) {
    |decls| == |lines| &&
    forall k {:trigger Classify(lines[k])} :: 0 <= k < |lines| ==> decls[k] == Classify(lines[k])
  }

  lemma ClassifiedIs(lines: seq<string>, decls: seq<DeclLine>)
    requires ClassifiesAll(lines, decls)
    ensures decls == Classified(lines)
  {
    forall k | 0 <= k < |lines| ensures decls[k] == Classified(lines)[k] {
      assert decls[k] == Classify(lines[k]);
    }
  }

  lemma ClassifiedAll(lines: seq<string>)
    ensures ClassifiesAll(lines, Classified(lines))
  {
  }

  /** One more line of the declaration pass. */
  lemma DeclAdvance(decls: seq<DeclLine>, i: nat)
    requires i < |decls| && DeclUpTo(decls, i).Next?
    ensures DeclUpTo(decls, i + 1) == DeclStep(DeclUpTo(decls, i).st, decls[i])
  {
  }

  /** An error, once raised, is the state of every longer prefix. */
  lemma {:induction false} DeclStopPersists(decls: seq<DeclLine>, j: nat, k: nat)
    requires j <= k <= |decls| && DeclUpTo(decls, j).Stop?
    ensures DeclUpTo(decls, k) == DeclUpTo(decls, j)
    decreases k
  {
    if k > j {
      DeclStopPersists(decls, j, k - 1);
    }
  }

  /** A declaration error among the first `k` lines, before any marker, is
      where the pass ends. */
  lemma DeclStopEndsPass(lines: seq<string>, decls: seq<DeclLine>, k: nat)
    requires |decls| == |lines| && k <= |lines|
    requires forall j :: 0 <= j < k ==> !IsRunMarker(lines[j])
    requires DeclUpTo(decls, k).Stop?
    ensures DeclUpTo(decls, Boundary(lines)) == DeclUpTo(decls, k)
  {
    assert k <= Boundary(lines);
    DeclStopPersists(decls, k, Boundary(lines));
  }

  /** The pass ends at the first marker, or after the last line. */
  lemma PassEnd(lines: seq<string>, i: nat)
    requires i <= |lines| && forall j :: 0 <= j < i ==> !IsRunMarker(lines[j])
    requires i == |lines| || IsRunMarker(lines[i])
    ensures FirstMarker(lines) == if i == |lines| then None else Some(i)
    ensures Boundary(lines) == i
  {
  }

  /** The run, given how its declaration pass ended. */
  lemma RunFromPass(lines: seq<string>)
    ensures DeclPass(lines).Stop? ==> RunLines(lines) == Failed(DeclPass(lines).error)
    ensures DeclPass(lines).Next? && FirstMarker(lines).None? ==> RunLines(lines) == Failed(MissingRunMarker)
    ensures DeclPass(lines).Next? && FirstMarker(lines).Some? ==>
      RunLines(lines) == Exec(Executed(lines, FirstMarker(lines).value),
                              DeclPass(lines).st.variables, DeclPass(lines).st.functions)
  {
  }

  lemma {:induction false} SequenceStopsAtFailure(steps: seq<Outcome>, j: nat)
    requires j <= |steps| && Sequence(steps[..j]).Failed?
    ensures Sequence(steps) == Sequence(steps[..j])
    decreases |steps|
  {
    if j < |steps| {
      var init := steps[..|steps| - 1];
      assert init[..j] == steps[..j];
      SequenceStopsAtFailure(init, j);
    } else {
      assert steps[..j] == steps;
    }
  }

  /** Extending a run of statements by one more. */
  lemma SequenceExtend(steps: seq<Outcome>, k: nat)
    requires k < |steps|
    ensures Sequence(steps[..k + 1]) == Then(Sequence(steps[..k]), steps[k])
  {
    assert steps[..k + 1][..k] == steps[..k];
  }

  /** `steps` is what the statements do one by one; like `ClassifiesAll`,
      this keeps the meaning of a statement out of proofs that only need the
      sequencing. */
  predicate ExecutesAll(stmts: seq<string>, steps: seq<Outcome>, variables: map<string, string>,
                        functions: map<string, seq<string>>) {
    |steps| == |stmts| &&
    forall k {:trigger ExecLine(stmts[k], variables, functions)} :: 0 <= k < |stmts| ==>
      steps[k] == ExecLine(stmts[k], variables, functions)
  }

  lemma ExecutesSteps(stmts: seq<string>, variables: map<string, string>,
                      functions: map<string, seq<string>>)
    ensures ExecutesAll(stmts, ExecSteps(stmts, variables, functions), variables, functions)
  {
  }

  /** One step of a loop that runs `steps` in order: a failure is the result
      of the whole run, and output is appended otherwise. */
  lemma SequenceStep(steps: seq<Outcome>, k: nat, output: seq<string>)
    requires k < |steps| && Sequence(steps[..k]) == Printed(output)
    ensures steps[k].Failed? ==> Sequence(steps) == steps[k]
    ensures steps[k].Printed? ==> Sequence(steps[..k + 1]) == Printed(output + steps[k].output)
  {
    SequenceExtend(steps, k);
    if steps[k].Failed? {
      SequenceStopsAtFailure(steps, k + 1);
    }
  }

  // ---------------------------------------------------------------------
  // The interpreter object

  class Interpreter {
    var variables: map<string, string>
    var functions: map<string, seq<string>>

    constructor ()
      ensures variables == map[] && functions == map[]
    {
      variables := map[];
      functions := map[];
    }

    /** Empties both tables. */
    method Reset()
      modifies this
      ensures variables == map[] && functions == map[]
    {
      variables := map[];
      functions := map[];
    }

    /** Runs a program. The outcome and the tables left behind are functions
        of `code` alone: nothing from an earlier run survives. */
    method RunCode(code: string) returns (result: Outcome)
      modifies this
      ensures result == Run(code)
      ensures variables == DeclPass(Lines(code)).st.variables
      ensures functions == DeclPass(Lines(code)).st.functions
    {
      Reset();
      var lines := Lines(code);
      ghost var decls := Classified(lines);
      ClassifiedAll(lines);
      var failure, marker := DeclarationPass(lines, decls);
      RunFromPass(lines);
      if failure.Some? {
        return Failed(failure.value);
      }
      if marker.None? {
        return Failed(MissingRunMarker);
      }
      ghost var steps := ExecSteps(Executed(lines, marker.value), variables, functions);
      ExecutesSteps(Executed(lines, marker.value), variables, functions);
      result := Execute(Executed(lines, marker.value), steps);
    }

    /** Scans the lines up to the first run marker, filling the tables. Stops
        at the first declaration error; a function still open at the marker
        is dropped with the local state that held it. `decls` is how each line
        reads to the pass, so `DeclUpTo(decls, Boundary(lines))` is
        `DeclPass(lines)`. */
    method DeclarationPass(lines: seq<string>, ghost decls: seq<DeclLine>)
        returns (failure: Option<SyntaxError>, marker: Option<nat>)
      requires ClassifiesAll(lines, decls)
      requires variables == map[] && functions == map[]
      modifies this
      ensures failure.Some? <==> DeclUpTo(decls, Boundary(lines)).Stop?
      ensures failure.Some? ==> failure.value == DeclUpTo(decls, Boundary(lines)).error
      ensures failure.None? ==> marker == FirstMarker(lines)
      ensures variables == DeclUpTo(decls, Boundary(lines)).st.variables
      ensures functions == DeclUpTo(decls, Boundary(lines)).st.functions
    {
      var fname := "";
      var fbody: seq<string> := [];
      marker := None;
      var i := 0;
      while i < |lines|
        invariant i <= |lines| && marker.None?
        invariant forall j :: 0 <= j < i ==> !IsRunMarker(lines[j])
        invariant DeclUpTo(decls, i) == Next(DeclState(variables, functions, fname, fbody))
      {
        if StartsWith(lines[i], RunMarker) {
          marker := Some(i);
          break;
        }
        failure, fname, fbody := DeclareLine(lines, decls, i, fname, fbody);
        if failure.Some? {
          DeclStopEndsPass(lines, decls, i + 1);
          return;
        }
        i := i + 1;
      }
      failure := None;
      PassEnd(lines, i);
    }

    /** Declaration-pass line `i`, which is not the run marker, with the
        function being collected passed in and out: the pass advances by one
        line. On an error nothing changes. */
    method DeclareLine(lines: seq<string>, ghost decls: seq<DeclLine>, i: nat, fname: string, fbody: seq<string>)
        returns (failure: Option<SyntaxError>, fname': string, fbody': seq<string>)
      requires ClassifiesAll(lines, decls) && i < |lines|
      requires DeclUpTo(decls, i) == Next(DeclState(variables, functions, fname, fbody))
      modifies this
      ensures failure.Some? ==>
        variables == old(variables) && functions == old(functions) &&
        DeclUpTo(decls, i + 1) == Stop(failure.value, DeclState(variables, functions, fname, fbody))
      ensures failure.None? ==>
        DeclUpTo(decls, i + 1) == Next(DeclState(variables, functions, fname', fbody'))
    {
      var line := lines[i];
      assert decls[i] == Classify(line);
      DeclAdvance(decls, i);
      failure, fname', fbody' := None, fname, fbody;
      if StartsWith(line, VarPrefix) && Contains(line, VarMark) {
        var parts := Split(line, VarSeparator);
        if |parts| != 2 || !StartsWith(parts[0], VarPrefix) || !EndsWith(parts[1], Delim) {
          failure := Some(InvalidVariableDeclaration(line));
          return;
        }
        var name := Trim(Slice(parts[0], |VarPrefix|, -2));
        var value := Trim(Slice(parts[1], 0, -2));
        assert ParseVarDecl(line) == Some(VarDecl(name, value));
        variables := variables[name := value];
      } else if StartsWith(line, FnOpenPrefix) && EndsWith(line, Delim) {
        fname' := Trim(Slice(line, |FnOpenPrefix|, -2));
        fbody' := [];
      } else if fname != "" {
        if line == FnClose {
          functions := functions[fname := fbody];
          fname' := "";
        } else {
          fbody' := fbody + [line];
        }
      } else {
        failure := Some(InvalidDeclaration(line));
      }
    }

    /** The execution pass over the given statements, against the tables as
        they are. Output is built up in order; an error discards it. `steps`
        is what each statement does, so `Sequence(steps)` is
        `Exec(stmts, variables, functions)`. */
    method Execute(stmts: seq<string>, ghost steps: seq<Outcome>) returns (result: Outcome)
      requires ExecutesAll(stmts, steps, variables, functions)
      ensures result == Sequence(steps)
    {
      var output: seq<string> := [];
      var k := 0;
      while k < |stmts|
        invariant k <= |stmts|
        invariant Sequence(steps[..k]) == Printed(output)
      {
        var emitted := Statement(stmts[k]);
        assert emitted == steps[k];
        SequenceStep(steps, k, output);
        if emitted.Failed? {
          return emitted;
        }
        output := output + emitted.output;
        k := k + 1;
      }
      assert steps[..|stmts|] == steps;
      result := Printed(output);
    }

    /** One execution-pass statement: a print, or an invocation of a declared
        function. This is the source's step as code, and `ExecLine` is its
        meaning; the contract ties the two. */
    method Statement(raw: string) returns (result: Outcome)
      ensures result == ExecLine(raw, variables, functions)
    {
      var line := Trim(raw);
      if StartsWith(line, PrintPrefix) && EndsWith(line, Delim) {
        var text := Trim(Slice(line, |PrintPrefix|, -2));
        result := Printed([if text in variables then variables[text] else text]);
      } else if StartsWith(line, InvokePrefix) && EndsWith(line, Delim) {
        var name := Trim(Slice(line, |InvokePrefix|, -2));
        if name in functions {
          result := Call(name, functions[name]);
        } else {
          result := Failed(FunctionNotFound(name));
        }
      } else {
        result := Failed(InvalidStatement(line));
      }
    }

    /** Replays a function body, checking each line for the print shape only
        now. The loop body is the source's step as code; `BodyLine` is its
        meaning, and the contract ties the loop to `CallBody`. */
    method Call(name: string, body: seq<string>) returns (result: Outcome)
      ensures result == CallBody(name, body, variables)
    {
      ghost var calls := BodySteps(name, body, variables);
      var output: seq<string> := [];
      var n := 0;
      while n < |body|
        invariant n <= |body|
        invariant Sequence(calls[..n]) == Printed(output)
      {
        SequenceExtend(calls, n);
        var line := body[n];
        if StartsWith(line, PrintPrefix) && EndsWith(line, Delim) {
          var text := Trim(Slice(line, |PrintPrefix|, -2));
          output := output + [if text in variables then variables[text] else text];
        } else {
          result := Failed(InvalidFunctionStatement(line, name));
          SequenceStopsAtFailure(calls, n + 1);
          return;
        }
        n := n + 1;
      }
      assert calls[..|body|] == calls;
      result := Printed(output);
    }
  }
}
