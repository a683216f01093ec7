/**
 * Properties of the CPS interpreter, stated over the functions that define a
 * run (`RunLines`, `DeclUpTo`, `Exec`) and therefore, through the contract of
 * `Interpreter.RunCode`, over the interpreter object itself.
 */
module CpsProperties {
  import opened Text
  import opened CpsSyntax
  import opened CpsInterpreter

  // ---------------------------------------------------------------------
  // Sequencing: first error wins, outputs concatenate in order

  lemma ThenAssociative(x: Outcome, y: Outcome, z: Outcome)
    ensures Then(Then(x, y), z) == Then(x, Then(y, z))
  {
  }

  /** Running `a` then `b` is running `a + b`. */
  lemma {:induction false} SequenceAppend(a: seq<Outcome>, b: seq<Outcome>)
    ensures Sequence(a + b) == Then(Sequence(a), Sequence(b))
    decreases |b|
  {
    if b == [] {
      assert a + b == a;
    } else {
      var init := b[..|b| - 1];
      assert (a + b)[..|a + b| - 1] == a + init;
      SequenceAppend(a, init);
      ThenAssociative(Sequence(a), Sequence(init), b[|b| - 1]);
    }
  }

  /** A run of statements succeeds exactly when every statement does. */
  lemma {:induction false} SequencePrinted(steps: seq<Outcome>)
    ensures Sequence(steps).Printed? <==> forall i :: 0 <= i < |steps| ==> steps[i].Printed?
    decreases |steps|
  {
    if steps != [] {
      var init := steps[..|steps| - 1];
      SequencePrinted(init);
      assert forall i :: 0 <= i < |init| ==> init[i] == steps[i];
    }
  }

  /** Statements that each print one line print those lines, in order. */
  lemma {:induction false} SequenceOfLines(steps: seq<Outcome>, out: seq<string>)
    requires |steps| == |out|
    requires forall i :: 0 <= i < |steps| ==> steps[i] == Printed([out[i]])
    ensures Sequence(steps) == Printed(out)
    decreases |steps|
  {
    if steps != [] {
      var n := |steps| - 1;
      SequenceOfLines(steps[..n], out[..n]);
      assert out[..n] + [out[n]] == out;
    }
  }

  /** The first failing statement is the result of the whole run: nothing
      printed before it survives. */
  lemma SequenceFirstFailure(steps: seq<Outcome>, k: nat)
    requires k < |steps| && steps[k].Failed?
    requires forall i :: 0 <= i < k ==> steps[i].Printed?
    ensures Sequence(steps) == steps[k]
  {
    SequencePrinted(steps[..k]);
    SequenceExtend(steps, k);
    SequenceStopsAtFailure(steps, k + 1);
  }

  /** Conversely, a failed run failed at some statement, the first to fail. */
  lemma {:induction false} SequenceFailureOrigin(steps: seq<Outcome>)
    requires Sequence(steps).Failed?
    ensures exists k :: 0 <= k < |steps| && steps[k].Failed? && Sequence(steps) == steps[k] &&
                        forall i :: 0 <= i < k ==> steps[i].Printed?
    decreases |steps|
  {
    var n := |steps| - 1;
    var init := steps[..n];
    if Sequence(init).Failed? {
      SequenceFailureOrigin(init);
      var k :| 0 <= k < |init| && init[k].Failed? && Sequence(init) == init[k] &&
               forall i :: 0 <= i < k ==> init[i].Printed?;
      assert steps[k] == init[k];
      assert forall i :: 0 <= i < k ==> steps[i] == init[i];
    } else {
      SequencePrinted(init);
      assert forall i :: 0 <= i < n ==> steps[i] == init[i];
      assert Sequence(steps) == steps[n];
    }
  }

  // ---------------------------------------------------------------------
  // Execution pass

  /** Statement output appears in source order: executing `a + b` is executing
      `a`, then `b`. */
  lemma ExecAppend(a: seq<string>, b: seq<string>, variables: map<string, string>,
                   functions: map<string, seq<string>>)
    ensures Exec(a + b, variables, functions) ==
            Then(Exec(a, variables, functions), Exec(b, variables, functions))
  {
    var sa, sb := ExecSteps(a, variables, functions), ExecSteps(b, variables, functions);
    var sab := ExecSteps(a + b, variables, functions);
    forall i | 0 <= i < |sab| ensures sab[i] == (sa + sb)[i] {
      if i < |a| {
        assert (a + b)[i] == a[i];
      } else {
        assert (a + b)[i] == b[i - |a|];
      }
    }
    assert sab == sa + sb;
    SequenceAppend(sa, sb);
  }

  /** The first statement that fails decides the run's result. */
  lemma ExecFirstError(stmts: seq<string>, variables: map<string, string>,
                       functions: map<string, seq<string>>, k: nat)
    requires k < |stmts| && ExecLine(stmts[k], variables, functions).Failed?
    requires forall i :: 0 <= i < k ==> ExecLine(stmts[i], variables, functions).Printed?
    ensures Exec(stmts, variables, functions) == ExecLine(stmts[k], variables, functions)
  {
    SequenceFirstFailure(ExecSteps(stmts, variables, functions), k);
  }

  /** A print statement emits the declared variable's value, or else its own
      text. */
  lemma PrintStatement(text: string, variables: map<string, string>,
                       functions: map<string, seq<string>>)
    requires IsTrimmed(text)
    ensures text in variables ==> ExecLine(FormatPrint(text), variables, functions) == Printed([variables[text]])
    ensures text !in variables ==> ExecLine(FormatPrint(text), variables, functions) == Printed([text])
  {
    var line := FormatPrint(text);
    PrintRoundTrip(text);
    assert line[0] == PrintPrefix[0] && line[|line| - 1] == Delim[1];
    TrimTrimmed(line);
  }

  /** Invoking a declared function replays its body; an undeclared one is an
      error naming it. */
  lemma InvokeStatement(name: string, variables: map<string, string>,
                        functions: map<string, seq<string>>)
    requires IsTrimmed(name)
    ensures name in functions ==>
      ExecLine(FormatInvoke(name), variables, functions) == CallBody(name, functions[name], variables)
    ensures name !in functions ==>
      ExecLine(FormatInvoke(name), variables, functions) == Failed(FunctionNotFound(name))
  {
    var line := FormatInvoke(name);
    InvokeRoundTrip(name);
    assert line[0] == InvokePrefix[0] && line[|line| - 1] == Delim[1];
    TrimTrimmed(line);
    assert !StartsWith(line, PrintPrefix) by {
      assert line[0] != PrintPrefix[0];
    }
  }

  /** A function whose body is all print statements prints their resolved
      texts in order. */
  lemma CallAllPrints(name: string, body: seq<string>, variables: map<string, string>)
    requires forall i :: 0 <= i < |body| ==> IsPrint(body[i])
    ensures CallBody(name, body, variables) ==
            Printed(seq(|body|, i requires 0 <= i < |body| => Resolve(variables, PrintText(body[i]))))
  {
    var out := seq(|body|, i requires 0 <= i < |body| => Resolve(variables, PrintText(body[i])));
    SequenceOfLines(BodySteps(name, body, variables), out);
  }

  /** The first body line that is not a print statement is reported with the
      function's name, and nothing the call printed survives. */
  lemma CallFirstBadLine(name: string, body: seq<string>, variables: map<string, string>, k: nat)
    requires k < |body| && !IsPrint(body[k])
    requires forall i :: 0 <= i < k ==> IsPrint(body[i])
    ensures CallBody(name, body, variables) == Failed(InvalidFunctionStatement(body[k], name))
  {
    SequenceFirstFailure(BodySteps(name, body, variables), k);
  }

  /** A call fails only on a non-print body line, and the error names it. */
  lemma CallErrors(name: string, body: seq<string>, variables: map<string, string>)
    ensures CallBody(name, body, variables).Printed? <==> forall i :: 0 <= i < |body| ==> IsPrint(body[i])
    ensures CallBody(name, body, variables).Failed? ==>
      exists k :: 0 <= k < |body| && !IsPrint(body[k]) &&
                  CallBody(name, body, variables).error == InvalidFunctionStatement(body[k], name)
  {
    var steps := BodySteps(name, body, variables);
    SequencePrinted(steps);
    assert forall i :: 0 <= i < |body| ==> (steps[i].Printed? <==> IsPrint(body[i]));
    if Sequence(steps).Failed? {
      SequenceFailureOrigin(steps);
      var k :| 0 <= k < |steps| && steps[k].Failed? && Sequence(steps) == steps[k] &&
               forall i :: 0 <= i < k ==> steps[i].Printed?;
      assert steps[k] == BodyLine(name, body[k], variables);
      assert !IsPrint(body[k]);
    }
  }

  /** How a single statement fails: a line of neither shape is an invalid
      statement, an invocation of an undeclared function is "not found", and
      every other failure comes from a declared function's body. */
  lemma ExecLineErrors(raw: string, variables: map<string, string>,
                       functions: map<string, seq<string>>)
    ensures var r := ExecLine(raw, variables, functions); var line := Trim(raw);
      (r.Failed? && r.error.InvalidStatement? <==> !IsPrint(line) && !IsInvoke(line)) &&
      (r.Failed? && r.error.InvalidStatement? ==> r.error.line == line) &&
      (r.Failed? && r.error.FunctionNotFound? <==>
         !IsPrint(line) && IsInvoke(line) && InvokeName(line) !in functions) &&
      (r.Failed? && r.error.FunctionNotFound? ==> r.error.fnName == InvokeName(line)) &&
      (r.Failed? && r.error.InvalidFunctionStatement? ==>
         !IsPrint(line) && IsInvoke(line) && InvokeName(line) in functions &&
         r.error.fnName == InvokeName(line)) &&
      (r.Printed? <==>
         IsPrint(line) ||
         (IsInvoke(line) && InvokeName(line) in functions &&
          forall i :: 0 <= i < |functions[InvokeName(line)]| ==> IsPrint(functions[InvokeName(line)][i])))
  {
    var line := Trim(raw);
    if !IsPrint(line) && IsInvoke(line) && InvokeName(line) in functions {
      CallErrors(InvokeName(line), functions[InvokeName(line)], variables);
    }
  }

  // ---------------------------------------------------------------------
  // Declaration pass: how lines classify

  /** Two keywords that differ at some position never both start a line. */
  lemma DistinctKeywords(line: string, a: string, b: string, i: nat)
    requires i < |a| && i < |b| && a[i] != b[i]
    ensures !(StartsWith(line, a) && StartsWith(line, b))
  {
  }

  /** The close line `!` is neither a declaration nor an opening, and a
      variable declaration is never the run marker. */
  lemma ClassifyClose()
    ensures Classify(FnClose) == OtherLine(FnClose)
  {
  }

  lemma VarDeclNotMarker(line: string)
    requires IsVarDeclLine(line)
    ensures !IsRunMarker(line)
  {
    DistinctKeywords(line, VarPrefix, RunMarker, 0);
  }

  // ---------------------------------------------------------------------
  // Declaration pass: the variable table

  /** A pass that got through `k` lines got through every shorter prefix. */
  lemma DeclNextBefore(decls: seq<DeclLine>, j: nat, k: nat)
    requires j <= k <= |decls| && DeclUpTo(decls, k).Next?
    ensures DeclUpTo(decls, j).Next?
  {
    if DeclUpTo(decls, j).Stop? {
      DeclStopPersists(decls, j, k);
    }
  }

  /** A pass that stopped did so at one line, the first whose step fails. */
  lemma {:induction false} DeclStopOrigin(decls: seq<DeclLine>, k: nat)
    requires k <= |decls| && DeclUpTo(decls, k).Stop?
    ensures exists q: nat :: q < k && DeclUpTo(decls, q).Next? &&
                             DeclUpTo(decls, k) == DeclStep(DeclUpTo(decls, q).st, decls[q])
    decreases k
  {
    if DeclUpTo(decls, k - 1).Stop? {
      DeclStopOrigin(decls, k - 1);
    }
  }

  /** `d` is a well-formed declaration of variable `name`. */
  predicate Declares(d: DeclLine, name: string) {
    d.VarLine? && d.decl.Some? && d.decl.value.name == name
  }

  /** Every variable in the table was declared by some line, and its value is
      the one given by the last line that declares it. */
  lemma {:induction false} VariableOrigin(decls: seq<DeclLine>, j: nat, name: string)
    requires j <= |decls| && DeclUpTo(decls, j).Next?
    requires name in DeclUpTo(decls, j).st.variables
    ensures exists k :: 0 <= k < j && Declares(decls[k], name) &&
              decls[k].decl.value.value == DeclUpTo(decls, j).st.variables[name] &&
              forall m :: k < m < j ==> !Declares(decls[m], name)
    decreases j
  {
    DeclNextBefore(decls, j - 1, j);
    var st := DeclUpTo(decls, j - 1).st;
    var d := decls[j - 1];
    var now := DeclUpTo(decls, j).st.variables;
    assert DeclUpTo(decls, j) == DeclStep(st, d);
    if Declares(d, name) {
      assert now[name] == d.decl.value.value;
    } else {
      assert name in st.variables && now[name] == st.variables[name];
      VariableOrigin(decls, j - 1, name);
      var k :| 0 <= k < j - 1 && Declares(decls[k], name) &&
               decls[k].decl.value.value == st.variables[name] &&
               forall m :: k < m < j - 1 ==> !Declares(decls[m], name);
      assert forall m :: k < m < j ==> !Declares(decls[m], name);
    }
  }

  /** Conversely, a declaration that no later line overrides holds: the last
      declaration of a name wins. */
  lemma {:induction false} LastDeclarationWins(decls: seq<DeclLine>, k: nat, j: nat)
    requires k < j <= |decls| && DeclUpTo(decls, j).Next?
    requires decls[k].VarLine? && decls[k].decl.Some?
    requires forall m :: k < m < j ==> !Declares(decls[m], decls[k].decl.value.name)
    ensures decls[k].decl.value.name in DeclUpTo(decls, j).st.variables
    ensures DeclUpTo(decls, j).st.variables[decls[k].decl.value.name] == decls[k].decl.value.value
    decreases j
  {
    DeclNextBefore(decls, j - 1, j);
    var st := DeclUpTo(decls, j - 1).st;
    assert DeclUpTo(decls, j) == DeclStep(st, decls[j - 1]);
    if j > k + 1 {
      LastDeclarationWins(decls, k, j - 1);
    }
  }

  // ---------------------------------------------------------------------
  // Declaration pass: the function table

  /** The body a function collects from the lines after its opening: every
      line other than a declaration or an opening, in order. */
  function Collected(ds: seq<DeclLine>): (body: seq<string>)
    ensures |body| <= |ds|
    ensures forall l :: l in body ==> OtherLine(l) in ds
  {
    if ds == [] then []
    else
      var last := ds[|ds| - 1];
      Collected(ds[..|ds| - 1]) + (if last.OtherLine? then [last.line] else [])
  }

  /** Line `o` opens function `name`, and no line after it and before `j`
      opens another function or closes one. */
  predicate Collects(decls: seq<DeclLine>, o: nat, j: nat, name: string) {
    o < j <= |decls| && decls[o] == OpenLine(name) &&
    forall q :: o < q < j ==> !decls[q].OpenLine? && decls[q] != OtherLine(FnClose)
  }

  lemma CollectedSnoc(decls: seq<DeclLine>, a: nat, j: nat)
    requires a < j <= |decls|
    ensures Collected(decls[a..j]) ==
            Collected(decls[a..j - 1]) + (if decls[j - 1].OtherLine? then [decls[j - 1].line] else [])
  {
    assert decls[a..j][..j - 1 - a] == decls[a..j - 1];
  }

  /** A function that is open was opened by an earlier line, and its body so
      far is what that opening collected. */
  lemma {:induction false} OpenFunctionOrigin(decls: seq<DeclLine>, j: nat)
    requires j <= |decls| && DeclUpTo(decls, j).Next? && DeclUpTo(decls, j).st.openName != ""
    ensures exists o: nat :: Collects(decls, o, j, DeclUpTo(decls, j).st.openName) &&
                        DeclUpTo(decls, j).st.body == Collected(decls[o + 1..j])
    decreases j
  {
    DeclNextBefore(decls, j - 1, j);
    var st := DeclUpTo(decls, j - 1).st;
    var d := decls[j - 1];
    var now := DeclUpTo(decls, j).st;
    assert DeclUpTo(decls, j) == DeclStep(st, d);
    if d.OpenLine? {
      assert Collects(decls, j - 1, j, now.openName);
      assert decls[j..j] == [];
    } else {
      assert st.openName == now.openName && d != OtherLine(FnClose);
      OpenFunctionOrigin(decls, j - 1);
      var o: nat :| Collects(decls, o, j - 1, st.openName) && st.body == Collected(decls[o + 1..j - 1]);
      assert Collects(decls, o, j, now.openName);
      OpenFunctionTracks(decls, o, j, now.openName);
    }
  }

  /** Conversely, once a function with a non-empty name is opened, it stays
      open and collects every line that is not a declaration. */
  lemma {:induction false} OpenFunctionTracks(decls: seq<DeclLine>, o: nat, j: nat, name: string)
    requires Collects(decls, o, j, name) && name != "" && DeclUpTo(decls, j).Next?
    ensures DeclUpTo(decls, j).st.openName == name
    ensures DeclUpTo(decls, j).st.body == Collected(decls[o + 1..j])
    decreases j
  {
    DeclNextBefore(decls, j - 1, j);
    var st := DeclUpTo(decls, j - 1).st;
    assert DeclUpTo(decls, j) == DeclStep(st, decls[j - 1]);
    if j == o + 1 {
      assert decls[o + 1..j] == [];
    } else {
      assert Collects(decls, o, j - 1, name);
      OpenFunctionTracks(decls, o, j - 1, name);
      CollectedSnoc(decls, o + 1, j);
    }
  }

  /** Without a close line, the function table does not change. */
  lemma {:induction false} FunctionsFrozen(decls: seq<DeclLine>, a: nat, j: nat)
    requires a <= j <= |decls| && DeclUpTo(decls, j).Next?
    requires forall q :: a <= q < j ==> decls[q] != OtherLine(FnClose)
    ensures DeclUpTo(decls, j).st.functions == DeclUpTo(decls, a).st.functions
    decreases j
  {
    if a < j {
      DeclNextBefore(decls, j - 1, j);
      FunctionsFrozen(decls, a, j - 1);
    }
  }

  /** A `!` line before the end of a collection lies before its opening line. */
  lemma CloseBeforeOpening(decls: seq<DeclLine>, o: nat, j: nat, c: nat, name: string)
    requires Collects(decls, o, j, name) && c < j && decls[c] == OtherLine(FnClose)
    ensures c < o
  {
  }

  /** A function opened at line `o` with a non-empty name and closed at line
      `c` is stored with the body collected in between, and stays so until a
      function of the same name is closed again. */
  lemma {:induction false} FunctionStored(decls: seq<DeclLine>, o: nat, c: nat, j: nat, name: string)
    requires Collects(decls, o, c, name) && name != ""
    requires c < j <= |decls| && decls[c] == OtherLine(FnClose) && DeclUpTo(decls, j).Next?
    requires forall o2: nat, c2: nat :: c < o2 && c2 < j && Collects(decls, o2, c2, name) ==>
                                          decls[c2] != OtherLine(FnClose)
    ensures name in DeclUpTo(decls, j).st.functions
    ensures DeclUpTo(decls, j).st.functions[name] == Collected(decls[o + 1..c])
    decreases j
  {
    DeclNextBefore(decls, j - 1, j);
    var st := DeclUpTo(decls, j - 1).st;
    assert DeclUpTo(decls, j) == DeclStep(st, decls[j - 1]);
    if j == c + 1 {
      OpenFunctionTracks(decls, o, c, name);
    } else {
      FunctionStored(decls, o, c, j - 1, name);
      if st.openName == name {
        OpenFunctionOrigin(decls, j - 1);
        var o2: nat :| Collects(decls, o2, j - 1, name) && st.body == Collected(decls[o2 + 1..j - 1]);
        CloseBeforeOpening(decls, o2, j - 1, c, name);
        assert decls[j - 1] != OtherLine(FnClose);
      }
    }
  }

  /** Every stored function was opened and then closed by earlier lines, and
      its body is what was collected in between. */
  lemma {:induction false} FunctionOrigin(decls: seq<DeclLine>, j: nat, name: string)
    requires j <= |decls| && DeclUpTo(decls, j).Next?
    requires name in DeclUpTo(decls, j).st.functions
    ensures exists o: nat, c: nat :: Collects(decls, o, c, name) && c < j && decls[c] == OtherLine(FnClose) &&
                           DeclUpTo(decls, j).st.functions[name] == Collected(decls[o + 1..c])
    decreases j
  {
    DeclNextBefore(decls, j - 1, j);
    var st := DeclUpTo(decls, j - 1).st;
    var now := DeclUpTo(decls, j).st.functions;
    assert DeclUpTo(decls, j) == DeclStep(st, decls[j - 1]);
    if now != st.functions && name == st.openName {
      OpenFunctionOrigin(decls, j - 1);
      var o: nat :| Collects(decls, o, j - 1, st.openName) && st.body == Collected(decls[o + 1..j - 1]);
      assert now[name] == st.body;
    } else {
      assert name in st.functions && now[name] == st.functions[name];
      FunctionOrigin(decls, j - 1, name);
    }
  }

  /** A function still open at the run marker adds nothing to the table. */
  lemma OpenAtMarkerDropped(lines: seq<string>, o: nat, m: nat, name: string)
    requires FirstMarker(lines) == Some(m) && Collects(Classified(lines), o, m, name)
    requires DeclPass(lines).Next?
    ensures DeclPass(lines).st.functions == DeclUpTo(Classified(lines), o).st.functions
  {
    FunctionsFrozen(Classified(lines), o, m);
  }
}
