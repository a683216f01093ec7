/**
 * Properties of whole runs: how the source text becomes lines, which errors a
 * run reports, which lines the execution pass sees, and complete programs.
 */
module CpsRuns {
  import opened Text
  import opened CpsSyntax
  import opened CpsInterpreter
  import opened CpsProperties

  // ---------------------------------------------------------------------
  // Preparing the lines

  lemma {:induction false} NonBlankKeeps(ls: seq<string>)
    requires forall i :: 0 <= i < |ls| ==> ls[i] != "" && IsTrimmed(ls[i])
    ensures NonBlankLines(ls) == ls
    decreases |ls|
  {
    if ls != [] {
      TrimTrimmed(ls[0]);
      NonBlankKeeps(ls[1..]);
    }
  }

  /** Concatenation is associative. */
  lemma AppendAssociative<T>(x: seq<T>, y: seq<T>, z: seq<T>)
    ensures x + (y + z) == (x + y) + z
  {
  }

  /** Line preparation works line by line: the lines of `a + b` are the
      lines of `a` followed by those of `b`, ... */
  lemma {:induction false} NonBlankLinesAppend(a: seq<string>, b: seq<string>)
    ensures NonBlankLines(a + b) == NonBlankLines(a) + NonBlankLines(b)
    decreases |a|
  {
    if a == [] {
      assert a + b == b;
    } else {
      var t := Trim(a[0]);
      var head := if t == "" then [] else [t];
      assert (a + b)[0] == a[0] && (a + b)[1..] == a[1..] + b;
      calc {
        NonBlankLines(a + b);
        head + NonBlankLines(a[1..] + b);
        { NonBlankLinesAppend(a[1..], b); }
        head + (NonBlankLines(a[1..]) + NonBlankLines(b));
        { AppendAssociative(head, NonBlankLines(a[1..]), NonBlankLines(b)); }
        (head + NonBlankLines(a[1..])) + NonBlankLines(b);
        NonBlankLines(a) + NonBlankLines(b);
      }
    }
  }

  /** ... and one line is stripped, and kept exactly when it is not blank. */
  lemma NonBlankLinesSingle(x: string)
    ensures NonBlankLines([x]) == if Trim(x) == "" then [] else [Trim(x)]
  {
    assert [x][1..] == [];
  }

  lemma {:induction false} JoinEnds(parts: seq<string>, sep: string)
    requires |parts| > 0 && forall i :: 0 <= i < |parts| ==> parts[i] != ""
    ensures |Join(parts, sep)| > 0
    ensures Join(parts, sep)[0] == parts[0][0]
    ensures Join(parts, sep)[|Join(parts, sep)| - 1] == parts[|parts| - 1][|parts[|parts| - 1]| - 1]
    decreases |parts|
  {
    if |parts| > 1 {
      JoinEnds(parts[1..], sep);
    }
  }

  /** The text made of the lines, joined with line feeds, is already trimmed. */
  lemma JoinedTrimmed(ls: seq<string>)
    requires |ls| > 0 && forall i :: 0 <= i < |ls| ==> ls[i] != "" && IsTrimmed(ls[i])
    ensures Trim(Join(ls, "\n")) == Join(ls, "\n")
  {
    JoinEnds(ls, "\n");
    TrimTrimmed(Join(ls, "\n"));
  }

  /** An empty program has no lines. */
  lemma NoLines()
    ensures Lines("") == []
  {
    TrimTrimmed("");
    assert Split("", "\n") == [""];
  }

  /** Lines written one per line come back as they were: trimmed, non-blank
      lines without line feeds survive the preparation unchanged. */
  lemma LinesRoundTrip(ls: seq<string>)
    requires forall i :: 0 <= i < |ls| ==> ls[i] != "" && IsTrimmed(ls[i]) && '\n' !in ls[i]
    ensures Lines(Join(ls, "\n")) == ls
    ensures Run(Join(ls, "\n")) == RunLines(ls)
  {
    if ls == [] {
      NoLines();
    } else {
      JoinedTrimmed(ls);
      SplitJoin(ls, '\n');
      NonBlankKeeps(ls);
    }
  }

  // ---------------------------------------------------------------------
  // Errors of the declaration pass

  /** A run whose declaration pass fails reports the first offending line,
      the one line before the marker whose step stops the pass: as an
      invalid variable declaration when the line was taken for one, and as
      an invalid declaration otherwise. */
  lemma DeclarationError(lines: seq<string>)
    requires DeclPass(lines).Stop?
    ensures exists q: nat :: q < Boundary(lines) && DeclUpTo(Classified(lines), q).Next? &&
              DeclUpTo(Classified(lines), q + 1).Stop? &&
              RunLines(lines) == Failed(if IsVarDeclLine(lines[q]) then InvalidVariableDeclaration(lines[q])
                                        else InvalidDeclaration(lines[q]))
  {
    var decls := Classified(lines);
    DeclStopOrigin(decls, Boundary(lines));
    var q: nat :| q < Boundary(lines) && DeclUpTo(decls, q).Next? &&
                  DeclUpTo(decls, Boundary(lines)) == DeclStep(DeclUpTo(decls, q).st, decls[q]);
    DeclAdvance(decls, q);
    DeclarationErrorAt(lines, q);
  }

  /** Conversely, a line before the marker whose step stops the pass decides
      the run: the run fails with that line's declaration error. */
  lemma DeclarationErrorAt(lines: seq<string>, q: nat)
    requires q < Boundary(lines)
    requires DeclUpTo(Classified(lines), q).Next? && DeclUpTo(Classified(lines), q + 1).Stop?
    ensures RunLines(lines) == Failed(if IsVarDeclLine(lines[q]) then InvalidVariableDeclaration(lines[q])
                                      else InvalidDeclaration(lines[q]))
  {
    var decls := Classified(lines);
    DeclAdvance(decls, q);
    assert decls[q] == Classify(lines[q]);
    StopError(DeclUpTo(decls, q).st, lines[q]);
    DeclStopEndsPass(lines, decls, q + 1);
    RunFromPass(lines);
  }

  /** The error of a line that stops the pass names the line, as a variable
      declaration when it was taken for one. */
  lemma StopError(st: DeclState, line: string)
    requires DeclStep(st, Classify(line)).Stop?
    ensures DeclStep(st, Classify(line)).error ==
              if IsVarDeclLine(line) then InvalidVariableDeclaration(line) else InvalidDeclaration(line)
  {
  }

  /** Without a run marker the run fails: with the missing-marker message
      when every line is a valid declaration, and with a declaration error
      otherwise. */
  lemma MissingMarker(lines: seq<string>)
    requires forall i :: 0 <= i < |lines| ==> !IsRunMarker(lines[i])
    ensures RunLines(lines).Failed?
    ensures RunLines(lines) == Failed(MissingRunMarker) <==> DeclPass(lines).Next?
    ensures DeclPass(lines).Next? ==> RunLines(lines).ToString() == ErrorText(MissingRunMarker)
  {
    PassEnd(lines, |lines|);
    RunFromPass(lines);
    if DeclPass(lines).Stop? {
      DeclarationError(lines);
    }
  }

  /** A declaration error is reported even when the marker is missing too. */
  lemma DeclarationErrorBeforeMissingMarker()
    ensures RunLines(["hello"]) == Failed(InvalidDeclaration("hello"))
  {
    var lines := ["hello"];
    PassEnd(lines, 1);
    assert Classified(lines)[0] == Classify("hello") == OtherLine("hello");
    RunFromPass(lines);
  }

  // ---------------------------------------------------------------------
  // The lines the execution pass sees

  /** The execution pass runs the lines strictly between the marker and the
      last line. */
  lemma ExecutedWindow(lines: seq<string>, m: nat)
    requires m < |lines|
    ensures Executed(lines, m) == if m + 2 < |lines| then lines[m + 1..|lines| - 1] else []
  {
  }

  lemma {:induction false} DeclUpToPrefix(a: seq<DeclLine>, b: seq<DeclLine>, k: nat)
    requires k <= |a| && k <= |b| && a[..k] == b[..k]
    ensures DeclUpTo(a, k) == DeclUpTo(b, k)
    decreases k
  {
    if k > 0 {
      assert a[..k - 1] == a[..k][..k - 1] && b[..k - 1] == b[..k][..k - 1];
      assert a[k - 1] == a[..k][k - 1] && b[k - 1] == b[..k][k - 1];
      DeclUpToPrefix(a, b, k - 1);
    }
  }

  lemma ClassifiedPrefix(lines: seq<string>, x: string)
    ensures Classified(lines + [x])[..|lines|] == Classified(lines)
  {
    forall k | 0 <= k < |lines|
      ensures Classified(lines + [x])[k] == Classified(lines)[k]
    {
      assert (lines + [x])[k] == lines[k];
    }
  }

  /** Once the program has a marker, its last line is never looked at: any
      last line gives the same result. */
  lemma LastLineNeverChecked(lines: seq<string>, x: string, y: string)
    requires FirstMarker(lines).Some?
    ensures RunLines(lines + [x]) == RunLines(lines + [y])
  {
    var m := FirstMarker(lines).value;
    var lx, ly := lines + [x], lines + [y];
    assert forall j :: 0 <= j < |lines| ==> lx[j] == lines[j] && ly[j] == lines[j];
    PassEnd(lx, m);
    PassEnd(ly, m);
    ClassifiedPrefix(lines, x);
    ClassifiedPrefix(lines, y);
    assert Classified(lx)[..m] == Classified(lines)[..m] == Classified(ly)[..m];
    DeclUpToPrefix(Classified(lx), Classified(ly), m);
    assert Executed(lx, m) == lines[m + 1..] == Executed(ly, m);
    RunFromPass(lx);
    RunFromPass(ly);
  }

  /** A marker on the last or second-to-last line leaves nothing to execute:
      the run prints the empty string. */
  lemma MarkerNearEnd(lines: seq<string>)
    requires FirstMarker(lines).Some? && FirstMarker(lines).value + 2 >= |lines|
    requires DeclPass(lines).Next?
    ensures RunLines(lines) == Printed([])
    ensures RunLines(lines).ToString() == ""
  {
    RunFromPass(lines);
    assert Executed(lines, FirstMarker(lines).value) == [];
    assert ExecSteps([], DeclPass(lines).st.variables, DeclPass(lines).st.functions) == [];
  }

  // ---------------------------------------------------------------------
  // Complete programs

  /** How each canonical statement is classified by the declaration pass;
      none of them is the run marker. */
  lemma ClassifyPrint(text: string)
    ensures Classify(FormatPrint(text)) == OtherLine(FormatPrint(text))
    ensures !IsRunMarker(FormatPrint(text))
  {
    var line := FormatPrint(text);
    assert StartsWith(line, PrintPrefix);
    DistinctKeywords(line, VarPrefix, PrintPrefix, 0);
    DistinctKeywords(line, FnOpenPrefix, PrintPrefix, 0);
    DistinctKeywords(line, RunMarker, PrintPrefix, 0);
  }

  lemma ClassifyFnOpen(name: string)
    requires IsTrimmed(name)
    ensures Classify(FormatFnOpen(name)) == OpenLine(name)
    ensures !IsRunMarker(FormatFnOpen(name))
  {
    var line := FormatFnOpen(name);
    FnOpenRoundTrip(name);
    DistinctKeywords(line, VarPrefix, FnOpenPrefix, 4);
    DistinctKeywords(line, RunMarker, FnOpenPrefix, 0);
  }

  lemma ClassifyVarDecl(name: string, value: string)
    requires IsTrimmed(name) && IsTrimmed(value) && ':' !in name && ':' !in value
    ensures Classify(FormatVarDecl(name, value)) ==
            VarLine(FormatVarDecl(name, value), Some(VarDecl(name, value)))
    ensures !IsRunMarker(FormatVarDecl(name, value))
  {
    VarDeclRoundTrip(name, value);
    VarDeclNotMarker(FormatVarDecl(name, value));
  }

  /** A block of one statement does what that statement does. */
  lemma ExecSingle(stmt: string, variables: map<string, string>,
                   functions: map<string, seq<string>>)
    ensures Exec([stmt], variables, functions) == ExecLine(stmt, variables, functions)
  {
    assert ExecSteps([stmt], variables, functions) == [ExecLine(stmt, variables, functions)];
    SequenceSingle(ExecLine(stmt, variables, functions));
  }

  lemma SequenceSingle(o: Outcome)
    ensures Sequence([o]) == o
  {
    assert [o][..0] == [];
    if o.Printed? {
      assert [] + o.output == o.output;
    }
  }

  /** The marker, a print statement and a closing line print the text. */
  lemma PrintProgram(text: string, last: string)
    requires IsTrimmed(text)
    ensures RunLines([RunMarker, FormatPrint(text), last]) == Printed([text])
  {
    var lines := [RunMarker, FormatPrint(text), last];
    PassEnd(lines, 0);
    RunFromPass(lines);
    assert Executed(lines, 0) == [FormatPrint(text)];
    ExecSingle(FormatPrint(text), map[], map[]);
    PrintStatement(text, map[], map[]);
  }

  /** The same program as source text, one statement per line. */
  lemma PrintProgramText(text: string)
    requires IsTrimmed(text) && '\n' !in text
    ensures Run(Join([RunMarker, FormatPrint(text), FnClose], "\n")) == Printed([text])
  {
    var ls := [RunMarker, FormatPrint(text), FnClose];
    StatementLine(PrintPrefix, text);
    assert '\n' !in RunMarker && '\n' !in FnClose;
    assert IsTrimmed(RunMarker) && IsTrimmed(FnClose);
    LinesRoundTrip(ls);
    PrintProgram(text, FnClose);
  }

  /** A canonical statement is a trimmed, non-empty line without a line feed
      when its payload has none. */
  lemma StatementLine(prefix: string, payload: string)
    requires |prefix| > 0 && !IsWhitespace(prefix[0]) && '\n' !in prefix && '\n' !in payload
    ensures var line := prefix + payload + Delim; line != "" && IsTrimmed(line) && '\n' !in line
  {
    var line := prefix + payload + Delim;
    assert line[0] == prefix[0] && line[|line| - 1] == '^';
    assert '\n' !in Delim;
  }

  /** A variable declared before the marker and printed after it prints its
      value. */
  lemma DeclareThenPrint(name: string, value: string, last: string)
    requires IsTrimmed(name) && IsTrimmed(value) && ':' !in name && ':' !in value
    ensures RunLines([FormatVarDecl(name, value), RunMarker, FormatPrint(name), last]) == Printed([value])
  {
    var lines := [FormatVarDecl(name, value), RunMarker, FormatPrint(name), last];
    var vars := map[name := value];
    DeclarationPassOne(lines, name, value);
    RunFromPass(lines);
    assert Executed(lines, 1) == [FormatPrint(name)];
    ExecSingle(FormatPrint(name), vars, map[]);
    PrintStatement(name, vars, map[]);
  }

  /** One declaration followed by the marker declares exactly that variable. */
  lemma DeclarationPassOne(lines: seq<string>, name: string, value: string)
    requires IsTrimmed(name) && IsTrimmed(value) && ':' !in name && ':' !in value
    requires |lines| >= 2 && lines[0] == FormatVarDecl(name, value) && lines[1] == RunMarker
    ensures FirstMarker(lines) == Some(1)
    ensures DeclPass(lines) == Next(Initial.(variables := map[name := value]))
  {
    assert IsRunMarker(RunMarker);
    ClassifyVarDecl(name, value);
    MarkerSecond(lines);
    var decls := Classified(lines);
    assert decls[0] == Classify(lines[0]);
    assert DeclUpTo(decls, 1) == Next(Initial.(variables := map[name := value]));
  }

  /** A function defined before the marker and invoked after it runs its
      body. */
  lemma DefineThenCall(fname: string, text: string, last: string)
    requires IsTrimmed(fname) && fname != "" && IsTrimmed(text)
    ensures RunLines([FormatFnOpen(fname), FormatPrint(text), FnClose, RunMarker, FormatInvoke(fname), last])
            == Printed([text])
  {
    var lines := [FormatFnOpen(fname), FormatPrint(text), FnClose, RunMarker, FormatInvoke(fname), last];
    var body := [FormatPrint(text)];
    var funcs := map[fname := body];
    DefinitionPass(lines, fname, text);
    RunFromPass(lines);
    assert Executed(lines, 3) == [FormatInvoke(fname)];
    ExecSingle(FormatInvoke(fname), map[], funcs);
    InvokeStatement(fname, map[], funcs);
    PrintRoundTrip(text);
    CallAllPrints(fname, body, map[]);
  }

  /** The declaration steps of a one-line function definition. */
  lemma DefinitionFold(decls: seq<DeclLine>, fname: string, stmt: string)
    requires fname != "" && |decls| >= 3
    requires decls[0] == OpenLine(fname) && decls[1] == OtherLine(stmt) && decls[2] == OtherLine(FnClose)
    requires stmt != FnClose
    ensures DeclUpTo(decls, 3) == Next(Initial.(functions := map[fname := [stmt]], body := [stmt]))
  {
    assert DeclUpTo(decls, 1) == Next(Initial.(openName := fname, body := []));
    assert DeclUpTo(decls, 2) == Next(Initial.(openName := fname, body := [stmt]));
  }

  lemma MarkerSecond(lines: seq<string>)
    requires |lines| >= 2 && !IsRunMarker(lines[0]) && IsRunMarker(lines[1])
    ensures FirstMarker(lines) == Some(1) && Boundary(lines) == 1
  {
    PassEnd(lines, 1);
  }

  lemma MarkerFourth(lines: seq<string>)
    requires |lines| >= 4 && IsRunMarker(lines[3])
    requires !IsRunMarker(lines[0]) && !IsRunMarker(lines[1]) && !IsRunMarker(lines[2])
    ensures FirstMarker(lines) == Some(3) && Boundary(lines) == 3
  {
    PassEnd(lines, 3);
  }

  lemma DefinitionPass(lines: seq<string>, fname: string, text: string)
    requires IsTrimmed(fname) && fname != "" && |lines| >= 4
    requires lines[0] == FormatFnOpen(fname) && lines[1] == FormatPrint(text)
    requires lines[2] == FnClose && lines[3] == RunMarker
    ensures FirstMarker(lines) == Some(3)
    ensures DeclPass(lines) == Next(Initial.(functions := map[fname := [FormatPrint(text)]],
                                            body := [FormatPrint(text)]))
  {
    assert !IsRunMarker(FnClose) && IsRunMarker(RunMarker);
    ClassifyFnOpen(fname);
    ClassifyPrint(text);
    MarkerFourth(lines);
    var decls := Classified(lines);
    ClassifyClose();
    assert decls[0] == Classify(lines[0]) && decls[1] == Classify(lines[1]) && decls[2] == Classify(lines[2]);
    DefinitionFold(decls, fname, FormatPrint(text));
  }

  /** Invoking a function nobody defined fails, naming the function. */
  lemma CallUndefined(fname: string, last: string)
    requires IsTrimmed(fname)
    ensures RunLines([RunMarker, FormatInvoke(fname), last]) == Failed(FunctionNotFound(fname))
  {
    var lines := [RunMarker, FormatInvoke(fname), last];
    PassEnd(lines, 0);
    RunFromPass(lines);
    assert Executed(lines, 0) == [FormatInvoke(fname)];
    ExecSingle(FormatInvoke(fname), map[], map[]);
    InvokeStatement(fname, map[], map[]);
  }
}
