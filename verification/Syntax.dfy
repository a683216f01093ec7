/**
 * The statement vocabulary of the CPS notation: the literal keywords that mark
 * each statement, the shape tests the interpreter applies to a trimmed line,
 * the extraction of a statement's payload, and the interpreter's error kinds.
 */
module CpsSyntax {
  import opened Text

  const RunMarker: string := "if!app.run ^^true^^::do"
  const VarPrefix: string := "app.add ^^"
  /** A line is taken for a variable declaration when it contains this ... */
  const VarMark: string := ":: value%"
  /** ... but it is split on this longer separator. */
  const VarSeparator: string := ":: value%^^"
  const FnOpenPrefix: string := "app.get::^^"
  const FnClose: string := "!"
  const PrintPrefix: string := "Console.line^^"
  const InvokePrefix: string := "app.getthe^^"
  const Delim: string := "^^"

  /** The run marker is recognised by prefix, not as an exact line. */
  predicate IsRunMarker(line: string) {
    StartsWith(line, RunMarker)
  }

  predicate IsVarDeclLine(line: string) {
    StartsWith(line, VarPrefix) && Contains(line, VarMark)
  }

  predicate IsFnOpen(line: string) {
    StartsWith(line, FnOpenPrefix) && EndsWith(line, Delim)
  }

  predicate IsPrint(line: string) {
    StartsWith(line, PrintPrefix) && EndsWith(line, Delim)
  }

  predicate IsInvoke(line: string) {
    StartsWith(line, InvokePrefix) && EndsWith(line, Delim)
  }

  /** `line[len(prefix):-2].strip()`: the text between a statement's keyword
      and its closing `^^`. The slice does not check what it drops. */
  function Payload(line: string, prefix: string): string {
    Trim(Slice(line, |prefix|, -2))
  }

  function FnOpenName(line: string): string {
    Payload(line, FnOpenPrefix)
  }

  function PrintText(line: string): string {
    Payload(line, PrintPrefix)
  }

  function InvokeName(line: string): string {
    Payload(line, InvokePrefix)
  }

  datatype VarDecl = VarDecl(name: string, value: string)

  /** The parse of a line already taken for a variable declaration: split on
      the separator, require exactly two pieces, the first starting with the
      keyword and the second ending in `^^`. The name drops the last two
      characters of the first piece whatever they are. */
  function ParseVarDecl(line: string): Option<VarDecl> {
    var parts := Split(line, VarSeparator);
    if |parts| != 2 || !StartsWith(parts[0], VarPrefix) || !EndsWith(parts[1], Delim) then None
    else Some(VarDecl(Trim(Slice(parts[0], |VarPrefix|, -2)), Trim(Slice(parts[1], 0, -2))))
  }

  /** The canonical spelling of each statement. */
  function FormatVarDecl(name: string, value: string): string {
    VarPrefix + name + Delim + VarSeparator + value + Delim
  }

  function FormatFnOpen(name: string): string {
    FnOpenPrefix + name + Delim
  }

  function FormatPrint(text: string): string {
    PrintPrefix + text + Delim
  }

  function FormatInvoke(name: string): string {
    InvokePrefix + name + Delim
  }

  datatype SyntaxError =
    | InvalidVariableDeclaration(line: string)
    | InvalidDeclaration(line: string)
    | MissingRunMarker
    | InvalidStatement(line: string)
    | InvalidFunctionStatement(line: string, fnName: string)
    | FunctionNotFound(fnName: string)
  {
    function Message(): string {
      match this
      case InvalidVariableDeclaration(line) => "Invalid variable declaration '" + line + "'"
      case InvalidDeclaration(line) => "Invalid declaration '" + line + "'"
      case MissingRunMarker => "Expected '" + RunMarker + "' before execution."
      case InvalidStatement(line) => "Invalid statement '" + line + "'"
      case InvalidFunctionStatement(line, fnName) =>
        "Invalid statement '" + line + "' in function '" + fnName + "'"
      case FunctionNotFound(fnName) => "Function '" + fnName + "' not found."
    }
  }

  const ErrorPrefix: string := "Syntax Error"

  /** The text returned to the caller for an error. */
  function ErrorText(e: SyntaxError): (r: string)
    ensures StartsWith(r, ErrorPrefix)
  {
    ErrorPrefix + ": " + e.Message()
  }

  // ---------------------------------------------------------------------
  // Payload extraction

  /** A statement with keyword `prefix` and closing `^^` is exactly the keyword,
      the sliced payload and `^^`, unless the keyword and the closing `^^`
      overlap, in which case the payload is empty. */
  lemma PayloadShape(line: string, prefix: string)
    requires StartsWith(line, prefix) && EndsWith(line, Delim)
    ensures |prefix| + 2 <= |line| ==> line == prefix + Slice(line, |prefix|, -2) + Delim
    ensures |line| < |prefix| + 2 ==> Payload(line, prefix) == ""
  {
    SliceDropsEnds(line, |prefix|);
    if |prefix| + 2 <= |line| {
      assert line == line[..|prefix|] + line[|prefix|..|line| - 2] + line[|line| - 2..];
    } else {
      TrimUnique([], [], []);
    }
  }

  /** Extracting the payload of a canonically spelled statement gives back the
      trimmed text it was built from. */
  lemma PayloadRoundTrip(prefix: string, text: string)
    requires IsTrimmed(text)
    ensures StartsWith(prefix + text + Delim, prefix) && EndsWith(prefix + text + Delim, Delim)
    ensures Payload(prefix + text + Delim, prefix) == text
  {
    var line := prefix + text + Delim;
    assert line[..|prefix|] == prefix;
    assert line[|line| - 2..] == Delim;
    SliceDropsEnds(line, |prefix|);
    assert line[|prefix|..|line| - 2] == text;
    TrimUnique([], text, []);
    assert [] + text + [] == text;
  }

  lemma PrintRoundTrip(text: string)
    requires IsTrimmed(text)
    ensures IsPrint(FormatPrint(text)) && PrintText(FormatPrint(text)) == text
  {
    PayloadRoundTrip(PrintPrefix, text);
  }

  lemma InvokeRoundTrip(name: string)
    requires IsTrimmed(name)
    ensures IsInvoke(FormatInvoke(name)) && InvokeName(FormatInvoke(name)) == name
  {
    PayloadRoundTrip(InvokePrefix, name);
  }

  lemma FnOpenRoundTrip(name: string)
    requires IsTrimmed(name)
    ensures IsFnOpen(FormatFnOpen(name)) && FnOpenName(FormatFnOpen(name)) == name
  {
    PayloadRoundTrip(FnOpenPrefix, name);
  }

  /** The bare keyword `Console.line^^` is itself a print statement, because
      the keyword ends in `^^`; its text is empty. */
  lemma BarePrintKeyword()
    ensures IsPrint(PrintPrefix) && PrintText(PrintPrefix) == ""
  {
    assert PrintPrefix[|PrintPrefix| - 2..] == Delim;
    PayloadShape(PrintPrefix, PrintPrefix);
  }

  /** Likewise `app.get::^^` alone opens a function with an empty name. */
  lemma BareFnOpenKeyword()
    ensures IsFnOpen(FnOpenPrefix) && FnOpenName(FnOpenPrefix) == ""
  {
    assert FnOpenPrefix[|FnOpenPrefix| - 2..] == Delim;
    PayloadShape(FnOpenPrefix, FnOpenPrefix);
  }

  // ---------------------------------------------------------------------
  // Variable declarations

  /** No occurrence of a pattern that starts with a colon begins in a colon-free
      prefix of a string. */
  lemma NoColonNoOccurrence(s: string, pat: string, n: nat)
    requires pat != [] && pat[0] == ':' && n <= |s| && ':' !in s[..n]
    ensures forall j :: j < n ==> !Occurs(s, pat, j)
  {
    forall j | j < n && Occurs(s, pat, j) ensures false {
    }
  }

  /** The first occurrence found by `FindFrom` is the first occurrence. */
  lemma FindFirstAt(s: string, pat: string, k: nat)
    requires Occurs(s, pat, k) && forall j :: j < k ==> !Occurs(s, pat, j)
    ensures FindFrom(s, pat, 0) == Some(k)
  {
  }

  /** Splitting `head + separator + tail` where neither side has a colon yields
      exactly those two pieces. */
  lemma SplitAtSeparator(head: string, tail: string)
    requires ':' !in head && ':' !in tail
    ensures Split(head + VarSeparator + tail, VarSeparator) == [head, tail]
  {
    var line := head + VarSeparator + tail;
    var k := |head|;
    assert line[..k] == head;
    assert line[k..k + |VarSeparator|] == VarSeparator;
    NoColonNoOccurrence(line, VarSeparator, k);
    FindFirstAt(line, VarSeparator, k);
    assert line[k + |VarSeparator|..] == tail;
    assert tail[..|tail|] == tail;
    NoColonNoOccurrence(tail, VarSeparator, |tail|);
    assert FindFrom(tail, VarSeparator, 0).None?;
  }

  /** The name is cut by position, not by delimiter: whatever two characters
      end the first piece are dropped, so `app.add ^^abcd:: value%^^v^^`
      declares `ab`. */
  lemma NameCutByPosition(name: string, cut: string, value: string)
    requires |cut| == 2
    requires IsTrimmed(name) && IsTrimmed(value)
    requires ':' !in name && ':' !in cut && ':' !in value
    ensures IsVarDeclLine(VarPrefix + name + cut + VarSeparator + value + Delim)
    ensures ParseVarDecl(VarPrefix + name + cut + VarSeparator + value + Delim) == Some(VarDecl(name, value))
  {
    var head := VarPrefix + name + cut;
    var tail := value + Delim;
    var line := head + VarSeparator + tail;
    assert VarPrefix + name + cut + VarSeparator + value + Delim == line;
    assert ':' !in head by {
      assert head == VarPrefix + (name + cut);
      assert forall c :: c in VarPrefix ==> c != ':';
    }
    SplitAtSeparator(head, tail);
    DeclLineShape(head, tail);
    HeadName(name, cut);
    ValueRoundTrip(value);
  }

  lemma DeclLineShape(head: string, tail: string)
    requires StartsWith(head, VarPrefix)
    ensures IsVarDeclLine(head + VarSeparator + tail)
  {
    var line := head + VarSeparator + tail;
    assert line[..|VarPrefix|] == head[..|VarPrefix|];
    assert line[|head|..|head| + |VarMark|] == VarMark;
    assert Occurs(line, VarMark, |head|);
  }

  lemma HeadName(name: string, cut: string)
    requires |cut| == 2 && IsTrimmed(name)
    ensures StartsWith(VarPrefix + name + cut, VarPrefix)
    ensures Trim(Slice(VarPrefix + name + cut, |VarPrefix|, -2)) == name
  {
    var head := VarPrefix + name + cut;
    assert head[..|VarPrefix|] == VarPrefix;
    SliceBetween(VarPrefix, name, cut);
    TrimTrimmed(name);
  }

  /** A canonically spelled declaration whose name and value are trimmed and
      free of colons parses back to that name and value. */
  lemma VarDeclRoundTrip(name: string, value: string)
    requires IsTrimmed(name) && IsTrimmed(value)
    requires ':' !in name && ':' !in value
    ensures IsVarDeclLine(FormatVarDecl(name, value))
    ensures ParseVarDecl(FormatVarDecl(name, value)) == Some(VarDecl(name, value))
  {
    NameCutByPosition(name, Delim, value);
  }

  lemma ValueRoundTrip(value: string)
    requires IsTrimmed(value)
    ensures EndsWith(value + Delim, Delim) && Trim(Slice(value + Delim, 0, -2)) == value
  {
    var tail := value + Delim;
    SliceDropsEnds(tail, 0);
    assert tail[0..|tail| - 2] == value;
    assert tail[|tail| - 2..] == Delim;
    TrimUnique([], value, []);
    assert [] + value + [] == value;
  }

  /** The first piece of the split always starts with the keyword, so the test
      `parts[0].startswith("app.add ^^")` never fails: the separator begins with
      a colon and the keyword has none. */
  lemma FirstPieceKeepsKeyword(line: string)
    requires StartsWith(line, VarPrefix)
    ensures StartsWith(Split(line, VarSeparator)[0], VarPrefix)
  {
    match FindFrom(line, VarSeparator, 0)
    case None =>
    case Some(k) =>
      assert line[..|VarPrefix|] == VarPrefix;
      NoColonNoOccurrence(line, VarSeparator, |VarPrefix|);
      assert line[..k][..|VarPrefix|] == line[..|VarPrefix|];
  }

  /** A line that contains `:: value%` but not `:: value%^^` is taken for a
      variable declaration and then rejected. */
  lemma MarkWithoutSeparatorRejected(line: string)
    requires !Contains(line, VarSeparator)
    ensures ParseVarDecl(line).None?
  {
  }
}
