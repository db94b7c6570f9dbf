/**
 * The per-linter quick-fix handlers (`doSuggestFix` of each `ProblemHandler`).
 *
 * The tree search `chainFindAndHandle` is not part of this model: a handler
 * that uses it receives its result as `found`, the node of the kind the
 * handler asks for nearest to the issue's position, or `None` when the search
 * failed, in which case the handler yields `NonAvailable`. Likewise `calcPos`
 * is an input offset of NlReturn.
 */
module Handlers {
  import opened Wrappers
  import opened Lint
  import opened Psi
  import opened QuickFix
  import Messages

  /** DefaultHandler: a linter without a handler never gets a fix. */
  function Default(file: PsiFile, doc: Document, issue: Issue, overrideLine: int): (r: Outcome)
    ensures r == NonAvailable
  {
    NonAvailable
  }

  /**
   * IneffAssignHandler: rename the reference to `_`, but only when the found
   * reference is the variable the message names; the search may have landed
   * on a neighbouring occurrence.
   */
  function IneffAssign(issue: Issue, found: Option<Node>): (r: Outcome)
    requires found.Some? ==> found.value.kind.ReferenceExpression?
    ensures r.Fixes? <==> found.Some? && found.value.text == Messages.QuotedName(issue.text)
    ensures r.Fixes? ==>
      r.fixes == [RenameToBlank(found.value)] && r.range == Some(found.value.kind.identifier.range)
    ensures !r.Fixes? ==> r == NonAvailable
  {
    match found
    case None => NonAvailable
    case Some(element) =>
      var variable := Messages.QuotedName(issue.text);
      if element.text == variable then
        Fixes([RenameToBlank(element)], Some(element.kind.identifier.range))
      else NonAvailable
  }

  /** IneffAssign on a message ending in `` `x` ``: a fix exactly when the found reference reads `x`. */
  lemma {:induction false} IneffAssignQuoted(prefix: string, x: string, issue: Issue, element: Node)
    requires x != [] && ' ' !in x && x[0] != '`' && x[|x| - 1] != '`'
    requires issue.text == prefix + " `" + x + "`"
    requires element.kind.ReferenceExpression?
    ensures element.text == x ==>
      IneffAssign(issue, Some(element)) == Fixes([RenameToBlank(element)], Some(element.kind.identifier.range))
    ensures element.text != x ==> IneffAssign(issue, Some(element)) == NonAvailable
  {
    Messages.QuotedNameOfQuoted(prefix, x);
  }

  /** InterfacerHandler: replace the parameter's type by the one the message names; highlight the type. */
  function Interfacer(issue: Issue, found: Option<Node>): (r: Outcome)
    requires found.Some? ==> found.value.kind.ParameterDeclaration?
    ensures found.None? <==> r == NonAvailable
    ensures found.Some? ==> r == Fixes(
      [ReplaceParameterType(Messages.QuotedName(issue.text), found.value)],
      Some(found.value.kind.typeSignature.range))
  {
    match found
    case None => NonAvailable
    case Some(element) =>
      Fixes([ReplaceParameterType(Messages.QuotedName(issue.text), element)], Some(element.kind.typeSignature.range))
  }

  /** Interfacer on a message ending in `` `T` `` proposes the type `T`. */
  lemma {:induction false} InterfacerQuoted(prefix: string, t: string, issue: Issue, element: Node)
    requires t != [] && ' ' !in t && t[0] != '`' && t[|t| - 1] != '`'
    requires issue.text == prefix + " `" + t + "`"
    requires element.kind.ParameterDeclaration?
    ensures Interfacer(issue, Some(element)).fixes == [ReplaceParameterType(t, element)]
  {
    Messages.QuotedNameOfQuoted(prefix, t);
  }

  // ---------------------------------------------------------------------
  // WhitespaceHandler

  predicate AllNewlines(s: string)
  {
    forall i :: 0 <= i < |s| ==> s[i] == '\n'
  }

  /**
   * A live line from which the whitespace fix removes something: it is empty
   * (its start offset is its end offset) and the element there is whitespace
   * made of line feeds only.
   */
  predicate IsBlankLine(file: PsiFile, doc: Document, line: int)
    requires ValidLine(doc, line)
  {
    && LineStartOffset(doc, line) == LineEndOffset(doc, line)
    && var e := FindElementAt(file, LineStartOffset(doc, line));
    && e.Some? && e.value.kind.WhiteSpace? && AllNewlines(e.value.text)
  }

  /** The element at the start of a blank line. */
  function BlankLineElement(file: PsiFile, doc: Document, line: int): (n: Node)
    requires ValidLine(doc, line) && IsBlankLine(file, doc, line)
    ensures n.kind.WhiteSpace? && AllNewlines(n.text)
  {
    FindElementAt(file, LineStartOffset(doc, line)).value
  }

  /**
   * What the loop of WhitespaceHandler has collected once it has visited the
   * reported lines `hi` down to `lo`, each moved by `shift`: the elements
   * of the blank ones, highest line first.
   */
  function CollectWhitespace(file: PsiFile, doc: Document, lo: int, hi: int, shift: int): (r: seq<Node>)
    requires lo <= hi ==> ValidLine(doc, lo + shift) && ValidLine(doc, hi + shift)
    ensures |r| <= if lo <= hi then hi - lo + 1 else 0
    ensures forall i :: 0 <= i < |r| ==> r[i].kind.WhiteSpace? && AllNewlines(r[i].text)
    decreases hi - lo + 1
  {
    if lo > hi then []
    else
      CollectWhitespace(file, doc, lo + 1, hi, shift)
      + if IsBlankLine(file, doc, lo + shift) then [BlankLineElement(file, doc, lo + shift)] else []
  }

  /** The live lines, highest first, that the scan of `[lo, hi]` moved by `shift` takes an element from. */
  function BlankLines(file: PsiFile, doc: Document, lo: int, hi: int, shift: int): seq<int>
    requires lo <= hi ==> ValidLine(doc, lo + shift) && ValidLine(doc, hi + shift)
    decreases hi - lo + 1
  {
    if lo > hi then []
    else
      BlankLines(file, doc, lo + 1, hi, shift)
      + if IsBlankLine(file, doc, lo + shift) then [lo + shift] else []
  }

  /**
   * The lines the scan takes from are exactly the blank live lines among
   * `lo + shift .. hi + shift`, in strictly descending order.
   */
  lemma {:induction false} BlankLinesExactly(file: PsiFile, doc: Document, lo: int, hi: int, shift: int)
    requires lo <= hi ==> ValidLine(doc, lo + shift) && ValidLine(doc, hi + shift)
    ensures var b := BlankLines(file, doc, lo, hi, shift);
      forall i, j :: 0 <= i < j < |b| ==> b[i] > b[j]
    ensures var b := BlankLines(file, doc, lo, hi, shift);
      forall ln :: ln in b <==> lo + shift <= ln <= hi + shift && IsBlankLine(file, doc, ln)
    decreases hi - lo + 1
  {
    if lo <= hi {
      BlankLinesExactly(file, doc, lo + 1, hi, shift);
      var rest := BlankLines(file, doc, lo + 1, hi, shift);
      assert forall ln :: ln in rest ==> ln > lo + shift;
      var b := BlankLines(file, doc, lo, hi, shift);
      assert forall k :: 0 <= k < |rest| ==> b[k] == rest[k];
      forall i, j | 0 <= i < j < |b| ensures b[i] > b[j] {
        if j == |rest| {
          assert b[i] == rest[i] && rest[i] in rest;
        }
      }
    }
  }

  /** The collected elements are those at the start of the blank lines, in the same order. */
  lemma {:induction false} CollectWhitespaceIsBlankLineElements(file: PsiFile, doc: Document, lo: int, hi: int, shift: int)
    requires lo <= hi ==> ValidLine(doc, lo + shift) && ValidLine(doc, hi + shift)
    ensures var c := CollectWhitespace(file, doc, lo, hi, shift);
      var b := BlankLines(file, doc, lo, hi, shift);
      && |c| == |b|
      && forall i :: 0 <= i < |c| ==>
           ValidLine(doc, b[i]) && IsBlankLine(file, doc, b[i]) && c[i] == BlankLineElement(file, doc, b[i])
    decreases hi - lo + 1
  {
    if lo <= hi {
      CollectWhitespaceIsBlankLineElements(file, doc, lo + 1, hi, shift);
      BlankLinesExactly(file, doc, lo + 1, hi, shift);
    }
  }

  /**
   * Only the live lines matter: moving the reported range by `d` and the
   * drift by `-d` collects the same elements.
   */
  lemma {:induction false} CollectWhitespaceDrift(file: PsiFile, doc: Document, lo: int, hi: int, shift: int, d: int)
    requires lo <= hi ==> ValidLine(doc, lo + shift) && ValidLine(doc, hi + shift)
    ensures CollectWhitespace(file, doc, lo + d, hi + d, shift - d) == CollectWhitespace(file, doc, lo, hi, shift)
    decreases hi - lo + 1
  {
    if lo <= hi {
      CollectWhitespaceDrift(file, doc, lo + 1, hi, shift, d);
    }
  }

  /** What WhitespaceHandler returns, given the elements its loop collected. */
  function WhitespaceOutcome(doc: Document, range: LineRange, shift: int, elements: seq<Node>): (r: Outcome)
    requires ValidLine(doc, range.from + shift) && ValidLine(doc, range.to + shift)
    ensures !r.RangeOnly?
    ensures r == NonAvailable <==> elements == []
    ensures r.Fixes? ==>
      && r.fixes == [DeleteElements(elements, "Remove whitespace")]
      && r.range == Some(TextRange(doc.lines[range.from + shift].start, doc.lines[range.to + shift].end))
  {
    if elements != [] then
      Fixes([DeleteElements(elements, "Remove whitespace")],
            Some(TextRange(LineStartOffset(doc, range.from + shift), LineEndOffset(doc, range.to + shift))))
    else NonAvailable
  }

  /**
   * WhitespaceHandler: delete the blank lines the linter reports. The line
   * range must be present (the source asserts it) and its moved ends must be
   * lines of the document. When nothing removable is found the result is
   * `NonAvailable`, although a range was reported.
   */
  method Whitespace(file: PsiFile, doc: Document, issue: Issue, overrideLine: int) returns (r: Outcome)
    requires issue.lineRange.Some?
    requires ValidLine(doc, issue.lineRange.value.from + Shift(issue, overrideLine))
    requires ValidLine(doc, issue.lineRange.value.to + Shift(issue, overrideLine))
    ensures var range := issue.lineRange.value;
      var shift := Shift(issue, overrideLine);
      r == WhitespaceOutcome(doc, range, shift, CollectWhitespace(file, doc, range.from, range.to, shift))
  {
    var range := issue.lineRange.value;
    var elements: seq<Node> := [];
    var shift := overrideLine - issue.pos.line;
    var l := range.to;
    while l >= range.from
      invariant if range.from <= range.to then range.from - 1 <= l <= range.to else l == range.to
      invariant elements == CollectWhitespace(file, doc, l + 1, range.to, shift)
      decreases l - range.from + 1
    {
      var line := l + shift;
      var s := LineStartOffset(doc, line);
      var e := LineEndOffset(doc, line);
      if s == e {
        var element := FindElementAt(file, s);
        if element.Some? && element.value.kind.WhiteSpace? && AllNewlines(element.value.text) {
          elements := elements + [element.value];
        }
      }
      l := l - 1;
    }
    if range.to < range.from {
      assert elements == [] == CollectWhitespace(file, doc, range.from, range.to, shift);
    }

    var start := LineStartOffset(doc, range.from + shift);
    var end := LineEndOffset(doc, range.to + shift);
    if elements != [] {
      return Fixes([DeleteElements(elements, "Remove whitespace")], Some(TextRange(start, end)));
    }
    return NonAvailable;
  }

  /**
   * What the whitespace result means: a single deletion of exactly the
   * elements of the blank live lines, highest line first, with the range
   * from the start of the first reported line to the end of the last one;
   * `NonAvailable` exactly when no reported line is blank.
   */
  lemma {:induction false} WhitespaceOutcomeMeaning(file: PsiFile, doc: Document, range: LineRange, shift: int)
    requires ValidLine(doc, range.from + shift) && ValidLine(doc, range.to + shift)
    ensures var r := WhitespaceOutcome(doc, range, shift, CollectWhitespace(file, doc, range.from, range.to, shift));
      && (r == NonAvailable <==>
            forall ln :: range.from + shift <= ln <= range.to + shift ==> !IsBlankLine(file, doc, ln))
      && (r.Fixes? ==>
            && |r.fixes| == 1
            && r.fixes[0].DeleteElements?
            && r.fixes[0].elements == CollectWhitespace(file, doc, range.from, range.to, shift)
            && r.range == Some(TextRange(doc.lines[range.from + shift].start, doc.lines[range.to + shift].end)))
  {
    NothingCollectedIffNoBlankLine(file, doc, range.from, range.to, shift);
  }

  /** The scan collects nothing exactly when none of the moved lines is blank. */
  lemma NothingCollectedIffNoBlankLine(file: PsiFile, doc: Document, lo: int, hi: int, shift: int)
    requires lo <= hi ==> ValidLine(doc, lo + shift) && ValidLine(doc, hi + shift)
    ensures CollectWhitespace(file, doc, lo, hi, shift) == [] <==>
      forall ln :: lo + shift <= ln <= hi + shift ==> !IsBlankLine(file, doc, ln)
  {
    var c := CollectWhitespace(file, doc, lo, hi, shift);
    var b := BlankLines(file, doc, lo, hi, shift);
    CollectWhitespaceIsBlankLineElements(file, doc, lo, hi, shift);
    BlankLinesExactly(file, doc, lo, hi, shift);
    if c == [] {
      forall ln | lo + shift <= ln <= hi + shift
        ensures !IsBlankLine(file, doc, ln)
      {
        assert ln !in b;
      }
    } else {
      assert b[0] in b;
    }
  }

  /**
   * Two blank lines between `a` and `b` that the PSI holds as two line-feed
   * elements: the fix deletes both, the lower line's element last, and
   * highlights from the start of the first to the end of the second.
   */
  lemma TwoBlankLines(n1: Node, n2: Node, issue: Issue)
    requires n1.kind.WhiteSpace? && n1.text == "\n" && n2.kind.WhiteSpace? && n2.text == "\n"
    requires issue.lineRange == Some(LineRange(1, 2)) && issue.pos.line == 1
    ensures var doc := Document([Line(0, 1), Line(2, 2), Line(3, 3), Line(4, 5)]);
      var file := PsiFile(map[2 := n1, 3 := n2]);
      var shift := Shift(issue, 1);
      WhitespaceOutcome(doc, issue.lineRange.value, shift, CollectWhitespace(file, doc, 1, 2, shift))
        == Fixes([DeleteElements([n2, n1], "Remove whitespace")], Some(TextRange(2, 3)))
  {
    var doc := Document([Line(0, 1), Line(2, 2), Line(3, 3), Line(4, 5)]);
    var file := PsiFile(map[2 := n1, 3 := n2]);
    assert Shift(issue, 1) == 0;
    assert FindElementAt(file, 2) == Some(n1) && FindElementAt(file, 3) == Some(n2);
    assert AllNewlines(n1.text) && AllNewlines(n2.text);
    assert IsBlankLine(file, doc, 1) && IsBlankLine(file, doc, 2);
    assert CollectWhitespace(file, doc, 3, 2, 0) == [];
    assert CollectWhitespace(file, doc, 2, 2, 0) == [n2];
    assert CollectWhitespace(file, doc, 1, 2, 0) == [n2, n1];
  }

  /**
   * The usual PSI holds a run of blank lines as one whitespace element, which
   * `findElementAt` then returns for each of the lines: the element is
   * collected once per line, so the deletion lists it twice.
   */
  lemma OneElementForTwoBlankLines(n: Node, issue: Issue)
    requires n.kind.WhiteSpace? && n.text == "\n\n\n"
    requires issue.lineRange == Some(LineRange(1, 2)) && issue.pos.line == 1
    ensures var doc := Document([Line(0, 1), Line(2, 2), Line(3, 3), Line(4, 5)]);
      var file := PsiFile(map[2 := n, 3 := n]);
      var shift := Shift(issue, 1);
      WhitespaceOutcome(doc, issue.lineRange.value, shift, CollectWhitespace(file, doc, 1, 2, shift))
        == Fixes([DeleteElements([n, n], "Remove whitespace")], Some(TextRange(2, 3)))
  {
    var doc := Document([Line(0, 1), Line(2, 2), Line(3, 3), Line(4, 5)]);
    var file := PsiFile(map[2 := n, 3 := n]);
    assert Shift(issue, 1) == 0;
    assert FindElementAt(file, 2) == Some(n) && FindElementAt(file, 3) == Some(n);
    assert AllNewlines(n.text);
    assert IsBlankLine(file, doc, 1) && IsBlankLine(file, doc, 2);
    assert CollectWhitespace(file, doc, 3, 2, 0) == [];
    assert CollectWhitespace(file, doc, 2, 2, 0) == [n];
    assert CollectWhitespace(file, doc, 1, 2, 0) == [n, n];
  }

  // ---------------------------------------------------------------------

  /** GoConstHandler: introduce a constant for the string literal; highlight it. */
  function GoConst(found: Option<Node>): (r: Outcome)
    requires found.Some? ==> found.value.kind.StringLiteral?
    ensures found.None? <==> r == NonAvailable
    ensures found.Some? ==> r == Fixes([IntroduceConstStringLiteral(found.value.text)], Some(found.value.range))
  {
    match found
    case None => NonAvailable
    case Some(element) => Fixes([IntroduceConstStringLiteral(element.text)], Some(element.range))
  }

  /** GoDotHandler: fix the comment's final period; highlight the comment. */
  function GoDot(found: Option<Node>): (r: Outcome)
    requires found.Some? ==> found.value.kind.Comment?
    ensures found.None? <==> r == NonAvailable
    ensures found.Some? ==> r == Fixes([DotFix(found.value)], Some(found.value.range))
  {
    match found
    case None => NonAvailable
    case Some(element) => Fixes([DotFix(element)], Some(element.range))
  }

  /**
   * TestPackageHandler: rename the package to its name with `_test` appended;
   * highlight the package name, not the whole clause. The clause must have a
   * name (the source dereferences it with `!!`).
   */
  function TestPackage(found: Option<Node>): (r: Outcome)
    requires found.Some? ==> found.value.kind.PackageClause? && found.value.kind.packageName.Some?
    ensures found.None? <==> r == NonAvailable
    ensures found.Some? ==>
      var name := found.value.kind.packageName.value;
      r == Fixes([RenamePackage(found.value, Messages.TestPackageName(name.text))], Some(name.range))
  {
    match found
    case None => NonAvailable
    case Some(element) =>
      var name := element.kind.packageName.value;
      Fixes([RenamePackage(element, Messages.TestPackageName(name.text))], Some(name.range))
  }

  /**
   * GoPrintfFuncNameHandler: rename the function to its name with `f`
   * appended; highlight the name. The declaration must have a name.
   */
  function GoPrintfFuncName(found: Option<Node>): (r: Outcome)
    requires found.Some? ==> found.value.kind.FunctionOrMethodDeclaration? && found.value.kind.funcName.Some?
    ensures found.None? <==> r == NonAvailable
    ensures found.Some? ==>
      var name := found.value.kind.funcName.value;
      r == Fixes([RenameTo(found.value, Messages.PrintfFuncName(name.text))], Some(name.range))
  {
    match found
    case None => NonAvailable
    case Some(element) =>
      var name := element.kind.funcName.value;
      Fixes([RenameTo(element, Messages.PrintfFuncName(name.text))], Some(name.range))
  }

  /**
   * ExhaustiveHandler: add the missing case the message names, unless the
   * switch already ends in `default`; highlight the switch condition, which
   * may be absent. The source takes the last clause (so there must be one)
   * and reads the label with a `substring` that must not start past the end.
   */
  function Exhaustive(issue: Issue, found: Option<Node>): (r: Outcome)
    requires found.Some? ==> found.value.kind.ExprSwitchStatement? && |found.value.kind.caseClauses| > 0
    requires found.Some? && !found.value.kind.caseClauses[|found.value.kind.caseClauses| - 1].isDefault
      ==> Messages.CaseLabel(issue.text).Some?
    ensures found.None? <==> r == NonAvailable
    ensures found.Some? ==>
      var clauses := found.value.kind.caseClauses;
      && r.range == LeafRange(found.value.kind.condition)
      && (r.Fixes? <==> !clauses[|clauses| - 1].isDefault)
      && (r.Fixes? ==> r.fixes == [SwitchAddCase(Messages.CaseLabel(issue.text).value, found.value)])
      && (!r.Fixes? ==> r.RangeOnly?)
  {
    match found
    case None => NonAvailable
    case Some(element) =>
      var clauses := element.kind.caseClauses;
      var range := LeafRange(element.kind.condition);
      if !clauses[|clauses| - 1].isDefault then
        Fixes([SwitchAddCase(Messages.CaseLabel(issue.text).value, element)], range)
      else RangeOnly(range)
  }

  /**
   * Exhaustive only looks at whether the last clause is `default`: a switch
   * whose last clause is an ordinary `case` (for instance the one the fix
   * has just added) still gets a new case, while the same switch ending in
   * `default` gets only its range.
   */
  lemma ExhaustiveAfterInsert(prefix: string, caseLabel: string, issue: Issue, switch: Node, condition: Option<Leaf>,
                              clauses: seq<CaseClause>)
    requires ':' !in prefix && issue.text == prefix + ": " + caseLabel
    requires switch.kind == ExprSwitchStatement(clauses + [CaseClause(false)], condition)
    ensures Messages.CaseLabel(issue.text) == Some(caseLabel)
    ensures Exhaustive(issue, Some(switch)) == Fixes([SwitchAddCase(caseLabel, switch)], LeafRange(condition))
    ensures var ended := switch.(kind := ExprSwitchStatement(clauses + [CaseClause(true)], condition));
      Exhaustive(issue, Some(ended)) == RangeOnly(LeafRange(condition))
  {
    Messages.CaseLabelOf(prefix, caseLabel);
  }

  /**
   * NlReturnHandler: insert a blank line before the whitespace at the start
   * of the live line; there is nothing to do when that element is not
   * whitespace. The range is that of the element at `calcPos`, if any.
   */
  function NlReturn(file: PsiFile, doc: Document, overrideLine: int, calcPos: int): (r: Outcome)
    requires ValidLine(doc, overrideLine)
    ensures var e := FindElementAt(file, LineStartOffset(doc, overrideLine));
      && (r.Fixes? <==> e.Some? && e.value.kind.WhiteSpace?)
      && (r.Fixes? ==> r.fixes == [InsertNewLineBefore(e.value)] && r.range == NodeRange(FindElementAt(file, calcPos)))
      && (!r.Fixes? ==> r == NonAvailable)
  {
    var element := FindElementAt(file, LineStartOffset(doc, overrideLine));
    if element.Some? && element.value.kind.WhiteSpace? then
      Fixes([InsertNewLineBefore(element.value)], NodeRange(FindElementAt(file, calcPos)))
    else NonAvailable
  }

  // ---------------------------------------------------------------------
  // Handlers that only point to an explanation

  datatype Explained = Scopelint | GoErr113 | GoFumpt | ExportLoopRef | NoCtx

  /** Where the plugin keeps its own explanation pages. */
  const PluginExplanations := "https://github.com/xxpxxxxp/intellij-plugin-golangci-lint/blob/master/explanation/"

  /**
   * The explanation page each of these handlers opens: a Markdown page in
   * the plugin's explanation directory, except for noctx, whose page is the
   * linter's own README.
   */
  function ExplanationUrl(e: Explained): (url: string)
    ensures e != NoCtx <==> PluginExplanations < url
    ensures |url| > 3 && url[|url| - 3..] == ".md"
  {
    match e
    case Scopelint => PluginExplanations + "scopelint.md"
    case GoErr113 => PluginExplanations + "goerr113.md"
    case GoFumpt => PluginExplanations + "gofumpt.md"
    case ExportLoopRef => PluginExplanations + "exportloopref.md"
    case NoCtx => "https://github.com/sonatard/noctx/blob/master/README.md"
  }

  /**
   * ScopelintHandler, GoErr113Handler, GoFumptHandler, ExportLoopRefHandler
   * and NoCtxRefHandler: one fix that opens the explanation, and no range,
   * whatever the file, document, issue and line.
   */
  function Explanation(e: Explained, file: PsiFile, doc: Document, issue: Issue, overrideLine: int): (r: Outcome)
    ensures r.Fixes? && |r.fixes| == 1 && r.fixes[0].BringToExplanation? && r.range.None?
    ensures r.fixes[0].url == ExplanationUrl(e)
  {
    Fixes([BringToExplanation(ExplanationUrl(e))], None)
  }

  // ---------------------------------------------------------------------

  /**
   * DuplHandler: no fix; highlight the whole live line only, however many
   * lines the duplicate spans. The line range must be present.
   */
  function Dupl(doc: Document, issue: Issue, overrideLine: int): (r: Outcome)
    requires issue.lineRange.Some?
    requires ValidLine(doc, overrideLine)
    ensures r == RangeOnly(Some(TextRange(doc.lines[overrideLine].start, doc.lines[overrideLine].end)))
  {
    var start := LineStartOffset(doc, overrideLine);
    var end := LineEndOffset(doc, overrideLine);
    RangeOnly(Some(TextRange(start, end)))
  }

  // ---------------------------------------------------------------------
  // UnparamHandler

  /** The nearest of `n` and its ancestors that is a function or method declaration. */
  function EnclosingFunction(n: Option<Node>): (r: Option<Node>)
    ensures n.None? ==> r.None?
    ensures r.Some? ==> r.value.kind.FunctionOrMethodDeclaration? && r.value in AncestorsOrSelf(n.value)
    decreases n
  {
    match n
    case None => None
    case Some(x) => if x.kind.FunctionOrMethodDeclaration? then n else EnclosingFunction(x.parent)
  }

  /** None of the nodes is a function or method declaration. */
  predicate NoFunctionIn(a: seq<Node>)
  {
    forall i :: 0 <= i < |a| ==> !a[i].kind.FunctionOrMethodDeclaration?
  }

  /** The position of the first function or method declaration in `a`; `|a|` when there is none. */
  function FirstFunctionIndex(a: seq<Node>): (i: nat)
    ensures i <= |a| && NoFunctionIn(a[..i])
    ensures i < |a| ==> a[i].kind.FunctionOrMethodDeclaration?
  {
    if |a| == 0 || a[0].kind.FunctionOrMethodDeclaration? then 0
    else
      var j := FirstFunctionIndex(a[1..]);
      assert a[..j + 1] == [a[0]] + a[1..][..j];
      j + 1
  }

  /**
   * The walk up the parents yields the first function or method declaration
   * among the node and its ancestors, nearest first, and `None` when there
   * is none.
   */
  lemma {:induction false} EnclosingFunctionIsFirst(n: Node)
    ensures var a := AncestorsOrSelf(n);
      var i := FirstFunctionIndex(a);
      EnclosingFunction(Some(n)) == if i < |a| then Some(a[i]) else None
    decreases n
  {
    var a := AncestorsOrSelf(n);
    if !n.kind.FunctionOrMethodDeclaration? {
      match n.parent
      case None =>
        assert a == [n];
        assert a[1..] == [];
      case Some(p) =>
        EnclosingFunctionIsFirst(p);
        assert a[1..] == AncestorsOrSelf(p);
    }
  }

  /** The `while` loop of UnparamHandler that climbs from the parameter to its function. */
  method FindEnclosingFunction(element: Node) returns (r: Option<Node>)
    ensures r == EnclosingFunction(Some(element))
  {
    var psiElement: Option<Node> := Some(element);
    while psiElement.Some? && !psiElement.value.kind.FunctionOrMethodDeclaration?
      invariant EnclosingFunction(psiElement) == EnclosingFunction(Some(element))
      decreases psiElement
    {
      psiElement := psiElement.value.parent;
    }
    r := psiElement;
  }

  /**
   * UnparamHandler: suggest `//nolint:unparam` on the enclosing function when
   * there is one; highlight the parameter declaration either way.
   */
  method Unparam(issue: Issue, found: Option<Node>) returns (r: Outcome)
    requires found.Some? ==> found.value.kind.ParameterDeclaration?
    ensures found.None? <==> r == NonAvailable
    ensures found.Some? ==>
      && r.range == Some(found.value.range)
      && (r.Fixes? <==> EnclosingFunction(found).Some?)
      && (r.Fixes? ==> r.fixes == [NoLintFuncComment("unparam", EnclosingFunction(found).value)])
      && (!r.Fixes? ==> r.RangeOnly?)
  {
    if found.None? {
      return NonAvailable;
    }
    var element := found.value;
    var psiElement := FindEnclosingFunction(element);
    if psiElement.Some? && psiElement.value.kind.FunctionOrMethodDeclaration? {
      r := Fixes([NoLintFuncComment("unparam", psiElement.value)], Some(element.range));
    } else {
      r := RangeOnly(Some(element.range));
    }
    assert psiElement.Some? ==> psiElement.value.kind.FunctionOrMethodDeclaration? by {
      EnclosingFunctionIsFirst(element);
    }
  }

  // ---------------------------------------------------------------------

  /** GoMndHandler: no fix; highlight the magic number. */
  function GoMnd(found: Option<Node>): (r: Outcome)
    requires found.Some? ==> found.value.kind.Literal?
    ensures found.None? <==> r == NonAvailable
    ensures found.Some? ==> r == RangeOnly(Some(found.value.range))
  {
    match found
    case None => NonAvailable
    case Some(element) => RangeOnly(Some(element.range))
  }

  /**
   * funcNoLintHandler(linter): suggest `//nolint:<linter>` on the found
   * function, with no range.
   */
  function FuncNoLint(linter: string, found: Option<Node>): (r: Outcome)
    requires found.Some? ==> found.value.kind.FunctionOrMethodDeclaration?
    ensures found.None? <==> r == NonAvailable
    ensures found.Some? ==> r == Fixes([NoLintFuncComment(linter, found.value)], None)
  {
    match found
    case None => NonAvailable
    case Some(element) => Fixes([NoLintFuncComment(linter, element)], None)
  }
}
