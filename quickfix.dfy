/**
 * What a handler returns: the proposed quick-fixes as descriptions (applying
 * them is the editor's business) and the range to highlight.
 */
module QuickFix {
  import opened Wrappers
  import opened Psi

  /** One proposed edit, named after the quick-fix class that carries it out. */
  datatype Fix =
    | RenameToBlank(reference: Node)
    | ReplaceParameterType(typeName: string, parameter: Node)
    | DeleteElements(elements: seq<Node>, description: string)
    | IntroduceConstStringLiteral(literal: string)
    | DotFix(comment: Node)
    | RenamePackage(clause: Node, newName: string)
    | RenameTo(declaration: Node, newName: string)
    | SwitchAddCase(caseLabel: string, switchStatement: Node)
    | InsertNewLineBefore(whiteSpace: Node)
    | BringToExplanation(url: string)
    | NoLintFuncComment(linter: string, declaration: Node)

  /**
   * The three outcomes a handler can have:
   * `NonAvailable` (the plugin's `NonAvailableFix`: nothing resolved),
   * `RangeOnly` (`EmptyLocalQuickFix` with a range: resolved, nothing to do),
   * `Fixes` (an array of quick-fixes with an optional range).
   */
  datatype Outcome =
    | NonAvailable
    | RangeOnly(range: Option<TextRange>)
    | Fixes(fixes: seq<Fix>, range: Option<TextRange>)
}
