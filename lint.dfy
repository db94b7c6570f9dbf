/**
 * One finding reported by golangci-lint, already parsed from the tool's JSON
 * report (the record the plugin calls `LintIssue`). The model takes its line
 * numbers as 0-based document lines; an offset between the reported lines
 * and the document's is part of the drift `Shift` that handlers add.
 */
module Lint {
  import opened Wrappers

  /** Where the issue was reported when the linter ran. */
  datatype Position = Position(line: int, column: int)

  /** The inclusive line span of a multi-line issue (whitespace, dupl). */
  datatype LineRange = LineRange(from: int, to: int)

  datatype Issue = Issue(
    fromLinter: string,
    text: string,
    pos: Position,
    lineRange: Option<LineRange>)

  /** The drift between the line the caller asks about and the line the linter reported. */
  function Shift(issue: Issue, overrideLine: int): (d: int)
    ensures issue.pos.line + d == overrideLine
  {
    overrideLine - issue.pos.line
  }
}
