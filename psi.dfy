/**
 * An abstract, in-memory view of the editor's syntax tree (PSI) and document:
 * only what the quick-fix handlers read.
 */
module Psi {
  import opened Wrappers

  /** A span of character offsets in the document. */
  datatype TextRange = TextRange(start: int, end: int)

  /** A sub-node of which a handler reads only the text and the range
      (an identifier, a type signature, a switch condition). */
  datatype Leaf = Leaf(text: string, range: TextRange)

  /** One clause of an expression switch; only whether it is `default` matters. */
  datatype CaseClause = CaseClause(isDefault: bool)

  /** The node kinds the handlers distinguish, with the parts of each they read. */
  datatype Kind =
    | WhiteSpace
    | Comment
    | ReferenceExpression(identifier: Leaf)
    | ParameterDeclaration(typeSignature: Leaf)
    | StringLiteral
    | Literal
    | PackageClause(packageName: Option<Leaf>)
    | FunctionOrMethodDeclaration(funcName: Option<Leaf>)
    | ExprSwitchStatement(caseClauses: seq<CaseClause>, condition: Option<Leaf>)
    | OtherKind

  /** A node of the tree together with the chain of its ancestors. */
  datatype Node = Node(kind: Kind, text: string, range: TextRange, parent: Option<Node>)

  /** The parsed file: the leaf element found at each offset (`findElementAt`). */
  datatype PsiFile = PsiFile(elementAt: map<int, Node>)

  /** A document line as the editor knows it: its start and end offsets. */
  datatype Line = Line(start: int, end: int)

  datatype Document = Document(lines: seq<Line>)

  function FindElementAt(file: PsiFile, offset: int): (r: Option<Node>)
    ensures r.Some? <==> offset in file.elementAt
    ensures r.Some? ==> r.value == file.elementAt[offset]
  {
    if offset in file.elementAt then Some(file.elementAt[offset]) else None
  }

  /** The document's line accessors throw for a line outside the document. */
  predicate ValidLine(doc: Document, line: int)
  {
    0 <= line < |doc.lines|
  }

  function LineStartOffset(doc: Document, line: int): int
    requires ValidLine(doc, line)
  {
    doc.lines[line].start
  }

  function LineEndOffset(doc: Document, line: int): int
    requires ValidLine(doc, line)
  {
    doc.lines[line].end
  }

  /** `x?.textRange` */
  function LeafRange(x: Option<Leaf>): (r: Option<TextRange>)
    ensures r.Some? <==> x.Some?
    ensures r.Some? ==> r.value == x.value.range
  {
    match x
    case None => None
    case Some(l) => Some(l.range)
  }

  /** `x?.textRange` */
  function NodeRange(x: Option<Node>): (r: Option<TextRange>)
    ensures r.Some? <==> x.Some?
    ensures r.Some? ==> r.value == x.value.range
  {
    match x
    case None => None
    case Some(n) => Some(n.range)
  }

  /** The node itself followed by its parent, its parent's parent, up to the root. */
  function AncestorsOrSelf(n: Node): (a: seq<Node>)
    ensures |a| >= 1 && a[0] == n
    decreases n
  {
    [n] + match n.parent
          case None => []
          case Some(p) => AncestorsOrSelf(p)
  }
}
