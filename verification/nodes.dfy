/**
 The syntax-tree nodes the rules visit, as far as the rules read them, and
 the node-shape predicates of the `InspectsNodes` mixin.
 */
module Nodes {
  import opened Wrappers

  /** The node types the rules name; every other node type is `OtherNode`. */
  datatype NodeKind =
    | ArrayExpression
    | ArrayPattern
    | ObjectExpression
    | ObjectPattern
    | OtherNode

  /**
   Object shape of a possibly missing node (`None` is an array hole or an
   `undefined` element, which the source treats as falsy).
   */
  predicate IsObjectType(n: Option<NodeKind>) {
    n.Some? && (n.value == ObjectExpression || n.value == ObjectPattern)
  }

  predicate IsArrayType(n: Option<NodeKind>) {
    n.Some? && (n.value == ArrayExpression || n.value == ArrayPattern)
  }

  /** A missing node is neither object- nor array-shaped. */
  lemma MissingNodeHasNoShape()
    ensures !IsObjectType(None) && !IsArrayType(None)
  {
  }

  /** No node is both object-shaped and array-shaped. */
  lemma ShapesAreDisjoint(n: Option<NodeKind>)
    ensures !(IsObjectType(n) && IsArrayType(n))
  {
  }

  /**
   The token indices of a node's first and last token. The parser guarantees
   that a node begins and ends with a non-comment token.
   */
  datatype Span = Span(first: nat, last: nat)

  /** `ArrayExpression` (`isPattern` false) or `ArrayPattern` (true). */
  datatype ArrayNode = ArrayNode(
    isPattern: bool,
    elements: seq<Option<NodeKind>>,
    span: Span,
    typeAnnotation: Option<Span>)

  /** `ObjectExpression` (`isPattern` false) or `ObjectPattern` (true); only property spans are read. */
  datatype ObjectNode = ObjectNode(isPattern: bool, properties: seq<Span>, span: Span)

  datatype SpecifierKind = ImportSpecifier | ImportDefaultSpecifier | ImportNamespaceSpecifier | ExportSpecifier

  datatype Specifier = Specifier(kind: SpecifierKind, span: Span)

  /**
   An `ImportDeclaration`. Only its specifier list is read: the braces are
   found from the specifiers, never from the declaration's own tokens.
   */
  datatype ImportNode = ImportNode(specifiers: seq<Specifier>)

  /** An `ExportNamedDeclaration`; as for imports, only the specifiers are read. */
  datatype ExportNode = ExportNode(specifiers: seq<Specifier>)

  function ArrayKind(n: ArrayNode): NodeKind {
    if n.isPattern then ArrayPattern else ArrayExpression
  }

  function ObjectKind(n: ObjectNode): NodeKind {
    if n.isPattern then ObjectPattern else ObjectExpression
  }
}
