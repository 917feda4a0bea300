/** The shape of the parsed component template, as far as the transpiler
    driver inspects it: the root's top-level children, their kind, span,
    attributes and (for script and style sections) content span. */
module Template {
  import opened Results

  datatype NodeKind = Script | Style | Element | InlineComponent | Text | MustacheTag | OtherKind

  /** An attribute with its value taken as plain text. */
  datatype Attribute = Attribute(name: string, value: string)

  datatype Span = Span(start: int, end: int)

  /** `attributes` is `None` where the node has no `attributes` array. */
  datatype Node = Node(
    kind: NodeKind,
    start: int,
    end: int,
    attributes: Option<seq<Attribute>>,
    content: Span,
    children: seq<Node>)
}
