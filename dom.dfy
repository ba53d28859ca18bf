/**
  The part of a W3C DOM tree that the STAX action factories look at, and the
  outcomes they report.

  A factory receives the element of one action (`<stafcmd>`, `<call>`,
  `<script>`, ...), reads its attributes and walks its child nodes in document
  order, deciding by node type which nodes set a field of the action, which
  are skipped and which make the whole element invalid.
 */
module Dom {

  datatype Option<T> = None | Some(value: T)

  /** One attribute of an element, as a `NamedNodeMap` hands it out. */
  datatype Attr = Attr(name: string, value: string)

  /**
    A node that can occur among the children of an element. `line` is the
    source line the STAX parser records on every element; the factories copy
    it into the action they build.
   */
  datatype Node =
    | Element(name: string, line: int, attrs: seq<Attr>, children: seq<Node>)
    | Text(value: string)
    | CData(value: string)
    | EntityReference(name: string)
    | ProcessingInstruction(target: string, data: string)
    | Comment(value: string)

  // The node type codes of org.w3c.dom.Node.
  const ELEMENT_NODE := 1
  const TEXT_NODE := 3
  const CDATA_SECTION_NODE := 4
  const ENTITY_REFERENCE_NODE := 5
  const PROCESSING_INSTRUCTION_NODE := 7
  const COMMENT_NODE := 8

  /** `getNodeType()`: the code a rejected node is reported with. */
  function NodeType(n: Node): int
  {
    match n
    case Element(_, _, _, _) => ELEMENT_NODE
    case Text(_) => TEXT_NODE
    case CData(_) => CDATA_SECTION_NODE
    case EntityReference(_) => ENTITY_REFERENCE_NODE
    case ProcessingInstruction(_, _) => PROCESSING_INSTRUCTION_NODE
    case Comment(_) => COMMENT_NODE
  }

  /**
    The exceptions a factory throws. `InvalidXMLNodeType` is
    STAXInvalidXMLNodeTypeException: the name of the element whose content is
    wrong and the type code of the offending child. `StaxException` is a plain
    STAXException with its message.
   */
  datatype StaxError =
    | InvalidXMLNodeType(element: string, nodeType: int)
    | StaxException(message: string)

  /** A value, or the exception that was thrown instead of returning it. */
  datatype Result<T> = Ok(value: T) | Err(error: StaxError)

  /**
    STAXUtil.parseAndCompileForPython: checks a Python expression or script
    and gives back the text to keep. It is not part of this model, so every
    operation takes it as a parameter and nothing is assumed about it.
   */
  type Compiler = string -> string
}
