/**
  The two ways the STAX factories read the content of an action element, and
  what can be proved about them.

  Every factory walks a list (the attributes, the child nodes) with an indexed
  loop that updates the action and may throw. `Fold` is that loop as a
  function of the prefix walked so far, so a loop invariant can say "the
  action is what `Fold` gives for `children[..i]`". A thrown exception ends the
  walk, which `Fold` mirrors by keeping the first `Err`.
 */
module Content {
  import opened Dom

  /**
    The outcome of walking `children` from state `init`, applying `step` to
    each child in document order and stopping at the first failure.
   */
  function Fold<S>(children: seq<Node>, step: (S, Node) -> Result<S>, init: S): Result<S>
    decreases |children|
  {
    if children == [] then Ok(init)
    else
      match Fold(children[..|children| - 1], step, init)
      case Err(e) => Err(e)
      case Ok(s) => step(s, children[|children| - 1])
  }

  /**
    Walking `a + b` is walking `a` and then walking `b` from where `a` ended;
    once a child of `a` has failed, nothing in `b` is looked at.
   */
  lemma {:induction false} FoldConcat<S>(a: seq<Node>, b: seq<Node>, step: (S, Node) -> Result<S>, init: S)
    ensures Fold(a + b, step, init) ==
            match Fold(a, step, init)
            case Err(e) => Err(e)
            case Ok(s) => Fold(b, step, s)
    decreases |b|
  {
    if b == [] {
      assert a + b == a;
    } else {
      var b' := b[..|b| - 1];
      assert (a + b)[..|a + b| - 1] == a + b';
      assert (a + b)[|a + b| - 1] == b[|b| - 1];
      FoldConcat(a, b', step, init);
    }
  }

  // ---------------------------------------------------------------------
  // Attributes: the loop over `root.getAttributes()` that sets one field
  // from the attribute with a given name.
  // ---------------------------------------------------------------------

  /**
    The field after the attribute loop: every attribute called `attrName`
    replaces it with the compiled attribute value; all other attributes are
    passed over.
   */
  function CompiledAttr(attrs: seq<Attr>, attrName: string, compile: Compiler, current: Option<string>): Option<string>
    decreases |attrs|
  {
    if attrs == [] then current
    else if attrs[|attrs| - 1].name == attrName then Some(compile(attrs[|attrs| - 1].value))
    else CompiledAttr(attrs[..|attrs| - 1], attrName, compile, current)
  }

  /** The field comes from the last attribute with the name, compiled. */
  lemma {:induction false} CompiledAttrFromLast(attrs: seq<Attr>, attrName: string, compile: Compiler, current: Option<string>, i: int)
    requires 0 <= i < |attrs| && attrs[i].name == attrName
    requires forall j :: i < j < |attrs| ==> attrs[j].name != attrName
    ensures CompiledAttr(attrs, attrName, compile, current) == Some(compile(attrs[i].value))
    decreases |attrs|
  {
    if i < |attrs| - 1 {
      var p := attrs[..|attrs| - 1];
      assert p[i] == attrs[i];
      CompiledAttrFromLast(p, attrName, compile, current, i);
    }
  }

  /** Without an attribute of that name the field keeps its value. */
  lemma {:induction false} CompiledAttrUnset(attrs: seq<Attr>, attrName: string, compile: Compiler, current: Option<string>)
    requires forall j :: 0 <= j < |attrs| ==> attrs[j].name != attrName
    ensures CompiledAttr(attrs, attrName, compile, current) == current
    decreases |attrs|
  {
    if attrs != [] {
      CompiledAttrUnset(attrs[..|attrs| - 1], attrName, compile, current);
    }
  }

  // ---------------------------------------------------------------------
  // Character content: the child loop of <call> and <script>, whose elements
  // hold only text. Comments are skipped, each text node overwrites the
  // field, and any other node type is rejected.
  // ---------------------------------------------------------------------

  /** The node types such an element accepts among its children. */
  predicate IsContent(n: Node)
  {
    n.Comment? || n.Text?
  }

  /** One turn of the child loop of the element called `element`. */
  function TextStep(element: string, compile: Compiler, v: Option<string>, n: Node): Result<Option<string>>
  {
    match n
    case Comment(_) => Ok(v)
    case Text(s) => Ok(Some(compile(s)))
    case _ => Err(InvalidXMLNodeType(element, NodeType(n)))
  }

  function TextStepFn(element: string, compile: Compiler): (Option<string>, Node) -> Result<Option<string>>
  {
    (v, n) => TextStep(element, compile, v, n)
  }

  /** The field after the child loop, starting from `current`. */
  function TextContent(children: seq<Node>, element: string, compile: Compiler, current: Option<string>): Result<Option<string>>
  {
    Fold(children, TextStepFn(element, compile), current)
  }

  /** The element is rejected exactly when some child is neither a comment nor text. */
  lemma {:induction false} TextContentFailsIffInvalidChild(children: seq<Node>, element: string, compile: Compiler, current: Option<string>)
    ensures TextContent(children, element, compile, current).Err? <==>
            exists i :: 0 <= i < |children| && !IsContent(children[i])
    decreases |children|
  {
    if children != [] {
      var p := children[..|children| - 1];
      TextContentFailsIffInvalidChild(p, element, compile, current);
      if exists i :: 0 <= i < |children| && !IsContent(children[i]) {
        var i :| 0 <= i < |children| && !IsContent(children[i]);
        if i < |p| {
          assert p[i] == children[i];
        }
      } else {
        assert forall i :: 0 <= i < |p| ==> p[i] == children[i];
      }
    }
  }

  /**
    The rejection names the element and the type of its FIRST invalid child;
    what follows that child plays no part.
   */
  lemma {:induction false} TextContentReportsFirstInvalid(children: seq<Node>, element: string, compile: Compiler, current: Option<string>, i: int)
    requires 0 <= i < |children| && !IsContent(children[i])
    requires forall j :: 0 <= j < i ==> IsContent(children[j])
    ensures TextContent(children, element, compile, current) == Err(InvalidXMLNodeType(element, NodeType(children[i])))
  {
    var upTo := children[..i + 1];
    assert upTo[..i] == children[..i];
    TextContentFailsIffInvalidChild(children[..i], element, compile, current);
    FoldConcat(upTo, children[i + 1..], TextStepFn(element, compile), current);
    assert upTo + children[i + 1..] == children;
  }

  /** When every child is a comment or text, the field is the LAST text node, compiled. */
  lemma {:induction false} TextContentIsLastText(children: seq<Node>, element: string, compile: Compiler, current: Option<string>, i: int)
    requires forall j :: 0 <= j < |children| ==> IsContent(children[j])
    requires 0 <= i < |children| && children[i].Text?
    requires forall j :: i < j < |children| ==> !children[j].Text?
    ensures TextContent(children, element, compile, current) == Ok(Some(compile(children[i].value)))
    decreases |children|
  {
    var p := children[..|children| - 1];
    TextContentFailsIffInvalidChild(p, element, compile, current);
    if i < |p| {
      assert p[i] == children[i];
      TextContentIsLastText(p, element, compile, current, i);
    }
  }

  /** When the children are comments only, the field is left as it was. */
  lemma {:induction false} TextContentUnsetWithoutText(children: seq<Node>, element: string, compile: Compiler, current: Option<string>)
    requires forall j :: 0 <= j < |children| ==> children[j].Comment?
    ensures TextContent(children, element, compile, current) == Ok(current)
    decreases |children|
  {
    if children != [] {
      TextContentUnsetWithoutText(children[..|children| - 1], element, compile, current);
    }
  }
}
