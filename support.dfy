/**
  ActionFactorySupport: the template the plugin action factories extend. It
  instantiates the action class, records where the element came from, hands
  the root attributes to one hook, dispatches each child node by type to
  another hook, rejects node types it has no hook for, and returns a clone of
  the action it built.

  A subclass's overridden hooks and its `cloneAction` are the function fields
  of `Hooks`; the action is a value whose `fields` stand for whatever the
  subclass adds to STAXActionDefaultImpl. Besides its result, parsing reports
  the hook calls it made, in order, so that the order of dispatch can be
  stated.
 */
module FactorySupport {
  import opened Dom
  import opened Jobs

  /** The part of an action that the template sets itself, and the subclass's own fields. */
  datatype Action<F> = Action(lineNumber: int, xmlFile: string, xmlMachine: string, fields: F)

  /**
    The protected hooks (handleRootAttributes, handleCommentNode,
    handleChildNode, handleTextNode) and the action's cloneAction. All but the
    comment hook may throw.
   */
  datatype Hooks<!F> = Hooks(
    rootAttributes: (Action<F>, Node) -> Result<Action<F>>,
    commentNode: (Action<F>, Node, Node) -> Action<F>,
    childNode: (Action<F>, Node, Node) -> Result<Action<F>>,
    textNode: (Action<F>, Node, Node) -> Result<Action<F>>,
    cloneAction: Action<F> -> Action<F>)

  /** The template's own hooks, which do nothing. */
  function DefaultHooks<F>(cloneAction: Action<F> -> Action<F>): Hooks<F>
  {
    Hooks((a, root) => Ok(a), (a, root, child) => a, (a, root, child) => Ok(a), (a, root, child) => Ok(a), cloneAction)
  }

  /** One hook invocation; the index is the child's position among the root's children. */
  datatype Call = RootAttributes | CommentNode(index: nat) | ChildNode(index: nat) | TextNode(index: nat)

  /** An outcome together with the hook calls made on the way to it. */
  datatype Dispatch<F> = Dispatch(result: Result<Action<F>>, calls: seq<Call>)

  /** The node types the template has a hook for. */
  predicate IsDispatched(n: Node)
  {
    n.Comment? || n.Element? || n.Text?
  }

  function HookFor(n: Node, i: nat): Call
    requires IsDispatched(n)
  {
    if n.Comment? then CommentNode(i) else if n.Element? then ChildNode(i) else TextNode(i)
  }

  /** One turn of the child loop, for the child at position `i`. */
  function DispatchOne<F>(hooks: Hooks<F>, root: Node, a: Action<F>, child: Node, i: nat): Dispatch<F>
    requires root.Element?
  {
    match child
    case Comment(_) => Dispatch(Ok(hooks.commentNode(a, root, child)), [CommentNode(i)])
    case Element(_, _, _, _) => Dispatch(hooks.childNode(a, root, child), [ChildNode(i)])
    case Text(_) => Dispatch(hooks.textNode(a, root, child), [TextNode(i)])
    case _ => Dispatch(Err(InvalidXMLNodeType(root.name, NodeType(child))), [])
  }

  /** The child loop over `children` (a prefix of the root's children), starting from action `a`. */
  function DispatchChildren<F>(hooks: Hooks<F>, root: Node, children: seq<Node>, a: Action<F>): Dispatch<F>
    requires root.Element?
    decreases |children|
  {
    if children == [] then Dispatch(Ok(a), [])
    else
      var d := DispatchChildren(hooks, root, children[..|children| - 1], a);
      if d.result.Err? then d
      else
        var step := DispatchOne(hooks, root, d.result.value, children[|children| - 1], |children| - 1);
        Dispatch(step.result, d.calls + step.calls)
  }

  /** The message prefix of the instantiation failure ("cannot instantiate"). */
  const CannotInstantiate := "\U{65E0}\U{6CD5}\U{5B9E}\U{4F8B}\U{5316}"

  /**
    createAction: `instance` is what the action class's no-argument
    constructor gave, None when the reflective instantiation threw.
   */
  function CreateAction<F>(instance: Option<Action<F>>, className: string): (r: Result<Action<F>>)
    ensures r.Ok? <==> instance.Some?
    ensures r.Ok? ==> r.value == instance.value
    ensures r.Err? ==> r.error == StaxException(CannotInstantiate + className)
  {
    match instance
    case Some(a) => Ok(a)
    case None => Err(StaxException(CannotInstantiate + className))
  }

  /** Everything `parseAction` does before the final clone. */
  function Build<F>(hooks: Hooks<F>, className: string, instance: Option<Action<F>>,
                    xmlFile: string, xmlMachine: string, root: Node): Dispatch<F>
    requires root.Element?
  {
    match CreateAction(instance, className)
    case Err(e) => Dispatch(Err(e), [])
    case Ok(created) =>
      var a := created.(lineNumber := root.line, xmlFile := xmlFile, xmlMachine := xmlMachine);
      match hooks.rootAttributes(a, root)
      case Err(e) => Dispatch(Err(e), [RootAttributes])
      case Ok(a') =>
        var d := DispatchChildren(hooks, root, root.children, a');
        Dispatch(d.result, [RootAttributes] + d.calls)
  }

  /** The outcome of `parseAction`: the built action's clone, or the exception. */
  function ParseSpec<F>(hooks: Hooks<F>, className: string, instance: Option<Action<F>>,
                        xmlFile: string, xmlMachine: string, root: Node): Dispatch<F>
    requires root.Element?
  {
    var d := Build(hooks, className, instance, xmlFile, xmlMachine, root);
    Dispatch(if d.result.Ok? then Ok(hooks.cloneAction(d.result.value)) else d.result, d.calls)
  }

  class ActionFactorySupport<F> {
    const name: string
    const className: string
    const hooks: Hooks<F>

    constructor (name: string, className: string, hooks: Hooks<F>)
      ensures this.name == name && this.className == className && this.hooks == hooks
    {
      this.name := name;
      this.className := className;
      this.hooks := hooks;
    }

    /**
      parseAction. Returns the action, or the exception, and the hook calls
      made; a successful result is the clone of the action the hooks built.
     */
    method ParseAction(job: Job, root: Node, instance: Option<Action<F>>) returns (result: Result<Action<F>>, calls: seq<Call>)
      requires root.Element?
      ensures Dispatch(result, calls) == ParseSpec(hooks, className, instance, job.xmlFile, job.xmlMachine, root)
      ensures result.Ok? ==>
              result.value == hooks.cloneAction(Build(hooks, className, instance, job.xmlFile, job.xmlMachine, root).result.value)
    {
      var created := CreateAction(instance, className);
      if created.Err? {
        return Err(created.error), [];
      }
      var staxAction := created.value;
      staxAction := staxAction.(lineNumber := root.line);
      staxAction := staxAction.(xmlFile := job.xmlFile);
      staxAction := staxAction.(xmlMachine := job.xmlMachine);

      var handled := hooks.rootAttributes(staxAction, root);
      if handled.Err? {
        return Err(handled.error), [RootAttributes];
      }
      staxAction := handled.value;

      ghost var start := staxAction;
      var children := root.children;
      var dispatched: seq<Call> := [];
      var i := 0;
      while i < |children|
        invariant 0 <= i <= |children|
        invariant DispatchChildren(hooks, root, children[..i], start) == Dispatch(Ok(staxAction), dispatched)
      {
        var child := children[i];
        assert children[..i + 1][..i] == children[..i];
        var failure: Option<StaxError> := None;
        match child {
          case Comment(_) =>
            dispatched := dispatched + [CommentNode(i)];
            staxAction := hooks.commentNode(staxAction, root, child);
          case Element(_, _, _, _) =>
            dispatched := dispatched + [ChildNode(i)];
            var h := hooks.childNode(staxAction, root, child);
            if h.Err? {
              failure := Some(h.error);
            } else {
              staxAction := h.value;
            }
          case Text(_) =>
            dispatched := dispatched + [TextNode(i)];
            var h := hooks.textNode(staxAction, root, child);
            if h.Err? {
              failure := Some(h.error);
            } else {
              staxAction := h.value;
            }
          case _ =>
            failure := Some(InvalidXMLNodeType(root.name, NodeType(child)));
        }
        if failure.Some? {
          assert DispatchChildren(hooks, root, children[..i + 1], start) == Dispatch(Err(failure.value), dispatched);
          DispatchStopsAtError(hooks, root, children[..i + 1], children[i + 1..], start);
          assert children[..i + 1] + children[i + 1..] == children;
          return Err(failure.value), [RootAttributes] + dispatched;
        }
        i := i + 1;
      }
      assert children[..i] == children;
      return Ok(hooks.cloneAction(staxAction)), [RootAttributes] + dispatched;
    }
  }

  /** Once a hook has thrown or a child was rejected, later children are never dispatched. */
  lemma {:induction false} DispatchStopsAtError<F>(hooks: Hooks<F>, root: Node, a: seq<Node>, b: seq<Node>, start: Action<F>)
    requires root.Element?
    requires DispatchChildren(hooks, root, a, start).result.Err?
    ensures DispatchChildren(hooks, root, a + b, start) == DispatchChildren(hooks, root, a, start)
    decreases |b|
  {
    if b != [] {
      var b' := b[..|b| - 1];
      assert (a + b)[..|a + b| - 1] == a + b';
      DispatchStopsAtError(hooks, root, a, b', start);
    } else {
      assert a + b == a;
    }
  }

  /**
    The child loop calls, for each child in document order, the hook for its
    type: comment, element or text. It never calls anything else, it stops
    at the first failure, and when it succeeds it has dispatched every child.
   */
  lemma {:induction false} DispatchChildrenInOrder<F>(hooks: Hooks<F>, root: Node, children: seq<Node>, a: Action<F>)
    requires root.Element?
    ensures var d := DispatchChildren(hooks, root, children, a);
            && |d.calls| <= |children|
            && (forall j :: 0 <= j < |d.calls| ==> IsDispatched(children[j]) && d.calls[j] == HookFor(children[j], j))
            && (d.result.Ok? ==> |d.calls| == |children|)
    decreases |children|
  {
    if children != [] {
      var pre := children[..|children| - 1];
      DispatchChildrenInOrder(hooks, root, pre, a);
      assert forall j :: 0 <= j < |pre| ==> pre[j] == children[j];
    }
  }

  /**
    A child of a type with no hook (a CDATA section, an entity reference, a
    processing instruction) reached by the loop is rejected with its type
    code, and no later child is dispatched.
   */
  lemma {:induction false} InvalidNodeRejected<F>(hooks: Hooks<F>, root: Node, children: seq<Node>, a: Action<F>, i: int)
    requires root.Element?
    requires 0 <= i < |children| && !IsDispatched(children[i])
    requires DispatchChildren(hooks, root, children[..i], a).result.Ok?
    ensures DispatchChildren(hooks, root, children, a) ==
            Dispatch(Err(InvalidXMLNodeType(root.name, NodeType(children[i]))),
                     DispatchChildren(hooks, root, children[..i], a).calls)
  {
    var upTo := children[..i + 1];
    assert upTo[..i] == children[..i];
    assert DispatchChildren(hooks, root, children[..i], a).calls + [] == DispatchChildren(hooks, root, children[..i], a).calls;
    DispatchStopsAtError(hooks, root, upTo, children[i + 1..], a);
    assert upTo + children[i + 1..] == children;
  }

  /**
    When the action class can be instantiated, handleRootAttributes is the
    first hook called and it is called exactly once; every later call is a
    child's hook, in document order.
   */
  lemma RootAttributesFirstAndOnce<F>(hooks: Hooks<F>, className: string, instance: Option<Action<F>>,
                                      xmlFile: string, xmlMachine: string, root: Node)
    requires root.Element? && instance.Some?
    ensures var d := ParseSpec(hooks, className, instance, xmlFile, xmlMachine, root);
            && |d.calls| >= 1 && d.calls[0] == RootAttributes
            && (forall j :: 1 <= j < |d.calls| ==> d.calls[j] != RootAttributes)
            && (forall j :: 1 <= j < |d.calls| ==>
                  j - 1 < |root.children| && IsDispatched(root.children[j - 1]) &&
                  d.calls[j] == HookFor(root.children[j - 1], j - 1))
  {
    var created := instance.value;
    var a := created.(lineNumber := root.line, xmlFile := xmlFile, xmlMachine := xmlMachine);
    var handled := hooks.rootAttributes(a, root);
    if handled.Ok? {
      DispatchChildrenInOrder(hooks, root, root.children, handled.value);
    }
  }

  /** A successful parse has dispatched every child: none of them is of a rejected type. */
  lemma SuccessDispatchesEveryChild<F>(hooks: Hooks<F>, className: string, instance: Option<Action<F>>,
                                       xmlFile: string, xmlMachine: string, root: Node)
    requires root.Element?
    requires ParseSpec(hooks, className, instance, xmlFile, xmlMachine, root).result.Ok?
    ensures |ParseSpec(hooks, className, instance, xmlFile, xmlMachine, root).calls| == 1 + |root.children|
    ensures forall j :: 0 <= j < |root.children| ==> IsDispatched(root.children[j])
  {
    var created := instance.value;
    var a := created.(lineNumber := root.line, xmlFile := xmlFile, xmlMachine := xmlMachine);
    var handled := hooks.rootAttributes(a, root);
    DispatchChildrenInOrder(hooks, root, root.children, handled.value);
  }

  /** With hooks that do nothing, the children leave the action as it was. */
  lemma {:induction false} DefaultDispatchKeepsAction<F>(cloneAction: Action<F> -> Action<F>, root: Node, children: seq<Node>, a: Action<F>)
    requires root.Element?
    requires forall j :: 0 <= j < |children| ==> IsDispatched(children[j])
    ensures DispatchChildren(DefaultHooks(cloneAction), root, children, a).result == Ok(a)
    decreases |children|
  {
    if children != [] {
      DefaultDispatchKeepsAction(cloneAction, root, children[..|children| - 1], a);
    }
  }

  /**
    With the default hooks, an element whose children all have hooks yields
    the clone of the instantiated action with only its line number, file and
    machine changed.
   */
  lemma DefaultHooksKeepFields<F>(cloneAction: Action<F> -> Action<F>, className: string, created: Action<F>,
                                  xmlFile: string, xmlMachine: string, root: Node)
    requires root.Element?
    requires forall j :: 0 <= j < |root.children| ==> IsDispatched(root.children[j])
    ensures ParseSpec(DefaultHooks(cloneAction), className, Some(created), xmlFile, xmlMachine, root).result ==
            Ok(cloneAction(created.(lineNumber := root.line, xmlFile := xmlFile, xmlMachine := xmlMachine)))
  {
    var a := created.(lineNumber := root.line, xmlFile := xmlFile, xmlMachine := xmlMachine);
    DefaultDispatchKeepsAction(cloneAction, root, root.children, a);
  }

  /**
    With the default hooks, the first child of a type without a hook makes
    the parse fail with that child's type code, after the root hook and the
    hooks of the children before it.
   */
  lemma DefaultHooksRejectFirstInvalid<F>(cloneAction: Action<F> -> Action<F>, className: string, created: Action<F>,
                                          xmlFile: string, xmlMachine: string, root: Node, i: int)
    requires root.Element?
    requires 0 <= i < |root.children| && !IsDispatched(root.children[i])
    requires forall j :: 0 <= j < i ==> IsDispatched(root.children[j])
    ensures var d := ParseSpec(DefaultHooks(cloneAction), className, Some(created), xmlFile, xmlMachine, root);
            d.result == Err(InvalidXMLNodeType(root.name, NodeType(root.children[i]))) && |d.calls| == 1 + i
  {
    var hooks := DefaultHooks(cloneAction);
    var a := created.(lineNumber := root.line, xmlFile := xmlFile, xmlMachine := xmlMachine);
    var pre := root.children[..i];
    DefaultDispatchKeepsAction(cloneAction, root, pre, a);
    DispatchChildrenInOrder(hooks, root, pre, a);
    InvalidNodeRejected(hooks, root, root.children, a, i);
  }

  /** An action class that cannot be instantiated is reported as a STAXException naming it, before any hook runs. */
  lemma InstantiationFailureReported<F>(hooks: Hooks<F>, className: string, xmlFile: string, xmlMachine: string, root: Node)
    requires root.Element?
    ensures ParseSpec(hooks, className, None, xmlFile, xmlMachine, root) ==
            Dispatch(Err(StaxException(CannotInstantiate + className)), [])
  {
  }
}
