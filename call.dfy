/**
  STAXCallActionFactory: builds the action of a `<call function="...">`
  element. The function name comes from the `function` attribute, the
  argument from the element's text; comments are allowed among the children
  and every other node type is rejected.
 */
module CallFactory {
  import opened Dom
  import opened Content
  import opened Jobs

  /** The forms of a call; this factory only builds the one-argument form. */
  datatype CallType = CallOneArg | CallListArgs | CallMapArgs

  /**
    The fields of a STAXCallAction that parsing sets. A field the element never
    sets is None: it keeps the action's initial value.
   */
  datatype CallFields = CallFields(
    functionName: Option<string>,
    callType: Option<CallType>,
    args: Option<string>,
    lineNumber: int,
    xmlFile: string,
    xmlMachine: string)

  class CallAction {
    var functionName: Option<string>
    var callType: Option<CallType>
    var args: Option<string>
    var lineNumber: int
    var xmlFile: string
    var xmlMachine: string

    constructor ()
      ensures Fields() == CallFields(None, None, None, 0, "", "")
    {
      functionName, callType, args := None, None, None;
      lineNumber, xmlFile, xmlMachine := 0, "", "";
    }

    function Fields(): CallFields
      reads this
    {
      CallFields(functionName, callType, args, lineNumber, xmlFile, xmlMachine)
    }
  }

  /** The outcome of `parseAction` on a `<call>` element. */
  function ParseCall(root: Node, xmlFile: string, xmlMachine: string, compile: Compiler): Result<CallFields>
    requires root.Element?
  {
    match TextContent(root.children, root.name, compile, None)
    case Err(e) => Err(e)
    case Ok(args) =>
      Ok(CallFields(CompiledAttr(root.attrs, "function", compile, None), Some(CallOneArg), args,
                    root.line, xmlFile, xmlMachine))
  }

  method ParseAction(job: Job, root: Node, compile: Compiler) returns (r: Result<CallAction>)
    requires root.Element?
    ensures match r
            case Ok(action) => ParseCall(root, job.xmlFile, job.xmlMachine, compile) == Ok(action.Fields())
            case Err(e) => ParseCall(root, job.xmlFile, job.xmlMachine, compile) == Err(e)
  {
    var action := new CallAction();
    action.lineNumber := root.line;
    action.xmlFile := job.xmlFile;
    action.xmlMachine := job.xmlMachine;

    var rootAttrs := root.attrs;
    var i := 0;
    while i < |rootAttrs|
      invariant 0 <= i <= |rootAttrs|
      invariant action.Fields() ==
                CallFields(CompiledAttr(rootAttrs[..i], "function", compile, None), None, None,
                           root.line, job.xmlFile, job.xmlMachine)
    {
      var thisAttr := rootAttrs[i];
      if thisAttr.name == "function" {
        action.functionName := Some(compile(thisAttr.value));
      }
      assert rootAttrs[..i + 1][..i] == rootAttrs[..i];
      i := i + 1;
    }
    assert rootAttrs[..i] == rootAttrs;

    action.callType := Some(CallOneArg);

    ghost var functionName := action.functionName;
    var children := root.children;
    i := 0;
    while i < |children|
      invariant 0 <= i <= |children|
      invariant TextContent(children[..i], root.name, compile, None) == Ok(action.args)
      invariant action.Fields() ==
                CallFields(functionName, Some(CallOneArg), action.args, root.line, job.xmlFile, job.xmlMachine)
    {
      var thisChild := children[i];
      assert children[..i + 1][..i] == children[..i];
      match thisChild {
        case Comment(_) =>
        case Text(s) =>
          action.args := Some(compile(s));
        case _ =>
          FoldConcat(children[..i + 1], children[i + 1..], TextStepFn(root.name, compile), None);
          assert children[..i + 1] + children[i + 1..] == children;
          return Err(InvalidXMLNodeType(root.name, NodeType(thisChild)));
      }
      i := i + 1;
    }
    assert children[..i] == children;
    return Ok(action);
  }

  /**
    The function comes only from an attribute called "function" (the last
    one, compiled); without one it is never set.
   */
  lemma CallFunctionFromAttribute(root: Node, xmlFile: string, xmlMachine: string, compile: Compiler)
    requires root.Element? && ParseCall(root, xmlFile, xmlMachine, compile).Ok?
    ensures (forall j :: 0 <= j < |root.attrs| ==> root.attrs[j].name != "function") ==>
            ParseCall(root, xmlFile, xmlMachine, compile).value.functionName == None
    ensures forall i :: 0 <= i < |root.attrs| && root.attrs[i].name == "function" &&
                        (forall j :: i < j < |root.attrs| ==> root.attrs[j].name != "function") ==>
            ParseCall(root, xmlFile, xmlMachine, compile).value.functionName == Some(compile(root.attrs[i].value))
  {
    if forall j :: 0 <= j < |root.attrs| ==> root.attrs[j].name != "function" {
      CompiledAttrUnset(root.attrs, "function", compile, None);
    }
    forall i | 0 <= i < |root.attrs| && root.attrs[i].name == "function" &&
               (forall j :: i < j < |root.attrs| ==> root.attrs[j].name != "function")
      ensures ParseCall(root, xmlFile, xmlMachine, compile).value.functionName == Some(compile(root.attrs[i].value))
    {
      CompiledAttrFromLast(root.attrs, "function", compile, None, i);
    }
  }

  /**
    A `<call>` is accepted exactly when its children are comments and text,
    and an accepted call is always of the one-argument form, taking the
    line number, file and machine from the element and the job.
   */
  lemma CallAcceptedIffContentOnly(root: Node, xmlFile: string, xmlMachine: string, compile: Compiler)
    requires root.Element?
    ensures ParseCall(root, xmlFile, xmlMachine, compile).Ok? <==>
            forall j :: 0 <= j < |root.children| ==> IsContent(root.children[j])
    ensures ParseCall(root, xmlFile, xmlMachine, compile).Ok? ==>
            var f := ParseCall(root, xmlFile, xmlMachine, compile).value;
            f.callType == Some(CallOneArg) && f.lineNumber == root.line &&
            f.xmlFile == xmlFile && f.xmlMachine == xmlMachine
  {
    TextContentFailsIffInvalidChild(root.children, root.name, compile, None);
  }

  /** The argument is the LAST text child, compiled; earlier text is overwritten. */
  lemma CallArgsFromLastText(root: Node, xmlFile: string, xmlMachine: string, compile: Compiler, i: int)
    requires root.Element?
    requires forall j :: 0 <= j < |root.children| ==> IsContent(root.children[j])
    requires 0 <= i < |root.children| && root.children[i].Text?
    requires forall j :: i < j < |root.children| ==> !root.children[j].Text?
    ensures ParseCall(root, xmlFile, xmlMachine, compile).Ok?
    ensures ParseCall(root, xmlFile, xmlMachine, compile).value.args == Some(compile(root.children[i].value))
  {
    TextContentIsLastText(root.children, root.name, compile, None, i);
  }

  /** With comments only, the argument is never set. */
  lemma CallArgsUnsetWithoutText(root: Node, xmlFile: string, xmlMachine: string, compile: Compiler)
    requires root.Element?
    requires forall j :: 0 <= j < |root.children| ==> root.children[j].Comment?
    ensures ParseCall(root, xmlFile, xmlMachine, compile).Ok?
    ensures ParseCall(root, xmlFile, xmlMachine, compile).value.args == None
  {
    TextContentUnsetWithoutText(root.children, root.name, compile, None);
  }

  /**
    The first child that is neither a comment nor text (an element, a CDATA
    section, ...) rejects the call with its type code; later children are not
    looked at.
   */
  lemma CallRejectsInvalidChild(root: Node, xmlFile: string, xmlMachine: string, compile: Compiler, i: int)
    requires root.Element?
    requires 0 <= i < |root.children| && !IsContent(root.children[i])
    requires forall j :: 0 <= j < i ==> IsContent(root.children[j])
    ensures ParseCall(root, xmlFile, xmlMachine, compile) ==
            Err(InvalidXMLNodeType(root.name, NodeType(root.children[i])))
  {
    TextContentReportsFirstInvalid(root.children, root.name, compile, None, i);
  }
}
