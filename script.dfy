/**
  STAXScriptActionFactory: builds the action of a `<script>` element, whose
  value is the element's Python text. The element has no attributes that the
  factory reads; comments are allowed among its children and every other node
  type but text is rejected.
 */
module ScriptFactory {
  import opened Dom
  import opened Content
  import opened Jobs

  /**
    The fields of a STAXScriptAction that parsing sets. A value the element
    never sets is None: it keeps the action's initial value.
   */
  datatype ScriptFields = ScriptFields(value: Option<string>, lineNumber: int, xmlFile: string, xmlMachine: string)

  class ScriptAction {
    var value: Option<string>
    var lineNumber: int
    var xmlFile: string
    var xmlMachine: string

    constructor ()
      ensures Fields() == ScriptFields(None, 0, "", "")
    {
      value := None;
      lineNumber, xmlFile, xmlMachine := 0, "", "";
    }

    function Fields(): ScriptFields
      reads this
    {
      ScriptFields(value, lineNumber, xmlFile, xmlMachine)
    }
  }

  /** The outcome of `parseAction` on a `<script>` element. */
  function ParseScript(root: Node, xmlFile: string, xmlMachine: string, compile: Compiler): Result<ScriptFields>
    requires root.Element?
  {
    match TextContent(root.children, root.name, compile, None)
    case Err(e) => Err(e)
    case Ok(v) => Ok(ScriptFields(v, root.line, xmlFile, xmlMachine))
  }

  method ParseAction(job: Job, root: Node, compile: Compiler) returns (r: Result<ScriptAction>)
    requires root.Element?
    ensures match r
            case Ok(action) => ParseScript(root, job.xmlFile, job.xmlMachine, compile) == Ok(action.Fields())
            case Err(e) => ParseScript(root, job.xmlFile, job.xmlMachine, compile) == Err(e)
  {
    var action := new ScriptAction();
    action.lineNumber := root.line;
    action.xmlFile := job.xmlFile;
    action.xmlMachine := job.xmlMachine;

    var children := root.children;
    var i := 0;
    while i < |children|
      invariant 0 <= i <= |children|
      invariant TextContent(children[..i], root.name, compile, None) == Ok(action.value)
      invariant action.Fields() == ScriptFields(action.value, root.line, job.xmlFile, job.xmlMachine)
    {
      var thisChild := children[i];
      assert children[..i + 1][..i] == children[..i];
      match thisChild {
        case Comment(_) =>
        case Text(s) =>
          action.value := Some(compile(s));
        case _ =>
          FoldConcat(children[..i + 1], children[i + 1..], TextStepFn(root.name, compile), None);
          assert children[..i + 1] + children[i + 1..] == children;
          return Err(InvalidXMLNodeType(root.name, NodeType(thisChild)));
      }
      i := i + 1;
    }
    assert children[..i] == children;
    return Ok(action);
  }

  /** The attributes of `<script>` are never read: changing them changes nothing. */
  lemma ScriptIgnoresAttributes(root: Node, attrs: seq<Attr>, xmlFile: string, xmlMachine: string, compile: Compiler)
    requires root.Element?
    ensures ParseScript(root.(attrs := attrs), xmlFile, xmlMachine, compile) ==
            ParseScript(root, xmlFile, xmlMachine, compile)
  {
  }

  /**
    A `<script>` is accepted exactly when its children are comments and text;
    the accepted action takes its line number, file and machine from the
    element and the job.
   */
  lemma ScriptAcceptedIffContentOnly(root: Node, xmlFile: string, xmlMachine: string, compile: Compiler)
    requires root.Element?
    ensures ParseScript(root, xmlFile, xmlMachine, compile).Ok? <==>
            forall j :: 0 <= j < |root.children| ==> IsContent(root.children[j])
    ensures ParseScript(root, xmlFile, xmlMachine, compile).Ok? ==>
            var f := ParseScript(root, xmlFile, xmlMachine, compile).value;
            f.lineNumber == root.line && f.xmlFile == xmlFile && f.xmlMachine == xmlMachine
  {
    TextContentFailsIffInvalidChild(root.children, root.name, compile, None);
  }

  /**
    The value is the LAST text child, compiled; earlier text is overwritten.
    With comments only, it is never set.
   */
  lemma ScriptValueFromLastText(root: Node, xmlFile: string, xmlMachine: string, compile: Compiler)
    requires root.Element?
    requires forall j :: 0 <= j < |root.children| ==> IsContent(root.children[j])
    ensures ParseScript(root, xmlFile, xmlMachine, compile).Ok?
    ensures (forall j :: 0 <= j < |root.children| ==> root.children[j].Comment?) ==>
            ParseScript(root, xmlFile, xmlMachine, compile).value.value == None
    ensures forall i :: 0 <= i < |root.children| && root.children[i].Text? &&
                        (forall j :: i < j < |root.children| ==> !root.children[j].Text?) ==>
            ParseScript(root, xmlFile, xmlMachine, compile).value.value == Some(compile(root.children[i].value))
  {
    TextContentFailsIffInvalidChild(root.children, root.name, compile, None);
    if forall j :: 0 <= j < |root.children| ==> root.children[j].Comment? {
      TextContentUnsetWithoutText(root.children, root.name, compile, None);
    }
    forall i | 0 <= i < |root.children| && root.children[i].Text? &&
               (forall j :: i < j < |root.children| ==> !root.children[j].Text?)
      ensures ParseScript(root, xmlFile, xmlMachine, compile).value.value == Some(compile(root.children[i].value))
    {
      TextContentIsLastText(root.children, root.name, compile, None, i);
    }
  }

  /**
    The first child that is neither a comment nor text rejects the script with
    its type code; later children are not looked at.
   */
  lemma ScriptRejectsInvalidChild(root: Node, xmlFile: string, xmlMachine: string, compile: Compiler, i: int)
    requires root.Element?
    requires 0 <= i < |root.children| && !IsContent(root.children[i])
    requires forall j :: 0 <= j < i ==> IsContent(root.children[j])
    ensures ParseScript(root, xmlFile, xmlMachine, compile) ==
            Err(InvalidXMLNodeType(root.name, NodeType(root.children[i])))
  {
    TextContentReportsFirstInvalid(root.children, root.name, compile, None, i);
  }
}
