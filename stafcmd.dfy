/**
  STAXSTAFCommandActionFactory: builds the action of a `<stafcmd>` element
  and answers the LIST STAFCMDS and QUERY STAFCMD requests of a job.

  `<stafcmd name="...">` holds `<location>`, `<service>` and `<request>`
  sub-elements; the text of each becomes the matching field of the action.
  The job keeps its running commands in a map from request number to command,
  which the LIST handler walks in key order and the QUERY handler looks up.
 */
module StafCommandFactory {
  import opened Dom
  import opened Content
  import opened Jobs

  // ---------------------------------------------------------------------
  // The action and its fields
  // ---------------------------------------------------------------------

  /** The sub-elements of `<stafcmd>` whose text sets a field. */
  datatype Part = Location | Service | Request

  function Tag(p: Part): string
  {
    match p
    case Location => "location"
    case Service => "service"
    case Request => "request"
  }

  /** The `switch` on a child element's name. */
  function PartNamed(name: string): Option<Part>
  {
    if name == "location" then Some(Location)
    else if name == "service" then Some(Service)
    else if name == "request" then Some(Request)
    else None
  }

  /**
    The fields of a STAXSTAFCommandAction that parsing sets. A field the
    element never sets is None: it keeps the action's initial value.
   */
  datatype StafCmdFields = StafCmdFields(
    name: Option<string>,
    location: Option<string>,
    service: Option<string>,
    request: Option<string>,
    lineNumber: int,
    xmlFile: string,
    xmlMachine: string)
  {
    function PartValue(p: Part): Option<string>
    {
      match p
      case Location => location
      case Service => service
      case Request => request
    }

    function WithPart(p: Part, v: string): StafCmdFields
    {
      match p
      case Location => this.(location := Some(v))
      case Service => this.(service := Some(v))
      case Request => this.(request := Some(v))
    }
  }

  /** The action object the factory fills in through its setters. */
  class StafCommandAction {
    var name: Option<string>
    var location: Option<string>
    var service: Option<string>
    var request: Option<string>
    var lineNumber: int
    var xmlFile: string
    var xmlMachine: string

    constructor ()
      ensures Fields() == StafCmdFields(None, None, None, None, 0, "", "")
    {
      name, location, service, request := None, None, None, None;
      lineNumber, xmlFile, xmlMachine := 0, "", "";
    }

    function Fields(): StafCmdFields
      reads this
    {
      StafCmdFields(name, location, service, request, lineNumber, xmlFile, xmlMachine)
    }
  }

  // ---------------------------------------------------------------------
  // handleChild: the text of <location>, <service> or <request>
  // ---------------------------------------------------------------------

  /** Children `handleChild` passes over without effect. */
  predicate IsSkipped(n: Node)
  {
    n.Comment? || n.CData?
  }

  /**
    What `handleChild` returns for the element called `element` with these
    children: it stops at the first child that is not a comment or CDATA
    section, returning that child's text compiled or rejecting it.
   */
  function HandleChildSpec(element: string, children: seq<Node>, compile: Compiler): Result<string>
    decreases |children|
  {
    if children == [] then Ok("")
    else
      match children[0]
      case Comment(_) => HandleChildSpec(element, children[1..], compile)
      case CData(_) => HandleChildSpec(element, children[1..], compile)
      case Text(s) => Ok(compile(s))
      case _ => Err(InvalidXMLNodeType(element, NodeType(children[0])))
  }

  method HandleChild(root: Node, compile: Compiler) returns (r: Result<string>)
    requires root.Element?
    ensures r == HandleChildSpec(root.name, root.children, compile)
  {
    var children := root.children;
    var i := 0;
    while i < |children|
      invariant 0 <= i <= |children|
      invariant HandleChildSpec(root.name, children[i..], compile) == HandleChildSpec(root.name, children, compile)
    {
      var thisChild := children[i];
      match thisChild {
        case Comment(_) =>
        case Text(s) =>
          return Ok(compile(s));
        case CData(_) =>
        case _ =>
          return Err(InvalidXMLNodeType(root.name, NodeType(thisChild)));
      }
      assert children[i..][1..] == children[i + 1..];
      i := i + 1;
    }
    return Ok("");
  }

  /**
    The first text child, compiled, is the result, provided only comments and
    CDATA sections come before it; nothing after it is looked at.
   */
  lemma {:induction false} HandleChildTakesFirstText(element: string, children: seq<Node>, compile: Compiler, i: int)
    requires 0 <= i < |children| && children[i].Text?
    requires forall j :: 0 <= j < i ==> IsSkipped(children[j])
    ensures HandleChildSpec(element, children, compile) == Ok(compile(children[i].value))
    decreases i
  {
    if i > 0 {
      assert IsSkipped(children[0]);
      assert forall j :: 0 <= j < i - 1 ==> children[1..][j] == children[j + 1];
      HandleChildTakesFirstText(element, children[1..], compile, i - 1);
    }
  }

  /**
    Any other node type (an element, an entity reference, a processing
    instruction) before the first text child is rejected, with its type code.
   */
  lemma {:induction false} HandleChildRejects(element: string, children: seq<Node>, compile: Compiler, i: int)
    requires 0 <= i < |children| && !IsSkipped(children[i]) && !children[i].Text?
    requires forall j :: 0 <= j < i ==> IsSkipped(children[j])
    ensures HandleChildSpec(element, children, compile) == Err(InvalidXMLNodeType(element, NodeType(children[i])))
    decreases i
  {
    if i > 0 {
      assert IsSkipped(children[0]);
      assert forall j :: 0 <= j < i - 1 ==> children[1..][j] == children[j + 1];
      HandleChildRejects(element, children[1..], compile, i - 1);
    }
  }

  /** Only comments and CDATA sections: the result is the empty string. */
  lemma {:induction false} HandleChildEmpty(element: string, children: seq<Node>, compile: Compiler)
    requires forall j :: 0 <= j < |children| ==> IsSkipped(children[j])
    ensures HandleChildSpec(element, children, compile) == Ok("")
    decreases |children|
  {
    if children != [] {
      assert IsSkipped(children[0]);
      assert forall j :: 0 <= j < |children| - 1 ==> children[1..][j] == children[j + 1];
      HandleChildEmpty(element, children[1..], compile);
    }
  }

  // ---------------------------------------------------------------------
  // parseAction
  // ---------------------------------------------------------------------

  /**
    One turn of the child loop of `parseAction`. Every element child moves
    the line number; one named location, service or request sets that field
    from `handleChild`. All other nodes are passed over.
   */
  function ChildStep(compile: Compiler, f: StafCmdFields, n: Node): Result<StafCmdFields>
  {
    match n
    case Element(nm, line, _, kids) =>
      var g := f.(lineNumber := line);
      (match PartNamed(nm)
       case None => Ok(g)
       case Some(p) =>
         match HandleChildSpec(nm, kids, compile)
         case Err(e) => Err(e)
         case Ok(v) => Ok(g.WithPart(p, v)))
    case _ => Ok(f)
  }

  function ChildStepFn(compile: Compiler): (StafCmdFields, Node) -> Result<StafCmdFields>
  {
    (f, n) => ChildStep(compile, f, n)
  }

  function ApplyChildren(children: seq<Node>, compile: Compiler, f: StafCmdFields): Result<StafCmdFields>
  {
    Fold(children, ChildStepFn(compile), f)
  }

  /** The fields once the attribute loop is done. */
  function AfterAttributes(root: Node, xmlFile: string, xmlMachine: string, compile: Compiler): StafCmdFields
    requires root.Element?
  {
    StafCmdFields(CompiledAttr(root.attrs, "name", compile, None), None, None, None, root.line, xmlFile, xmlMachine)
  }

  /** The outcome of `parseAction` on a `<stafcmd>` element. */
  function ParseStafCmd(root: Node, xmlFile: string, xmlMachine: string, compile: Compiler): Result<StafCmdFields>
    requires root.Element?
  {
    ApplyChildren(root.children, compile, AfterAttributes(root, xmlFile, xmlMachine, compile))
  }

  method ParseAction(job: Job, root: Node, compile: Compiler) returns (r: Result<StafCommandAction>)
    requires root.Element?
    ensures match r
            case Ok(action) => ParseStafCmd(root, job.xmlFile, job.xmlMachine, compile) == Ok(action.Fields())
            case Err(e) => ParseStafCmd(root, job.xmlFile, job.xmlMachine, compile) == Err(e)
  {
    var action := new StafCommandAction();
    action.lineNumber := root.line;
    action.xmlFile := job.xmlFile;
    action.xmlMachine := job.xmlMachine;

    var attrs := root.attrs;
    var i := 0;
    while i < |attrs|
      invariant 0 <= i <= |attrs|
      invariant action.Fields() ==
                StafCmdFields(CompiledAttr(attrs[..i], "name", compile, None), None, None, None,
                              root.line, job.xmlFile, job.xmlMachine)
    {
      var thisAttr := attrs[i];
      if thisAttr.name == "name" {
        action.name := Some(compile(thisAttr.value));
      }
      assert attrs[..i + 1][..i] == attrs[..i];
      i := i + 1;
    }
    assert attrs[..i] == attrs;

    ghost var init := action.Fields();
    var children := root.children;
    i := 0;
    while i < |children|
      invariant 0 <= i <= |children|
      invariant ApplyChildren(children[..i], compile, init) == Ok(action.Fields())
    {
      var thisChild := children[i];
      assert children[..i + 1][..i] == children[..i];
      match thisChild {
        case Element(nm, line, _, _) =>
          action.lineNumber := line;
          if nm == "location" || nm == "service" || nm == "request" {
            var v := HandleChild(thisChild, compile);
            if v.Err? {
              FoldConcat(children[..i + 1], children[i + 1..], ChildStepFn(compile), init);
              assert children[..i + 1] + children[i + 1..] == children;
              return Err(v.error);
            }
            if nm == "location" {
              action.location := Some(v.value);
            } else if nm == "service" {
              action.service := Some(v.value);
            } else {
              action.request := Some(v.value);
            }
          }
        case _ =>
      }
      i := i + 1;
    }
    assert children[..i] == children;
    return Ok(action);
  }

  /** A child element named after `p`. */
  predicate Names(n: Node, p: Part)
  {
    n.Element? && n.name == Tag(p)
  }

  /** A location, service or request child whose own content is rejected. */
  predicate PartFails(n: Node, compile: Compiler)
  {
    n.Element? && PartNamed(n.name).Some? && HandleChildSpec(n.name, n.children, compile).Err?
  }

  /**
    The child loop fails exactly when one of the location, service or request
    children fails in `handleChild`; every other child is harmless.
   */
  lemma {:induction false} ApplyChildrenFailsIffPartFails(children: seq<Node>, compile: Compiler, f: StafCmdFields)
    ensures ApplyChildren(children, compile, f).Err? <==>
            exists i :: 0 <= i < |children| && PartFails(children[i], compile)
    decreases |children|
  {
    if children != [] {
      var p := children[..|children| - 1];
      ApplyChildrenFailsIffPartFails(p, compile, f);
      if exists i :: 0 <= i < |children| && PartFails(children[i], compile) {
        var i :| 0 <= i < |children| && PartFails(children[i], compile);
        if i < |p| {
          assert p[i] == children[i];
        }
      } else {
        assert forall i :: 0 <= i < |p| ==> p[i] == children[i];
      }
    }
  }

  /** The error reported is that of the FIRST failing child; later children are not looked at. */
  lemma {:induction false} FirstFailureReported(children: seq<Node>, compile: Compiler, f: StafCmdFields, i: int)
    requires 0 <= i < |children| && PartFails(children[i], compile)
    requires forall j :: 0 <= j < i ==> !PartFails(children[j], compile)
    ensures ApplyChildren(children, compile, f) ==
            Err(HandleChildSpec(children[i].name, children[i].children, compile).error)
  {
    var upTo := children[..i + 1];
    assert upTo[..i] == children[..i];
    ApplyChildrenFailsIffPartFails(children[..i], compile, f);
    FoldConcat(upTo, children[i + 1..], ChildStepFn(compile), f);
    assert upTo + children[i + 1..] == children;
  }

  /**
    When the element is accepted, each of location, service and request is the
    `handleChild` result of the LAST child element with that name: a repeated
    element overwrites the earlier one.
   */
  lemma {:induction false} PartFromLastElement(children: seq<Node>, compile: Compiler, f: StafCmdFields, p: Part, i: int)
    requires ApplyChildren(children, compile, f).Ok?
    requires 0 <= i < |children| && Names(children[i], p)
    requires forall j :: i < j < |children| ==> !Names(children[j], p)
    ensures HandleChildSpec(Tag(p), children[i].children, compile).Ok?
    ensures ApplyChildren(children, compile, f).value.PartValue(p) ==
            Some(HandleChildSpec(Tag(p), children[i].children, compile).value)
    decreases |children|
  {
    var pre := children[..|children| - 1];
    assert PartNamed(Tag(p)) == Some(p);
    if i < |pre| {
      assert pre[i] == children[i];
      PartFromLastElement(pre, compile, f, p, i);
    }
  }

  /** Without a child element of that name the field keeps its value. */
  lemma {:induction false} PartUnsetWithoutElement(children: seq<Node>, compile: Compiler, f: StafCmdFields, p: Part)
    requires ApplyChildren(children, compile, f).Ok?
    requires forall j :: 0 <= j < |children| ==> !Names(children[j], p)
    ensures ApplyChildren(children, compile, f).value.PartValue(p) == f.PartValue(p)
    decreases |children|
  {
    if children != [] {
      PartUnsetWithoutElement(children[..|children| - 1], compile, f, p);
    }
  }

  /**
    When the element is accepted, the line number is that of the last child
    element, whatever its name.
   */
  lemma {:induction false} LineNumberFromLastElement(children: seq<Node>, compile: Compiler, f: StafCmdFields, i: int)
    requires ApplyChildren(children, compile, f).Ok?
    requires 0 <= i < |children| && children[i].Element?
    requires forall j :: i < j < |children| ==> !children[j].Element?
    ensures ApplyChildren(children, compile, f).value.lineNumber == children[i].line
    decreases |children|
  {
    var pre := children[..|children| - 1];
    if i < |pre| {
      assert pre[i] == children[i];
      LineNumberFromLastElement(pre, compile, f, i);
    }
  }

  /**
    The children never change the name, the file or the machine, and without
    a child element they leave the line number alone.
   */
  lemma {:induction false} ChildrenKeepHeader(children: seq<Node>, compile: Compiler, f: StafCmdFields)
    requires ApplyChildren(children, compile, f).Ok?
    ensures var g := ApplyChildren(children, compile, f).value;
            g.name == f.name && g.xmlFile == f.xmlFile && g.xmlMachine == f.xmlMachine
    ensures (forall j :: 0 <= j < |children| ==> !children[j].Element?) ==>
            ApplyChildren(children, compile, f).value.lineNumber == f.lineNumber
    decreases |children|
  {
    if children != [] {
      ChildrenKeepHeader(children[..|children| - 1], compile, f);
    }
  }

  /** A top-level text node, CDATA section, comment or other non-element changes nothing. */
  lemma NonElementChildIgnored(a: seq<Node>, n: Node, b: seq<Node>, compile: Compiler, f: StafCmdFields)
    requires !n.Element?
    ensures ApplyChildren(a + [n] + b, compile, f) == ApplyChildren(a + b, compile, f)
  {
    var step := ChildStepFn(compile);
    assert [n][..0] == [];
    forall s: StafCmdFields
      ensures Fold([n] + b, step, s) == Fold(b, step, s)
    {
      FoldConcat([n], b, step, s);
    }
    assert a + [n] + b == a + ([n] + b);
    FoldConcat(a, [n] + b, step, f);
    FoldConcat(a, b, step, f);
  }

  /**
    The action's name comes only from an attribute called "name" (the last
    one, compiled); without one it is never set. The file and machine are the
    job's.
   */
  lemma NameFromNameAttribute(root: Node, xmlFile: string, xmlMachine: string, compile: Compiler)
    requires root.Element? && ParseStafCmd(root, xmlFile, xmlMachine, compile).Ok?
    ensures var g := ParseStafCmd(root, xmlFile, xmlMachine, compile).value;
            g.xmlFile == xmlFile && g.xmlMachine == xmlMachine
    ensures (forall j :: 0 <= j < |root.attrs| ==> root.attrs[j].name != "name") ==>
            ParseStafCmd(root, xmlFile, xmlMachine, compile).value.name == None
    ensures forall i :: 0 <= i < |root.attrs| && root.attrs[i].name == "name" &&
                        (forall j :: i < j < |root.attrs| ==> root.attrs[j].name != "name") ==>
            ParseStafCmd(root, xmlFile, xmlMachine, compile).value.name == Some(compile(root.attrs[i].value))
  {
    ChildrenKeepHeader(root.children, compile, AfterAttributes(root, xmlFile, xmlMachine, compile));
    if forall j :: 0 <= j < |root.attrs| ==> root.attrs[j].name != "name" {
      CompiledAttrUnset(root.attrs, "name", compile, None);
    }
    forall i | 0 <= i < |root.attrs| && root.attrs[i].name == "name" &&
               (forall j :: i < j < |root.attrs| ==> root.attrs[j].name != "name")
      ensures ParseStafCmd(root, xmlFile, xmlMachine, compile).value.name == Some(compile(root.attrs[i].value))
    {
      CompiledAttrFromLast(root.attrs, "name", compile, None, i);
    }
  }

  // ---------------------------------------------------------------------
  // The job's map of running commands: initJob, LIST and QUERY
  // ---------------------------------------------------------------------

  /** initJob: the job starts with an empty command map. */
  method InitJob(job: Job)
    modifies job
    ensures job.stafcmdRequestMap == Some(EmptyRequestMap)
  {
    job.stafcmdRequestMap := Some(EmptyRequestMap);
  }

  /**
    `equalsIgnoreCase` compares characters after mapping each to upper and
    then to lower case. The ASCII letters and the four non-ASCII characters
    whose folding lands on an ASCII letter are mapped here.
   */
  function FoldCase(c: char): char
  {
    if 'A' <= c <= 'Z' then (c as int + 32) as char
    else if c == '\U{017F}' then 's'
    else if c == '\U{0130}' || c == '\U{0131}' then 'i'
    else if c == '\U{212A}' then 'k'
    else c
  }

  predicate EqualsIgnoreCase(a: string, b: string)
  {
    |a| == |b| && forall i :: 0 <= i < |a| ==> FoldCase(a[i]) == FoldCase(b[i])
  }

  const OkRC := 0
  const DoesNotExistRC := 48

  const StafcmdInfoMapClassName := "STAF/Service/STAX/StafcmdInfo"
  const QueryStafcmdMapClassName := "STAF/Service/STAX/QueryStafcmd"

  /** One entry of the LIST output. */
  datatype StafcmdInfo = StafcmdInfo(
    mapClassName: string,
    stafcmdName: string,
    location: string,
    requestNum: int,
    service: string,
    request: string)

  /** The QUERY output. */
  datatype StafcmdDetail = StafcmdDetail(
    mapClassName: string,
    stafcmdName: string,
    location: string,
    requestNum: int,
    service: string,
    request: string,
    blockName: string,
    threadID: int,
    startTimestamp: string)

  /** The result buffer before marshalling. */
  datatype Marshalled = Plain(text: string) | InfoList(entries: seq<StafcmdInfo>) | Detail(detail: StafcmdDetail)

  datatype StafResult = StafResult(rc: int, result: Marshalled)

  /** `mask` is STAFUtil.maskPrivateData, applied to the request. */
  function Info(c: CommandRecord, mask: string -> string): StafcmdInfo
  {
    StafcmdInfo(StafcmdInfoMapClassName, c.name, c.location, c.requestNumber, c.service, mask(c.request))
  }

  function DetailOf(c: CommandRecord, mask: string -> string): StafcmdDetail
  {
    StafcmdDetail(QueryStafcmdMapClassName, c.name, c.location, c.requestNumber, c.service, mask(c.request),
                  c.blockName, c.threadNumber, c.startTimestamp)
  }

  /** The part of a QUERY answer that a LIST entry also shows. */
  function Summary(d: StafcmdDetail): StafcmdInfo
  {
    StafcmdInfo(StafcmdInfoMapClassName, d.stafcmdName, d.location, d.requestNum, d.service, d.request)
  }

  /** One entry per stored command, in the map's iteration order. */
  function ListEntries(m: RequestMap, mask: string -> string): seq<StafcmdInfo>
    requires m.Valid()
  {
    seq(|m.keys|, i requires 0 <= i < |m.keys| => Info(m.commands[m.keys[i]], mask))
  }

  method HandleListRequest(typeName: string, job: Job, mask: string -> string) returns (r: StafResult)
    requires job.stafcmdRequestMap.Some? ==> job.stafcmdRequestMap.value.Valid()
    ensures !EqualsIgnoreCase(typeName, "stafcmds") ==> r == StafResult(DoesNotExistRC, Plain(typeName))
    ensures EqualsIgnoreCase(typeName, "stafcmds") && job.stafcmdRequestMap.None? ==>
            r == StafResult(OkRC, InfoList([]))
    ensures EqualsIgnoreCase(typeName, "stafcmds") && job.stafcmdRequestMap.Some? ==>
            r == StafResult(OkRC, InfoList(ListEntries(job.stafcmdRequestMap.value, mask)))
  {
    if EqualsIgnoreCase(typeName, "stafcmds") {
      var stafcmdOutputList: seq<StafcmdInfo> := [];
      var stafcmds := job.stafcmdRequestMap;
      if stafcmds.Some? {
        var m := stafcmds.value;
        var i := 0;
        while i < |m.keys|
          invariant 0 <= i <= |m.keys|
          invariant stafcmdOutputList == ListEntries(m, mask)[..i]
        {
          stafcmdOutputList := stafcmdOutputList + [Info(m.commands[m.keys[i]], mask)];
          i := i + 1;
        }
        assert ListEntries(m, mask)[..i] == ListEntries(m, mask);
      }
      r := StafResult(OkRC, InfoList(stafcmdOutputList));
    } else {
      r := StafResult(DoesNotExistRC, Plain(typeName));
    }
  }

  /** The answer to QUERY with this type and key against the stored map. */
  function QueryResult(typeName: string, key: string, stored: Option<RequestMap>, mask: string -> string): StafResult
  {
    if !EqualsIgnoreCase(typeName, "stafcmd") then StafResult(DoesNotExistRC, Plain(typeName))
    else if stored.None? || key !in stored.value.commands then StafResult(DoesNotExistRC, Plain(key))
    else StafResult(OkRC, Detail(DetailOf(stored.value.commands[key], mask)))
  }

  method HandleQueryRequest(typeName: string, key: string, job: Job, mask: string -> string) returns (r: StafResult)
    ensures !EqualsIgnoreCase(typeName, "stafcmd") ==> r == StafResult(DoesNotExistRC, Plain(typeName))
    ensures EqualsIgnoreCase(typeName, "stafcmd") && job.stafcmdRequestMap.None? ==>
            r == StafResult(DoesNotExistRC, Plain(key))
    ensures EqualsIgnoreCase(typeName, "stafcmd") && job.stafcmdRequestMap.Some? ==>
            r == if key in job.stafcmdRequestMap.value.commands
                 then StafResult(OkRC, Detail(DetailOf(job.stafcmdRequestMap.value.commands[key], mask)))
                 else StafResult(DoesNotExistRC, Plain(key))
    ensures r == QueryResult(typeName, key, job.stafcmdRequestMap, mask)
  {
    if EqualsIgnoreCase(typeName, "stafcmd") {
      var stafcmds := job.stafcmdRequestMap;
      if stafcmds.None? {
        return StafResult(DoesNotExistRC, Plain(key));
      }
      if key !in stafcmds.value.commands {
        return StafResult(DoesNotExistRC, Plain(key));
      }
      var command := stafcmds.value.commands[key];
      return StafResult(OkRC, Detail(DetailOf(command, mask)));
    } else {
      return StafResult(DoesNotExistRC, Plain(typeName));
    }
  }

  /** Distinct keys: as many as there are elements of the key set. */
  lemma {:induction false} DistinctKeysCount(s: seq<string>)
    requires forall i, j :: 0 <= i < j < |s| ==> s[i] != s[j]
    ensures |(set k | k in s)| == |s|
    decreases |s|
  {
    if s != [] {
      var p := s[..|s| - 1];
      DistinctKeysCount(p);
      assert (set k | k in s) == (set k | k in p) + {s[|s| - 1]};
      assert s[|s| - 1] !in (set k | k in p);
    }
  }

  /**
    The LIST output has exactly one entry per stored command, in ascending
    key order, and every stored command appears in it.
   */
  lemma ListOnePerCommandInKeyOrder(m: RequestMap, mask: string -> string)
    requires m.Valid()
    ensures |ListEntries(m, mask)| == |m.commands|
    ensures forall i, j :: 0 <= i < j < |ListEntries(m, mask)| ==> StringLess(m.keys[i], m.keys[j])
    ensures forall k :: k in m.commands ==>
              exists i :: 0 <= i < |m.keys| && m.keys[i] == k && ListEntries(m, mask)[i] == Info(m.commands[k], mask)
  {
    forall i, j | 0 <= i < j < |m.keys|
      ensures m.keys[i] != m.keys[j]
    {
      StringLessIrreflexive(m.keys[i]);
    }
    DistinctKeysCount(m.keys);
    assert m.commands.Keys == set k | k in m.keys;
    forall k | k in m.commands
      ensures exists i :: 0 <= i < |m.keys| && m.keys[i] == k && ListEntries(m, mask)[i] == Info(m.commands[k], mask)
    {
      var i :| 0 <= i < |m.keys| && m.keys[i] == k;
    }
  }

  /**
    QUERY finds exactly the commands LIST shows, and what it reports for one
    agrees with that command's LIST entry.
   */
  lemma QueryAgreesWithList(typeName: string, key: string, m: RequestMap, mask: string -> string)
    requires m.Valid() && EqualsIgnoreCase(typeName, "stafcmd")
    ensures QueryResult(typeName, key, Some(m), mask).rc == OkRC <==> key in m.keys
    ensures key !in m.keys ==> QueryResult(typeName, key, Some(m), mask) == StafResult(DoesNotExistRC, Plain(key))
    ensures forall i :: 0 <= i < |m.keys| && m.keys[i] == key ==>
              Summary(QueryResult(typeName, key, Some(m), mask).result.detail) == ListEntries(m, mask)[i]
  {
  }

  /** After initJob, LIST shows nothing and QUERY finds nothing. */
  lemma FreshJobHasNoCommands(typeName: string, key: string, mask: string -> string)
    requires EqualsIgnoreCase(typeName, "stafcmd")
    ensures EmptyRequestMap.Valid() && ListEntries(EmptyRequestMap, mask) == []
    ensures QueryResult(typeName, key, Some(EmptyRequestMap), mask) == StafResult(DoesNotExistRC, Plain(key))
  {
  }
}
