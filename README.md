# STAX action factories in Dafny

STAX is the job-execution service of STAF. It reads an XML job document, and for each
element an action factory builds the action that will run it. This project models
how four of those factories read an element: which attributes and child nodes set
which field of the action, which nodes they pass over, and when they reject the
element with an "invalid node type" error. It also models the LIST and QUERY
request handlers of the `<stafcmd>` factory over the job's sorted map of running
STAF commands.

Modules:

- `Dom` (`dom.dfy`): the DOM as a datatype. An element carries its name, line
  number, attributes and children. The node type codes follow `org.w3c.dom.Node`.
  The module also holds the two errors (`InvalidXMLNodeType` with the element name
  and the offending type code, and a plain `StaxException`), a `Result` type, and
  `Compiler`. `Compiler` is the Python compilation
  (`STAXUtil.parseAndCompileForPython`) as a total function parameter.
- `Content` (`content.dfy`): the shared loop shapes, written as prefix folds. One is
  "the last attribute with this name wins". The other is the text-content loop of
  `<call>` and `<script>`: comments pass, each text overwrites, anything else fails.
- `Jobs` (`job.dfy`): the job's file, machine, and "stafcmdRequestMap" data slot.
  The slot is a `TreeMap` modelled as a key sequence that ascends in Java `String`
  order, plus a map from key to command.
- `StafCommandFactory` (`stafcmd.dfy`): the `<stafcmd>` factory (`parseAction`,
  `handleChild`, `initJob`, LIST, QUERY).
- `CallFactory` (`call.dfy`) and `ScriptFactory` (`script.dfy`): the `<call>` and
  `<script>` factories.
- `FactorySupport` (`support.dfy`): the generic `ActionFactorySupport` template.
  - Its overridable hooks and the action's `cloneAction` are function fields of
    `Hooks`.
  - The action is a value whose `fields` stand for the subclass's own state.
  - Parsing also returns the sequence of hook calls it made, so dispatch order can
    be stated.

Each `parseAction` is a method with the loops the Java code has, working on a class
that holds the action's fields. Its postcondition ties the result, or the error, to
a specification function: `ParseStafCmd`, `ParseCall`, `ParseScript` or
`ParseSpec`. The lemmas state what those functions promise. A field the element
never sets is `None`, meaning it keeps the initial value of the action class.

## Model

| member | source | states |
|---|---|---|
| StafCommandFactory.HandleChild | stax/src/main/java/com/ibm/staf/service/stax/STAXSTAFCommandActionFactory.java:144-170 | the loop with its early returns yields exactly `HandleChildSpec`: comments and CDATA are passed over, the first text is compiled and returned, and any other node type is rejected with its type code |
| StafCommandFactory.HandleChildTakesFirstText | stax/src/main/java/com/ibm/staf/service/stax/STAXSTAFCommandActionFactory.java:147-158 | when only comments and CDATA precede a text child, the result is that text compiled, whatever follows it |
| StafCommandFactory.HandleChildRejects | stax/src/main/java/com/ibm/staf/service/stax/STAXSTAFCommandActionFactory.java:162-165 | a node of any other type before the first text rejects the element with `InvalidXMLNodeType(element, its type code)` |
| StafCommandFactory.HandleChildEmpty | stax/src/main/java/com/ibm/staf/service/stax/STAXSTAFCommandActionFactory.java:153-169 | with only comments and CDATA sections (or no children), the result is the empty string |
| StafCommandFactory.ParseAction | stax/src/main/java/com/ibm/staf/service/stax/STAXSTAFCommandActionFactory.java:86-136 | the attribute loop and the child loop give an action whose fields equal `ParseStafCmd`, or the error `ParseStafCmd` reports |
| StafCommandFactory.NameFromNameAttribute | stax/src/main/java/com/ibm/staf/service/stax/STAXSTAFCommandActionFactory.java:97-105 | the name is the compiled value of the last attribute called "name" and is unset without one; file and machine are the job's |
| StafCommandFactory.ApplyChildrenFailsIffPartFails | stax/src/main/java/com/ibm/staf/service/stax/STAXSTAFCommandActionFactory.java:108-133 | the child loop fails if and only if some location, service or request child fails in `handleChild` |
| StafCommandFactory.FirstFailureReported | stax/src/main/java/com/ibm/staf/service/stax/STAXSTAFCommandActionFactory.java:120-130 | the error reported is that of the first failing child |
| StafCommandFactory.PartFromLastElement | stax/src/main/java/com/ibm/staf/service/stax/STAXSTAFCommandActionFactory.java:117-131 | location, service and request each come from `handleChild` of the last child element with exactly that name; a repeated element overwrites the earlier one |
| StafCommandFactory.PartUnsetWithoutElement | stax/src/main/java/com/ibm/staf/service/stax/STAXSTAFCommandActionFactory.java:120-130 | without a child element of that name, the field keeps its earlier value |
| StafCommandFactory.LineNumberFromLastElement | stax/src/main/java/com/ibm/staf/service/stax/STAXSTAFCommandActionFactory.java:117-118 | on success the line number is that of the last child element, whatever its name |
| StafCommandFactory.ChildrenKeepHeader | stax/src/main/java/com/ibm/staf/service/stax/STAXSTAFCommandActionFactory.java:108-133 | the children never change the name, file or machine, and without child elements they leave the line number alone |
| StafCommandFactory.NonElementChildIgnored | stax/src/main/java/com/ibm/staf/service/stax/STAXSTAFCommandActionFactory.java:113-132 | removing a non-element child (text, CDATA, comment, ...) from the children does not change the outcome |
| StafCommandFactory.InitJob | stax/src/main/java/com/ibm/staf/service/stax/STAXSTAFCommandActionFactory.java:175-182 | the job's "stafcmdRequestMap" slot holds an empty map |
| StafCommandFactory.HandleListRequest | stax/src/main/java/com/ibm/staf/service/stax/STAXSTAFCommandActionFactory.java:189-229 | a type other than "stafcmds" (ignoring case) gives DoesNotExist (48) with the type; otherwise Ok (0) with one entry per command in key order, or an empty list when no map is stored |
| StafCommandFactory.ListOnePerCommandInKeyOrder | stax/src/main/java/com/ibm/staf/service/stax/STAXSTAFCommandActionFactory.java:202-222 | the LIST output has exactly as many entries as stored commands, in ascending key order, and every stored command appears at its key's position |
| StafCommandFactory.HandleQueryRequest | stax/src/main/java/com/ibm/staf/service/stax/STAXSTAFCommandActionFactory.java:233-272 | a type other than "stafcmd" gives DoesNotExist with the type; a missing map or key gives DoesNotExist with the key; otherwise Ok with the command's details |
| StafCommandFactory.QueryAgreesWithList | stax/src/main/java/com/ibm/staf/service/stax/STAXSTAFCommandActionFactory.java:242-265 | QUERY succeeds exactly for the keys LIST shows, and its answer, cut down to the LIST columns, equals that key's LIST entry |
| StafCommandFactory.FreshJobHasNoCommands | stax/src/main/java/com/ibm/staf/service/stax/STAXSTAFCommandActionFactory.java:175-176 | the map stored by `initJob` is well formed, LIST over it is empty, and QUERY finds no key in it |
| CallFactory.ParseAction | stax/src/main/java/com/ibm/staf/service/stax/STAXCallActionFactory.java:38-95 | the attribute loop, the call-type assignment and the child loop give an action whose fields equal `ParseCall`, or the error it reports |
| CallFactory.CallFunctionFromAttribute | stax/src/main/java/com/ibm/staf/service/stax/STAXCallActionFactory.java:49-59 | the function is the compiled value of the last attribute called "function" and is unset without one |
| CallFactory.CallAcceptedIffContentOnly | stax/src/main/java/com/ibm/staf/service/stax/STAXCallActionFactory.java:63-92 | a call is accepted if and only if every child is a comment or text; an accepted call is always the one-argument form and carries the element's line, file and machine |
| CallFactory.CallArgsFromLastText | stax/src/main/java/com/ibm/staf/service/stax/STAXCallActionFactory.java:76-80 | the arguments are the last text child, compiled |
| CallFactory.CallArgsUnsetWithoutText | stax/src/main/java/com/ibm/staf/service/stax/STAXCallActionFactory.java:69-80 | with comments only, the arguments are never set |
| CallFactory.CallRejectsInvalidChild | stax/src/main/java/com/ibm/staf/service/stax/STAXCallActionFactory.java:81-90 | the first child that is neither comment nor text (an element, CDATA, ...) rejects the call with its type code |
| ScriptFactory.ParseAction | stax/src/main/java/com/ibm/staf/service/stax/STAXScriptActionFactory.java:30-60 | the child loop gives an action whose fields equal `ParseScript`, or the error it reports |
| ScriptFactory.ScriptIgnoresAttributes | stax/src/main/java/com/ibm/staf/service/stax/STAXScriptActionFactory.java:30-59 | replacing the root's attributes does not change the outcome |
| ScriptFactory.ScriptAcceptedIffContentOnly | stax/src/main/java/com/ibm/staf/service/stax/STAXScriptActionFactory.java:34-57 | a script is accepted if and only if every child is a comment or text, with the element's line, file and machine |
| ScriptFactory.ScriptValueFromLastText | stax/src/main/java/com/ibm/staf/service/stax/STAXScriptActionFactory.java:44-51 | the value is the last text child, compiled, and is unset with comments only |
| ScriptFactory.ScriptRejectsInvalidChild | stax/src/main/java/com/ibm/staf/service/stax/STAXScriptActionFactory.java:52-55 | the first child that is neither comment nor text rejects the script with its type code |
| FactorySupport.CreateAction | stax/src/main/java/com/ibm/staf/service/stax/ActionFactorySupport.java:64-71 | instantiation succeeds exactly when the class yields an instance; otherwise a `StaxException` names the class after the "cannot instantiate" prefix |
| FactorySupport.ActionFactorySupport.ParseAction | stax/src/main/java/com/ibm/staf/service/stax/ActionFactorySupport.java:18-57 | the result and the hook calls made equal `ParseSpec`; a successful result is `cloneAction` of the built action |
| FactorySupport.RootAttributesFirstAndOnce | stax/src/main/java/com/ibm/staf/service/stax/ActionFactorySupport.java:25-43 | the root-attribute hook is the first call and is never called again; every later call is a child's hook |
| FactorySupport.DispatchChildrenInOrder | stax/src/main/java/com/ibm/staf/service/stax/ActionFactorySupport.java:31-43 | the n-th hook call is for the n-th child: comment to the comment hook, element to the child hook, text to the text hook; on success every child was dispatched |
| FactorySupport.SuccessDispatchesEveryChild | stax/src/main/java/com/ibm/staf/service/stax/ActionFactorySupport.java:31-54 | a successful parse made one call per child plus the root call, and no child had a type without a hook |
| FactorySupport.DispatchStopsAtError | stax/src/main/java/com/ibm/staf/service/stax/ActionFactorySupport.java:44-52 | once dispatch has failed, later children change neither the outcome nor the calls made |
| FactorySupport.InvalidNodeRejected | stax/src/main/java/com/ibm/staf/service/stax/ActionFactorySupport.java:44-52 | a child of another type (CDATA, entity reference, processing instruction) fails with `InvalidXMLNodeType(root, its type code)`, and no hook is called for it or any later child |
| FactorySupport.DefaultHooksKeepFields | stax/src/main/java/com/ibm/staf/service/stax/ActionFactorySupport.java:76-86 | with the no-op hooks and valid children, the result is the clone of the instance with only line number, file and machine changed |
| FactorySupport.DefaultHooksRejectFirstInvalid | stax/src/main/java/com/ibm/staf/service/stax/ActionFactorySupport.java:44-52 | with the no-op hooks, the first child without a hook fails the parse after exactly the root call and one call per earlier child |
| FactorySupport.InstantiationFailureReported | stax/src/main/java/com/ibm/staf/service/stax/ActionFactorySupport.java:64-70 | if the class cannot be instantiated, the parse fails with that `StaxException` before any hook runs |

## Left out

- Python compilation (`STAXUtil.parseAndCompileForPython`) is the total function `compile`. The `STAXPythonEvaluationException` it can throw on a syntax error is not modelled, so an attribute or text never fails to compile here.
- `setElementInfo`, `setActionFactory` and `STAXUtil.formatErrorMessage` only shape error messages; the error carries just the element name and the node type code.
- `initJob`: the failure path of `job.setData` is not modelled (STAXJob is not part of this model). Neither is the job log written on that failure. The slot is always set.
- `terminateJob` does nothing, and `handleQueryJobRequest` always answers Ok with an empty string; neither is modelled.
- LIST and QUERY: STAF marshalling is modelled as structured values, `Plain`, `InfoList` and `Detail`, rather than marshalled text. `STAFUtil.maskPrivateData` is a function parameter `mask`.
- The start timestamp is modelled as a string already formatted. The thread is modelled by its number.
- `synchronized` blocks are not modelled; the model is sequential.
- Adding and removing commands in the request map is done by the STAF command action, which is not part of this model. The map's well-formedness (`RequestMap.Valid`) is therefore a precondition of LIST.
- `EqualsIgnoreCase` maps ASCII letters and four non-ASCII characters that fold onto ASCII letters (U+017F, U+0130, U+0131, U+212A). Other non-ASCII case pairs are compared as distinct characters. This does not affect the comparison with "stafcmds" and "stafcmd", because only characters that fold to ASCII letters can match.
- `StringLess` compares `char` values; Java compares UTF-16 code units. The two orders differ only for characters outside the Basic Multilingual Plane. Request numbers are decimal digits.
- The initial values that the action classes' constructors give their fields are not modelled (those classes are not part of this model). A field never set by parsing is `None`.
- The DTD strings, `getDTDInfo`, `getDTDTaskName`, handler registration in the constructor, and the plugin factories and actions are not modelled.
- The order of a `NamedNodeMap` is taken to be the order of the attribute sequence.
- FactorySupport hooks: they see the action and the nodes, but not the STAX service or the job.
- FactorySupport.ActionFactorySupport.ParseAction works on an action value rather than on a shared object. It therefore does not capture aliasing between the built action and its clone, or hooks that keep a reference to the action.
