/** The library's exception hierarchy, the Python exceptions its code lets
    through, and the result type every operation returns. */
module Errors {
  import opened Values
  import opened Classes

  /** The exception classes the library declares. */
  datatype ErrorClass =
    | Pandas2Neo4jError
    | NotSupportedModelClassError
    | NodeWithIdDoesNotExistError
    | RelationshipDoesNotExistError
    | PropertyValueWithInvalidTypeError
    | NotNullPropertyError
    | InvalidArgumentsConfigurationError

  /** Direct superclass inside the library; the root derives from `Exception`. */
  function Base(c: ErrorClass): Option<ErrorClass> {
    if c == Pandas2Neo4jError then None else Some(Pandas2Neo4jError)
  }

  function Depth(c: ErrorClass): nat {
    if c == Pandas2Neo4jError then 0 else 1
  }

  /** `issubclass(c, d)` restricted to the library's classes. */
  predicate SubclassOf(c: ErrorClass, d: ErrorClass)
    decreases Depth(c)
  {
    c == d || (Base(c).Some? && SubclassOf(Base(c).value, d))
  }

  /** Why a combination of arguments was refused. */
  datatype ConfigurationIssue =
    | InnerOnlyWithoutNodes
    | FromIdKeyMissing(fromLabel: string)
    | ToIdKeyMissing(toLabel: string)

  /** Exceptions raised by Python itself, or by user code, that the library
      does not translate. */
  datatype PythonError =
    | KeyError(key: string)
    | TypeError
    | AttributeError(name: string)
    | Raised(exception: string)

  type NodeRef = nat

  /** One raised exception. The constructors with fields carry exactly the
      attributes the library's constructors store; their defaults are those
      of the Python constructors. */
  datatype Error =
    | NotSupportedModelClass
    | NodeWithIdDoesNotExist(nodeClass: Option<Selector> := None, nodeId: Value := PyNone)
    | RelationshipDoesNotExist(relationship: string, fromNode: NodeRef, toNode: NodeRef)
    | PropertyValueWithInvalidType
    | NotNullProperty(property: SchemaProperty)
    | InvalidArgumentsConfiguration(issue: ConfigurationIssue)
    | Python(exception: PythonError)

  /** The library class of an error; `None` for an untranslated Python one. */
  function ClassOf(e: Error): Option<ErrorClass> {
    match e
    case NotSupportedModelClass => Some(NotSupportedModelClassError)
    case NodeWithIdDoesNotExist(_, _) => Some(NodeWithIdDoesNotExistError)
    case RelationshipDoesNotExist(_, _, _) => Some(RelationshipDoesNotExistError)
    case PropertyValueWithInvalidType => Some(PropertyValueWithInvalidTypeError)
    case NotNullProperty(_) => Some(NotNullPropertyError)
    case InvalidArgumentsConfiguration(_) => Some(InvalidArgumentsConfigurationError)
    case Python(_) => None
  }

  /** Every exception the library raises is caught by `except Pandas2Neo4jError`,
      and the only ones that are not are Python's own. */
  lemma EveryLibraryErrorIsPandas2Neo4jError(e: Error)
    ensures ClassOf(e).Some? <==> !e.Python?
    ensures ClassOf(e).Some? ==> SubclassOf(ClassOf(e).value, Pandas2Neo4jError)
    ensures forall c :: SubclassOf(c, Pandas2Neo4jError)
  {
  }

  datatype Result<+T> = Ok(value: T) | Err(error: Error) {
    predicate IsFailure() {
      Err?
    }

    function PropagateFailure<U>(): Result<U>
      requires Err?
    {
      Err(error)
    }

    function Extract(): T
      requires Ok?
    {
      value
    }
  }

  /** `s` occurs in `m` as a contiguous piece. */
  ghost predicate Contains(m: string, s: string) {
    exists i :: 0 <= i <= |m| && s <= m[i..]
  }

  lemma ContainsMiddle(a: string, s: string, b: string)
    ensures Contains(a + s + b, s)
  {
    var m := a + s + b;
    assert m[|a|..] == s + b;
  }

  /** `str()` of the `node_class` field: a label string prints as itself. */
  function ShowSelector(sel: Selector, showClass: ModelClass -> string): string {
    match sel
    case ByLabel(l) => l
    case ByModel(c) => showClass(c)
  }

  const GenericNodeMissingMessage: string := "Could not find requested node in the graph."

  /** `NodeWithIdDoesNotExistError.__str__`. `showClass` and `showValue` stand
      for Python's `str()` of a class and of a value. */
  function NodeMissingMessage(e: Error, showClass: ModelClass -> string, showValue: Value -> string): (m: string)
    requires e.NodeWithIdDoesNotExist?
    ensures m == GenericNodeMissingMessage <==> e.nodeClass.None? || e.nodeId == PyNone
    ensures e.nodeClass.Some? && e.nodeId != PyNone ==>
              Contains(m, ShowSelector(e.nodeClass.value, showClass)) && Contains(m, showValue(e.nodeId))
  {
    if e.nodeClass.None? || e.nodeId == PyNone then
      GenericNodeMissingMessage
    else
      var cls := ShowSelector(e.nodeClass.value, showClass);
      var id := showValue(e.nodeId);
      ContainsBoth("Node of ", cls, " class with id value ", id, " was not found in the graph.");
      var m := "Node of " + cls + " class with id value " + id + " was not found in the graph.";
      assert m[0] != GenericNodeMissingMessage[0];
      m
  }

  /** The error `_create_relationship` raises, built with no arguments, has
      both fields `None` and prints the generic text. */
  lemma NodeMissingWithoutArguments(showClass: ModelClass -> string, showValue: Value -> string)
    ensures NodeWithIdDoesNotExist().nodeClass == None && NodeWithIdDoesNotExist().nodeId == PyNone
    ensures NodeMissingMessage(NodeWithIdDoesNotExist(), showClass, showValue) == GenericNodeMissingMessage
  {
  }

  /** `RelationshipDoesNotExistError.__str__`; `showNode` stands for `str()` of a node. */
  function RelationshipMissingMessage(e: Error, showNode: NodeRef -> string): (m: string)
    requires e.RelationshipDoesNotExist?
    ensures Contains(m, e.relationship)
    ensures Contains(m, showNode(e.fromNode)) && Contains(m, showNode(e.toNode))
  {
    var f := showNode(e.fromNode);
    var t := showNode(e.toNode);
    ContainsAllThree("Relationship ", e.relationship, " between ", f, " and ", t, " not found in the graph.");
    "Relationship " + e.relationship + " between " + f + " and " + t + " not found in the graph."
  }

  lemma ContainsAllThree(a: string, x: string, b: string, y: string, c: string, z: string, d: string)
    ensures var m := a + x + b + y + c + z + d;
            Contains(m, x) && Contains(m, y) && Contains(m, z)
  {
    var m := a + x + b + y + c + z + d;
    assert m == a + x + (b + y + c + z + d);
    ContainsMiddle(a, x, b + y + c + z + d);
    assert m == (a + x + b) + y + (c + z + d);
    ContainsMiddle(a + x + b, y, c + z + d);
    assert m == (a + x + b + y + c) + z + d;
    ContainsMiddle(a + x + b + y + c, z, d);
  }

  /** The pieces of a message, joined. */
  function Join(parts: seq<string>): string {
    if parts == [] then [] else parts[0] + Join(parts[1..])
  }

  lemma {:induction false} AbsentFromJoin(parts: seq<string>, c: char)
    requires forall k :: 0 <= k < |parts| ==> c !in parts[k]
    ensures c !in Join(parts)
  {
    if parts != [] {
      AbsentFromJoin(parts[1..], c);
    }
  }

  /** A text lacking the first character of `s` cannot contain `s`. */
  lemma AbsentFirstChar(m: string, s: string)
    requires |s| > 0 && s[0] !in m
    ensures !Contains(m, s)
  {
    forall i | 0 <= i <= |m| ensures !(s <= m[i..]) {
      if i < |m| {
        assert m[i] in m;
      }
    }
  }

  /** Python's `str()` of an optional string. */
  function ShowOptional(k: Option<string>): string {
    if k.None? then "None" else k.value
  }

  const InnerOnlyMessage: string := "`inner_only` argument can be used only when `nodes` are provided."

  /** `x` set between a fixed opening and a fixed close. */
  function Around(a: string, x: string, b: string): (m: string)
    ensures Contains(m, x)
  {
    ContainsMiddle(a, x, b);
    a + x + b
  }

  const FromIdKeyOpening: string := "If `from_model_class` is string ('"
  const FromIdKeyClose: string :=
    "' provided) it is assumed to be the label of a `py2neo.Node` object and `from_model_id_key` must be defined to match the node."

  /** The text of the `InvalidArgumentsConfigurationError` raised for a
      missing start-side id key; it names the label. */
  function FromIdKeyMissingMessage(fromLabel: string): (m: string)
    ensures Contains(m, fromLabel)
  {
    Around(FromIdKeyOpening, fromLabel, FromIdKeyClose)
  }

  /** The pieces of the end-side message as the library writes it, around
      `str(to_model_id_key)`. */
  function ToIdKeyMissingParts(toIdKey: Option<string>): seq<string> {
    ["If `to_model_id_key`", " is string ('", ShowOptional(toIdKey), "' provided) it is", " assumed to be the",
     " label of a ", "`py2neo.Node` object", " and `from_model_id_key`", " must be defined to", " match the node."]
  }

  /** The end-side message as written: it interpolates the id key, which is
      always None when the message is built, in place of the label. */
  function ToIdKeyMissingMessageAsWritten(toIdKey: Option<string>): string {
    Join(ToIdKeyMissingParts(toIdKey))
  }

  /** No piece of the written end-side message holds a `P`; the two halves
      of the pieces are checked apart, which keeps the literals small. */
  lemma PartsLackP()
    ensures forall k :: 0 <= k < |ToIdKeyMissingParts(None)| ==> 'P' !in ToIdKeyMissingParts(None)[k]
  {
    var parts := ToIdKeyMissingParts(None);
    forall k | 0 <= k < |parts| ensures 'P' !in parts[k] {
      if k < 5 {} else {}
    }
  }

  /** Whatever the end-side label is, the message as written does not show
      it when it starts with a `P`. */
  lemma {:induction false} ToIdKeyMessageOmitsLabel(toLabel: string)
    requires |toLabel| > 0 && toLabel[0] == 'P'
    ensures !Contains(ToIdKeyMissingMessageAsWritten(None), toLabel)
  {
    var parts := ToIdKeyMissingParts(None);
    PartsLackP();
    AbsentFromJoin(parts, 'P');
    AbsentFirstChar(ToIdKeyMissingMessageAsWritten(None), toLabel);
  }

  lemma ContainsBoth(a: string, x: string, b: string, y: string, c: string)
    ensures Contains(a + x + b + y + c, x) && Contains(a + x + b + y + c, y)
  {
    ContainsMiddle(a, x, b + y + c);
    assert a + x + (b + y + c) == a + x + b + y + c;
    ContainsMiddle(a + x + b, y, c);
  }

  const ToIdKeyOpening: string := "If `to_model_class` is string ('"
  const ToIdKeyMiddle: string := "' provided) it is assumed to be the label of a `py2neo.Node` object and "
  const ToIdKeyName: string := "`to_model_id_key`"
  const ToIdKeyClose: string := " must be defined to match the node."

  /** The end-side message as evidently intended, mirroring the start side:
      it names the label and the end-side argument. */
  function ToIdKeyMissingMessage(toLabel: string): (m: string)
    ensures Contains(m, toLabel)
    ensures Contains(m, ToIdKeyName)
  {
    ContainsBoth(ToIdKeyOpening, toLabel, ToIdKeyMiddle, ToIdKeyName, ToIdKeyClose);
    ToIdKeyOpening + toLabel + ToIdKeyMiddle + ToIdKeyName + ToIdKeyClose
  }

  /** The text of an `InvalidArgumentsConfigurationError`, with the
      end-side message corrected: the label of a side with no id key is
      always named. */
  function ConfigurationMessage(issue: ConfigurationIssue): (m: string)
    ensures issue.FromIdKeyMissing? ==> Contains(m, issue.fromLabel)
    ensures issue.ToIdKeyMissing? ==> Contains(m, issue.toLabel)
  {
    if issue.FromIdKeyMissing? then FromIdKeyMissingMessage(issue.fromLabel)
    else if issue.ToIdKeyMissing? then ToIdKeyMissingMessage(issue.toLabel)
    else InnerOnlyMessage
  }

  /** The text of an `InvalidArgumentsConfigurationError` as the library
      writes it: the end side prints its id key, which is None there. */
  function ConfigurationMessageAsWritten(issue: ConfigurationIssue): (m: string)
    ensures issue.FromIdKeyMissing? ==> Contains(m, issue.fromLabel)
    ensures issue.ToIdKeyMissing? ==> m == ToIdKeyMissingMessageAsWritten(None)
    ensures !issue.ToIdKeyMissing? ==> m == ConfigurationMessage(issue)
  {
    if issue.ToIdKeyMissing? then ToIdKeyMissingMessageAsWritten(None) else ConfigurationMessage(issue)
  }

  /** The written end-side message does not name an end-side label starting
      with `P`, where the corrected one always does. */
  lemma ConfigurationMessagesDiffer(toLabel: string)
    requires |toLabel| > 0 && toLabel[0] == 'P'
    ensures !Contains(ConfigurationMessageAsWritten(ToIdKeyMissing(toLabel)), toLabel)
    ensures Contains(ConfigurationMessage(ToIdKeyMissing(toLabel)), toLabel)
  {
    ToIdKeyMessageOmitsLabel(toLabel);
  }
}
