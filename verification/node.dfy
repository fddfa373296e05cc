/**
 * A workflow node and its canvas position (`src/models/node.rs`).
 * The floating-point `type_version` field is not part of this model.
 */
module Nodes {
  import opened Wrappers
  import opened Text
  import opened Json

  /** Canvas coordinates; both are `i32` in the source. */
  datatype Position = Position(x: int, y: int)

  predicate ValidPosition(p: Position) {
    IsI32(p.x) && IsI32(p.y)
  }

  /** `Position::default()`. */
  const Origin: Position := Position(0, 0)

  /** A position is written as the two-element array `[x, y]`, never as an object. */
  function PositionToValue(p: Position): (v: Value)
    ensures v.Array? && |v.items| == 2
    ensures v.items[0] == Number(p.x) && v.items[1] == Number(p.y)
  {
    Array([Number(p.x), Number(p.y)])
  }

  /** Reading a position accepts exactly a two-element array of 32-bit integers. */
  function PositionFromValue(v: Value): (r: Result<Position, string>)
    ensures r.Ok? <==>
      && v.Array? && |v.items| == 2
      && v.items[0].Number? && IsI32(v.items[0].n)
      && v.items[1].Number? && IsI32(v.items[1].n)
    ensures r.Ok? ==> ValidPosition(r.value) && PositionToValue(r.value) == v
  {
    match v
    case Array(items) =>
      if |items| != 2 then Err("invalid length, expected an array of length 2")
      else if !items[0].Number? || !IsI32(items[0].n) || !items[1].Number? || !IsI32(items[1].n)
      then Err("invalid type, expected i32")
      else Ok(Position(items[0].n, items[1].n))
    case _ => Err("invalid type, expected an array of length 2")
  }

  /** Writing then reading a position gives it back. */
  lemma PositionRoundTrip(p: Position)
    requires ValidPosition(p)
    ensures PositionFromValue(PositionToValue(p)) == Ok(p)
  {
  }

  /** A workflow step. Field names follow the source; `type` is `nodeType`. */
  datatype Node = Node(
    id: string,
    name: string,
    nodeType: string,
    position: Position,
    parameters: Value,
    credentials: Option<Value>,
    disabled: bool,
    notes: Option<string>,
    continueOnFail: bool,
    retryOnFail: bool,
    maxTries: Option<nat>,
    waitBetweenTries: Option<nat>,
    alwaysOutputData: bool,
    executeOnce: bool,
    webhookId: Option<string>,
    extra: Value)

  /** `Node::new`: the given identity and type with every optional setting at its default. */
  function NewNode(id: string, name: string, nodeType: string): (n: Node)
    ensures n.id == id && n.name == name && n.nodeType == nodeType
    ensures n.position == Position(0, 0)
    ensures n.parameters == Object(map[]) && n.extra == Object(map[])
    ensures !n.disabled && !n.continueOnFail && !n.retryOnFail
    ensures !n.alwaysOutputData && !n.executeOnce
    ensures n.credentials.None? && n.webhookId.None? && n.notes.None?
    ensures n.maxTries.None? && n.waitBetweenTries.None?
  {
    Node(id, name, nodeType, Origin, EmptyObject, None, false, None,
         false, false, None, None, false, false, None, EmptyObject)
  }

  const StartType: string := "n8n-nodes-base.start"
  const ManualTriggerType: string := "n8n-nodes-base.manualTrigger"

  /** `Node::is_trigger`. */
  predicate IsTrigger(n: Node) {
    || Contains(n.nodeType, "trigger")
    || Contains(n.nodeType, "Trigger")
    || n.nodeType == StartType
    || n.nodeType == ManualTriggerType
  }

  /**
   * A node is a trigger exactly when its type has "trigger" or "Trigger"
   * somewhere in it, or is the legacy start node. The manual-trigger
   * comparison in the source adds nothing: that type already contains
   * "Trigger".
   */
  lemma IsTriggerIff(n: Node)
    ensures IsTrigger(n) <==>
      || (exists i :: OccursAt(n.nodeType, "trigger", i))
      || (exists i :: OccursAt(n.nodeType, "Trigger", i))
      || n.nodeType == StartType
  {
    ContainsIff(n.nodeType, "trigger");
    ContainsIff(n.nodeType, "Trigger");
    if n.nodeType == ManualTriggerType {
      ManualTriggerContainsTrigger();
    }
  }

  lemma ManualTriggerContainsTrigger()
    ensures exists i :: OccursAt(ManualTriggerType, "Trigger", i)
  {
    var prefix := "n8n-nodes-base.manual";
    assert ManualTriggerType == prefix + "Trigger";
    assert (prefix + "Trigger")[|prefix|..|prefix| + 7] == "Trigger";
    assert OccursAt(ManualTriggerType, "Trigger", |prefix|);
  }

  /** The match is case-sensitive: an all-capitals "TRIGGER" type is not a trigger. */
  lemma UpperCaseIsNotTrigger(n: Node)
    requires n.nodeType == "TRIGGER"
    ensures !IsTrigger(n)
  {
    var t := n.nodeType;
    assert t[..7] != "trigger" by { assert t[..7][0] == 'T'; }
    assert t[..7] != "Trigger" by { assert t[..7][1] == 'R'; }
    assert !Contains(t[1..], "trigger") && !Contains(t[1..], "Trigger");
  }

  /** `Node::with_position`: moves the node and changes nothing else. */
  function WithPosition(n: Node, x: int, y: int): (r: Node)
    ensures r.position == Position(x, y)
    ensures r.(position := n.position) == n
  {
    n.(position := Position(x, y))
  }

  /** `Node::with_parameters`: replaces the parameters and changes nothing else. */
  function WithParameters(n: Node, parameters: Value): (r: Node)
    ensures r.parameters == parameters
    ensures r.(parameters := n.parameters) == n
  {
    n.(parameters := parameters)
  }

  /** `Node::with_disabled`: sets the disabled flag and changes nothing else. */
  function WithDisabled(n: Node, disabled: bool): (r: Node)
    ensures r.disabled == disabled
    ensures r.(disabled := n.disabled) == n
  {
    n.(disabled := disabled)
  }
}
