/**
 * The typed workflow and its editing operations (`src/models/workflow.rs`).
 * Each operation that mutates `self` in the source returns the new workflow
 * value here; an operation that also returns something returns a pair.
 */
module Workflows {
  import opened Wrappers
  import opened Text
  import opened Json
  import opened Unordered
  import opened Nodes
  import opened Connections

  /** Tag reference carried by a workflow. */
  datatype WorkflowTag = WorkflowTag(id: string, name: string)

  /** `TypedWorkflow`; the settings record is kept as an untyped document. */
  datatype Workflow = Workflow(
    id: Option<string>,
    name: string,
    active: bool,
    nodes: seq<Node>,
    connections: ConnectionsMap,
    settings: Value,
    tags: seq<WorkflowTag>,
    versionId: Option<string>)

  // ---------------------------------------------------------------------
  // Lookup by id or name
  // ---------------------------------------------------------------------

  /** A lookup key selects a node through its id or through its name. */
  predicate Matches(n: Node, key: string) {
    n.id == key || n.name == key
  }

  /** Position of the first node `key` selects (`Iterator::position`). */
  function FindIndex(nodes: seq<Node>, key: string): (r: Option<nat>)
    ensures r.Some? ==> r.value < |nodes| && Matches(nodes[r.value], key)
    ensures r.Some? ==> forall j :: 0 <= j < r.value ==> !Matches(nodes[j], key)
    ensures r.None? ==> forall j :: 0 <= j < |nodes| ==> !Matches(nodes[j], key)
  {
    if nodes == [] then None
    else if Matches(nodes[0], key) then Some(0)
    else match FindIndex(nodes[1..], key)
      case None => None
      case Some(i) => Some(i + 1)
  }

  /** `TypedWorkflow::find_node`: the first node whose id or name is `key`. */
  function FindNode(w: Workflow, key: string): (r: Option<Node>)
    ensures r.Some? <==> exists i :: 0 <= i < |w.nodes| && Matches(w.nodes[i], key)
    ensures r.Some? ==>
      exists i :: 0 <= i < |w.nodes| && w.nodes[i] == r.value
        && Matches(r.value, key) && forall j :: 0 <= j < i ==> !Matches(w.nodes[j], key)
  {
    match FindIndex(w.nodes, key)
    case None => None
    case Some(i) => Some(w.nodes[i])
  }

  /** `TypedWorkflow::get_node_name`: the name of the node `key` selects. */
  function GetNodeName(w: Workflow, key: string): (r: Option<string>)
    ensures r.Some? <==> exists i :: 0 <= i < |w.nodes| && Matches(w.nodes[i], key)
    ensures r.Some? ==>
      exists i :: 0 <= i < |w.nodes| && w.nodes[i].name == r.value
        && Matches(w.nodes[i], key) && forall j :: 0 <= j < i ==> !Matches(w.nodes[j], key)
  {
    match FindNode(w, key)
    case None => None
    case Some(n) => Some(n.name)
  }

  /** A node's own name finds it, unless an earlier node has that string as its id or name. */
  lemma GetNodeNameOfName(w: Workflow, i: nat)
    requires i < |w.nodes|
    requires forall j :: 0 <= j < i ==> !Matches(w.nodes[j], w.nodes[i].name)
    ensures GetNodeName(w, w.nodes[i].name) == Some(w.nodes[i].name)
  {
    var k := FindIndex(w.nodes, w.nodes[i].name);
    assert Matches(w.nodes[i], w.nodes[i].name);
  }

  /** `TypedWorkflow::node_names`: node names in node order. */
  function NodeNames(w: Workflow): (r: seq<string>)
    ensures |r| == |w.nodes|
    ensures forall i :: 0 <= i < |r| ==> r[i] == w.nodes[i].name
  {
    seq(|w.nodes|, i requires 0 <= i < |w.nodes| => w.nodes[i].name)
  }

  // ---------------------------------------------------------------------
  // Adding and removing nodes
  // ---------------------------------------------------------------------

  /** `TypedWorkflow::add_node`: appends the node and changes nothing else. */
  function AddNode(w: Workflow, n: Node): (r: Workflow)
    ensures |r.nodes| == |w.nodes| + 1
    ensures r.nodes[..|w.nodes|] == w.nodes && r.nodes[|w.nodes|] == n
    ensures r.(nodes := w.nodes) == w
  {
    w.(nodes := w.nodes + [n])
  }

  /**
   * `TypedWorkflow::remove_node`: finds the node by id or name, deletes its
   * outgoing entry from the connections map, drops every endpoint aimed at
   * it, and removes it from the node list. Returns the removed node, or
   * nothing (and the workflow unchanged) when no node matches.
   */
  function RemoveNode(w: Workflow, key: string): (r: (Workflow, Option<Node>))
    ensures FindNode(w, key).None? ==> r == (w, None)
    ensures r.1 == FindNode(w, key)
    ensures r.1.Some? ==> |r.0.nodes| == |w.nodes| - 1
    ensures r.1.Some? ==> r.1.value.name !in r.0.connections
    ensures r.0.(nodes := w.nodes, connections := w.connections) == w
  {
    match FindIndex(w.nodes, key)
    case None => (w, None)
    case Some(pos) =>
      var name := w.nodes[pos].name;
      var conns := RetainAll(w.connections - {name}, name);
      (w.(nodes := w.nodes[..pos] + w.nodes[pos + 1..], connections := conns), Some(w.nodes[pos]))
  }

  /**
   * After a successful removal the node at the first matching position is
   * cut out and the others keep their order, and the connections are
   * exactly the old ones that neither start nor end at the removed node.
   */
  lemma RemoveNodeEffect(w: Workflow, key: string)
    requires FindNode(w, key).Some?
    ensures FindIndex(w.nodes, key).Some?
    ensures var (r, removed) := RemoveNode(w, key);
      var pos := FindIndex(w.nodes, key).value;
      && removed == Some(w.nodes[pos])
      && r.nodes == w.nodes[..pos] + w.nodes[pos + 1..]
      && forall c :: Occurrences(r.connections, c) ==
           if c.sourceNode == removed.value.name || c.targetNode == removed.value.name then 0
           else Occurrences(w.connections, c)
  {
    var pos := FindIndex(w.nodes, key).value;
    var name := w.nodes[pos].name;
    var m := w.connections;
    forall c
      ensures Occurrences(RetainAll(m - {name}, name), c) ==
        if c.sourceNode == name || c.targetNode == name then 0 else Occurrences(m, c)
    {
      RetainAllOccurrences(m - {name}, name, c);
      if c.sourceNode != name && c.sourceNode in m {
        assert (m - {name})[c.sourceNode] == m[c.sourceNode];
      }
    }
  }

  /** Flattened: no remaining connection touches the removed node, and every other one stays. */
  lemma RemoveNodeFlatten(w: Workflow, key: string)
    requires FindNode(w, key).Some?
    ensures var (r, removed) := RemoveNode(w, key);
      forall c :: c in Flatten(r.connections) <==>
        c in Flatten(w.connections)
        && c.sourceNode != removed.value.name && c.targetNode != removed.value.name
  {
    var (r, removed) := RemoveNode(w, key);
    RemoveNodeEffect(w, key);
    forall c
      ensures c in Flatten(r.connections) <==>
        c in Flatten(w.connections)
        && c.sourceNode != removed.value.name && c.targetNode != removed.value.name
    {
      FlattenMember(r.connections, c);
      FlattenMember(w.connections, c);
    }
  }

  // ---------------------------------------------------------------------
  // Connections of a workflow
  // ---------------------------------------------------------------------

  /** `TypedWorkflow::connections_flat`. */
  ghost function ConnectionsFlat(w: Workflow): seq<Connection> {
    Flatten(w.connections)
  }

  /** `TypedWorkflow::add_connection`: only the connections change. */
  function AddConnection(w: Workflow, c: Connection): (r: Workflow)
    ensures r.(connections := w.connections) == w
    ensures forall d ::
      Occurrences(r.connections, d) == Occurrences(w.connections, d) + (if d == c then 1 else 0)
  {
    var r := w.(connections := AddToMap(w.connections, c));
    assert forall d ::
      Occurrences(r.connections, d) == Occurrences(w.connections, d) + (if d == c then 1 else 0) by {
      forall d ensures Occurrences(r.connections, d) ==
        Occurrences(w.connections, d) + (if d == c then 1 else 0) {
        AddToMapOccurrences(w.connections, c, d);
      }
    }
    r
  }

  /** The flat list after `add_connection` is the old one plus the new connection. */
  lemma AddConnectionFlat(w: Workflow, c: Connection)
    ensures multiset(ConnectionsFlat(AddConnection(w, c))) == multiset(ConnectionsFlat(w)) + multiset{c}
  {
    AddToMapFlatten(w.connections, c);
  }

  /** How `remove_connection` resolves an argument: a node's name, else the string itself. */
  function ResolveName(w: Workflow, key: string): (r: string)
    ensures FindNode(w, key).Some? ==> r == FindNode(w, key).value.name
    ensures FindNode(w, key).None? ==> r == key
  {
    GetNodeName(w, key).GetOr(key)
  }

  /**
   * `TypedWorkflow::remove_connection`: resolves both arguments through the
   * node lookup, then removes every connection between the two names.
   * Reports whether one existed.
   */
  function RemoveConnection(w: Workflow, from: string, to: string): (r: (Workflow, bool))
    ensures r.0.(connections := w.connections) == w
    ensures var a, b := ResolveName(w, from), ResolveName(w, to);
      && (r.1 <==> exists c: Connection :: c.sourceNode == a && c.targetNode == b
                     && Occurrences(w.connections, c) > 0)
      && forall c :: Occurrences(r.0.connections, c) ==
           if c.sourceNode == a && c.targetNode == b then 0 else Occurrences(w.connections, c)
  {
    var a, b := ResolveName(w, from), ResolveName(w, to);
    var (m, removed) := RemoveFromMap(w.connections, a, b);
    RemoveFromMapReports(w.connections, a, b);
    assert forall c ::
      Occurrences(m, c) == if c.sourceNode == a && c.targetNode == b then 0 else Occurrences(w.connections, c) by {
      forall c ensures Occurrences(m, c) ==
        if c.sourceNode == a && c.targetNode == b then 0 else Occurrences(w.connections, c) {
        RemoveFromMapOccurrences(w.connections, a, b, c);
      }
    }
    (w.(connections := m), removed)
  }

  // ---------------------------------------------------------------------
  // Placement and triggers
  // ---------------------------------------------------------------------

  /** `Iterator::max` over the nodes' x coordinates. */
  function MaxX(nodes: seq<Node>): (r: Option<int>)
    ensures r.None? <==> nodes == []
    ensures r.Some? ==> exists i :: 0 <= i < |nodes| && nodes[i].position.x == r.value
    ensures r.Some? ==> forall i :: 0 <= i < |nodes| ==> nodes[i].position.x <= r.value
  {
    if nodes == [] then None
    else match MaxX(nodes[1..])
      case None => Some(nodes[0].position.x)
      case Some(m) => Some(if nodes[0].position.x > m then nodes[0].position.x else m)
  }

  /**
   * `TypedWorkflow::auto_position`: 200 to the right of the rightmost node
   * (of x = 0 when there are none), at height 100. The `i32` addition wraps
   * as in a release build.
   */
  function AutoPosition(w: Workflow): (p: Position)
    ensures p.y == 100 && ValidPosition(p)
    ensures w.nodes == [] ==> p.x == 200
    ensures w.nodes != [] ==>
      exists i :: 0 <= i < |w.nodes|
        && p.x == WrapI32(w.nodes[i].position.x + 200)
        && forall j :: 0 <= j < |w.nodes| ==> w.nodes[j].position.x <= w.nodes[i].position.x
  {
    Position(WrapI32(MaxX(w.nodes).GetOr(0) + 200), 100)
  }

  /** Without overflow, the new position lies strictly right of every node. */
  lemma AutoPositionRightOfAll(w: Workflow)
    requires forall i :: 0 <= i < |w.nodes| ==> IsI32(w.nodes[i].position.x)
    requires forall i :: 0 <= i < |w.nodes| ==> w.nodes[i].position.x <= I32_MAX - 200
    ensures forall i :: 0 <= i < |w.nodes| ==> w.nodes[i].position.x < AutoPosition(w).x
  {
  }

  /** Near the right edge of the `i32` range the position wraps to the far left. */
  lemma AutoPositionWraps(w: Workflow)
    requires |w.nodes| == 1 && w.nodes[0].position.x == I32_MAX
    ensures AutoPosition(w).x == I32_MIN + 199
  {
  }

  /** `Iterator::any` of `is_trigger` over the nodes. */
  predicate AnyTrigger(nodes: seq<Node>)
    ensures AnyTrigger(nodes) <==> exists i :: 0 <= i < |nodes| && IsTrigger(nodes[i])
  {
    if nodes == [] then false
    else
      assert forall i :: 0 <= i < |nodes[1..]| ==> nodes[1..][i] == nodes[i + 1];
      IsTrigger(nodes[0]) || AnyTrigger(nodes[1..])
  }

  /** `TypedWorkflow::has_trigger`. */
  predicate HasTrigger(w: Workflow) {
    AnyTrigger(w.nodes)
  }

  // ---------------------------------------------------------------------
  // Renaming a node inside the connections map
  // ---------------------------------------------------------------------

  function Retarget(e: Endpoint, oldName: string, newName: string): Endpoint {
    if e.node == oldName then e.(node := newName) else e
  }

  function RetargetSlot(slot: Slot, oldName: string, newName: string): (r: Slot)
    ensures |r| == |slot|
    ensures oldName != newName ==> forall j :: 0 <= j < |r| ==> r[j].node != oldName
  {
    if slot == [] then []
    else [Retarget(slot[0], oldName, newName)] + RetargetSlot(slot[1..], oldName, newName)
  }

  function RetargetSlots(slots: Slots, oldName: string, newName: string): (r: Slots)
    ensures |r| == |slots|
    ensures forall i :: 0 <= i < |r| ==> r[i] == RetargetSlot(slots[i], oldName, newName)
  {
    if slots == [] then []
    else [RetargetSlot(slots[0], oldName, newName)] + RetargetSlots(slots[1..], oldName, newName)
  }

  function RetargetOutputs(outs: Outputs, oldName: string, newName: string): Outputs {
    map t | t in outs :: RetargetSlots(outs[t], oldName, newName)
  }

  /** Points every endpoint aimed at `oldName` to `newName`. */
  function RetargetAll(m: ConnectionsMap, oldName: string, newName: string): ConnectionsMap {
    map k | k in m :: RetargetOutputs(m[k], oldName, newName)
  }

  /** The source entry of `oldName` moves to `newName`, replacing whatever `newName` had. */
  function MoveSource(m: ConnectionsMap, oldName: string, newName: string): ConnectionsMap {
    if oldName in m then (m - {oldName})[newName := m[oldName]] else m
  }

  /**
   * `TypedWorkflow::rename_node_in_connections`: re-keys the outgoing entry
   * of `oldName` under `newName` (overwriting an existing entry for `newName`), then
   * re-points every endpoint aimed at `oldName`.
   */
  function RenameNodeInConnections(w: Workflow, oldName: string, newName: string): (r: Workflow)
    ensures r.(connections := w.connections) == w
    ensures r.connections.Keys ==
      if oldName in w.connections then w.connections.Keys - {oldName} + {newName} else w.connections.Keys
  {
    w.(connections := RetargetAll(MoveSource(w.connections, oldName, newName), oldName, newName))
  }

  /** After renaming `oldName` to a different name, nothing refers to `oldName` any more. */
  lemma RenameClearsOld(w: Workflow, oldName: string, newName: string)
    requires oldName != newName
    ensures var m := RenameNodeInConnections(w, oldName, newName).connections;
      && oldName !in m
      && forall c :: Occurrences(m, c) > 0 ==> c.sourceNode != oldName && c.targetNode != oldName
  {
    var m := RenameNodeInConnections(w, oldName, newName).connections;
    var m1 := MoveSource(w.connections, oldName, newName);
    forall c | Occurrences(m, c) > 0
      ensures c.sourceNode != oldName && c.targetNode != oldName
    {
      var slot := m1[c.sourceNode][c.sourceType][c.sourceOutput];
      assert m[c.sourceNode][c.sourceType][c.sourceOutput] == RetargetSlot(slot, oldName, newName);
      assert EndpointOf(c) in RetargetSlot(slot, oldName, newName);
    }
  }

  lemma {:induction false} RetargetSlotCount(slot: Slot, oldName: string, newName: string, e: Endpoint)
    requires e.node != oldName && e.node != newName
    ensures multiset(RetargetSlot(slot, oldName, newName))[e] == multiset(slot)[e]
    decreases |slot|
  {
    if slot != [] {
      RetargetSlotCount(slot[1..], oldName, newName, e);
      assert slot == [slot[0]] + slot[1..];
      assert multiset(slot) == multiset{slot[0]} + multiset(slot[1..]);
      var r := RetargetSlot(slot, oldName, newName);
      assert multiset(r) == multiset{Retarget(slot[0], oldName, newName)} + multiset(RetargetSlot(slot[1..], oldName, newName));
    }
  }

  /** An endpoint aimed at `newName` afterwards was aimed at `newName` or at `oldName` before. */
  lemma {:induction false} RetargetSlotCountNew(slot: Slot, oldName: string, newName: string, e: Endpoint)
    requires oldName != newName && e.node == newName
    ensures multiset(RetargetSlot(slot, oldName, newName))[e] ==
      multiset(slot)[e] + multiset(slot)[e.(node := oldName)]
    decreases |slot|
  {
    if slot != [] {
      RetargetSlotCountNew(slot[1..], oldName, newName, e);
      assert slot == [slot[0]] + slot[1..];
      assert multiset(slot) == multiset{slot[0]} + multiset(slot[1..]);
      var r := RetargetSlot(slot, oldName, newName);
      assert multiset(r) == multiset{Retarget(slot[0], oldName, newName)} + multiset(RetargetSlot(slot[1..], oldName, newName));
    }
  }

  /**
   * Connections that touch neither name are stored exactly as often as
   * before; so are those leaving `newName` when `oldName` had no outgoing
   * entry to move there.
   */
  lemma RenameKeepsOthers(w: Workflow, oldName: string, newName: string, c: Connection)
    requires c.sourceNode != oldName && (c.sourceNode != newName || oldName !in w.connections)
    requires c.targetNode != oldName && c.targetNode != newName
    ensures Occurrences(RenameNodeInConnections(w, oldName, newName).connections, c) ==
      Occurrences(w.connections, c)
  {
    var m := w.connections;
    var m1 := MoveSource(m, oldName, newName);
    if c.sourceNode in m {
      assert m1[c.sourceNode] == m[c.sourceNode];
      if c.sourceType in m[c.sourceNode] && c.sourceOutput < |m[c.sourceNode][c.sourceType]| {
        RetargetSlotCount(m[c.sourceNode][c.sourceType][c.sourceOutput], oldName, newName, EndpointOf(c));
      }
    }
  }

  /** Outgoing connections of `oldName` are now stored under `newName`, as often as before. */
  lemma RenameMovesOutgoing(w: Workflow, oldName: string, newName: string, c: Connection)
    requires oldName != newName && oldName in w.connections
    requires c.sourceNode == newName && c.targetNode != oldName && c.targetNode != newName
    ensures Occurrences(RenameNodeInConnections(w, oldName, newName).connections, c) ==
      Occurrences(w.connections, c.(sourceNode := oldName))
  {
    var m := w.connections;
    var d := c.(sourceNode := oldName);
    assert EndpointOf(d) == EndpointOf(c);
    if c.sourceType in m[oldName] && c.sourceOutput < |m[oldName][c.sourceType]| {
      RetargetSlotCount(m[oldName][c.sourceType][c.sourceOutput], oldName, newName, EndpointOf(c));
    }
  }

  /**
   * A connection into `newName` afterwards is one that went to `newName` or
   * to `oldName` before, from the same output. Its source before is the
   * same node, except for a connection leaving `newName` when `oldName` had
   * outgoing connections: that entry came from `oldName` (so a self-loop on
   * the renamed node comes from a self-loop on `oldName` or from a
   * connection `oldName` to `newName`).
   */
  lemma RenameRetargetsIncoming(w: Workflow, oldName: string, newName: string, c: Connection)
    requires oldName != newName
    requires c.sourceNode != oldName && c.targetNode == newName
    ensures var src := if c.sourceNode == newName && oldName in w.connections then oldName else c.sourceNode;
      Occurrences(RenameNodeInConnections(w, oldName, newName).connections, c) ==
        Occurrences(w.connections, c.(sourceNode := src))
        + Occurrences(w.connections, c.(sourceNode := src, targetNode := oldName))
  {
    var m := w.connections;
    var m1 := MoveSource(m, oldName, newName);
    var src := if c.sourceNode == newName && oldName in m then oldName else c.sourceNode;
    var e := EndpointOf(c);
    assert EndpointOf(c.(sourceNode := src)) == e;
    assert EndpointOf(c.(sourceNode := src, targetNode := oldName)) == e.(node := oldName);
    assert c.sourceNode in m1 <==> src in m;
    if src in m {
      assert m1[c.sourceNode] == m[src];
      if c.sourceType in m[src] && c.sourceOutput < |m[src][c.sourceType]| {
        RetargetSlotCountNew(m[src][c.sourceType][c.sourceOutput], oldName, newName, e);
      }
    }
  }

  lemma {:induction false} RetargetSlotsLength(src: string, ty: string, slots: Slots, from: nat, oldName: string, newName: string)
    ensures |FlattenSlots(src, ty, RetargetSlots(slots, oldName, newName), from)| == |FlattenSlots(src, ty, slots, from)|
  {
    FlattenSlotsLength(src, ty, slots, from);
    FlattenSlotsLength(src, ty, RetargetSlots(slots, oldName, newName), from);
    RetargetSlotsSize(slots, oldName, newName);
  }

  lemma {:induction false} RetargetSlotsSize(slots: Slots, oldName: string, newName: string)
    ensures SlotsSize(RetargetSlots(slots, oldName, newName)) == SlotsSize(slots)
    decreases |slots|
  {
    if slots != [] {
      RetargetSlotsSize(slots[1..], oldName, newName);
      assert RetargetSlots(slots, oldName, newName)[1..] == RetargetSlots(slots[1..], oldName, newName);
    }
  }

  lemma {:induction false} RetargetOutputsLength(src: string, outs: Outputs, oldName: string, newName: string)
    ensures |FlattenOutputs(src, RetargetOutputs(outs, oldName, newName))| == |FlattenOutputs(src, outs)|
    decreases outs.Keys
  {
    if outs.Keys != {} {
      var r := RetargetOutputs(outs, oldName, newName);
      var ty := Pick(outs.Keys);
      assert r.Keys == outs.Keys;
      assert r - {ty} == RetargetOutputs(outs - {ty}, oldName, newName);
      RetargetSlotsLength(src, ty, outs[ty], 0, oldName, newName);
      RetargetOutputsLength(src, outs - {ty}, oldName, newName);
    }
  }

  lemma {:induction false} RetargetAllLength(m: ConnectionsMap, oldName: string, newName: string)
    ensures |Flatten(RetargetAll(m, oldName, newName))| == |Flatten(m)|
    decreases m.Keys
  {
    if m.Keys != {} {
      var r := RetargetAll(m, oldName, newName);
      var src := Pick(m.Keys);
      assert r.Keys == m.Keys;
      assert r - {src} == RetargetAll(m - {src}, oldName, newName);
      RetargetOutputsLength(src, m[src], oldName, newName);
      RetargetAllLength(m - {src}, oldName, newName);
    }
  }

  /** Length form of the split of the flat list at one source key. */
  lemma FlattenSplitLength(m: ConnectionsMap, k: string)
    requires k in m
    ensures |Flatten(m)| == |FlattenOutputs(k, m[k])| + |Flatten(m - {k})|
  {
    FlattenSplit(m, k);
    assert |multiset(Flatten(m))| == |Flatten(m)|;
    assert |multiset(FlattenOutputs(k, m[k])) + multiset(Flatten(m - {k}))| ==
      |FlattenOutputs(k, m[k])| + |Flatten(m - {k})|;
  }

  /** Renaming keeps the number of flat connections when `newName` had no outgoing entry of its own. */
  lemma RenamePreservesCount(w: Workflow, oldName: string, newName: string)
    requires newName !in w.connections
    ensures |ConnectionsFlat(RenameNodeInConnections(w, oldName, newName))| == |ConnectionsFlat(w)|
  {
    var m := w.connections;
    RetargetAllLength(MoveSource(m, oldName, newName), oldName, newName);
    MoveSourceLength(m, oldName, newName);
  }

  lemma MoveSourceLength(m: ConnectionsMap, oldName: string, newName: string)
    requires newName !in m
    ensures |Flatten(MoveSource(m, oldName, newName))| == |Flatten(m)|
  {
    if oldName in m {
      var m1 := MoveSource(m, oldName, newName);
      var rest := m - {oldName};
      assert m1 == rest[newName := m[oldName]];
      FlattenSplitLength(m, oldName);
      FlattenSplitLength(m1, newName);
      assert m1 - {newName} == rest;
      FlattenOutputsLength(oldName, newName, m[oldName]);
    }
  }

  /** Renaming onto a name that already has outgoing connections discards that name's entry. */
  lemma RenameOverwritesExisting(w: Workflow)
    requires w.connections == map[
      "A" := map[Main := [[Endpoint("B", Main, 0)]]],
      "B" := map[Main := [[Endpoint("C", Main, 0)]]]]
    ensures RenameNodeInConnections(w, "A", "B").connections ==
      map["B" := map[Main := [[Endpoint("B", Main, 0)]]]]
  {
    var m1 := MoveSource(w.connections, "A", "B");
    assert m1 == map["B" := map[Main := [[Endpoint("B", Main, 0)]]]];
    var slot := RetargetSlot([Endpoint("B", Main, 0)], "A", "B");
    assert slot == [Endpoint("B", Main, 0)];
    assert RetargetSlots([[Endpoint("B", Main, 0)]], "A", "B") == [[Endpoint("B", Main, 0)]];
    var outs := map[Main := [[Endpoint("B", Main, 0)]]];
    assert RetargetOutputs(outs, "A", "B") == outs;
    assert RetargetAll(m1, "A", "B") == m1;
  }
}
