/**
 * Comparison of two workflows (`src/diff/workflow_diff.rs`): workflow name
 * and active flag, nodes matched by id, and connections matched by
 * (source node, output index, target node, input index).
 */
module Diff {
  import opened Wrappers
  import opened Json
  import opened Unordered
  import opened Nodes
  import opened Connections
  import opened Workflows

  /**
   * One field of a node that differs. The source carries the parameters as
   * a rendered line diff of the pretty-printed JSON; here the two documents
   * themselves are carried.
   */
  datatype NodeChange =
    | NameChanged(oldName: string, newName: string)
    | TypeChanged(oldType: string, newType: string)
    | PositionChanged(oldPosition: Position, newPosition: Position)
    | DisabledChanged(wasDisabled: bool, isDisabled: bool)
    | ParametersChanged(oldParameters: Value, newParameters: Value)

  datatype NodeDiff = NodeDiff(nodeId: string, nodeName: string, changes: seq<NodeChange>)

  datatype WorkflowDiff = WorkflowDiff(
    nameChanged: Option<(string, string)>,
    activeChanged: Option<(bool, bool)>,
    nodesAdded: seq<Node>,
    nodesRemoved: seq<Node>,
    nodesModified: seq<NodeDiff>,
    connectionsAdded: seq<Connection>,
    connectionsRemoved: seq<Connection>)

  // ---------------------------------------------------------------------
  // Nodes
  // ---------------------------------------------------------------------

  /** The fields `compare_nodes` looks at agree; notes, credentials and the rest are ignored. */
  predicate Similar(a: Node, b: Node) {
    && a.name == b.name
    && a.nodeType == b.nodeType
    && a.position == b.position
    && a.disabled == b.disabled
    && a.parameters == b.parameters
  }

  /** The place of a change's field in the order name, type, position, disabled, parameters. */
  function Rank(ch: NodeChange): nat {
    match ch
    case NameChanged(_, _) => 0
    case TypeChanged(_, _) => 1
    case PositionChanged(_, _) => 2
    case DisabledChanged(_, _) => 3
    case ParametersChanged(_, _) => 4
  }

  /** `ch` records a field that differs between `a` and `b`, with its old and its new value. */
  predicate Records(a: Node, b: Node, ch: NodeChange) {
    match ch
    case NameChanged(x, y) => x == a.name && y == b.name && x != y
    case TypeChanged(x, y) => x == a.nodeType && y == b.nodeType && x != y
    case PositionChanged(x, y) => x == a.position && y == b.position && x != y
    case DisabledChanged(x, y) => x == a.disabled && y == b.disabled && x != y
    case ParametersChanged(x, y) => x == a.parameters && y == b.parameters && x != y
  }

  /** One candidate change per compared field, in the order the fields are compared. */
  function Candidates(a: Node, b: Node): (r: seq<NodeChange>)
    ensures forall i, j :: 0 <= i < j < |r| ==> Rank(r[i]) < Rank(r[j])
  {
    [ NameChanged(a.name, b.name), TypeChanged(a.nodeType, b.nodeType),
      PositionChanged(a.position, b.position), DisabledChanged(a.disabled, b.disabled),
      ParametersChanged(a.parameters, b.parameters) ]
  }

  /** The candidates that record a real difference, order kept. */
  function Differing(a: Node, b: Node, cands: seq<NodeChange>): (r: seq<NodeChange>)
    requires forall i, j :: 0 <= i < j < |cands| ==> Rank(cands[i]) < Rank(cands[j])
    ensures |r| <= |cands|
    ensures forall ch :: ch in r <==> ch in cands && Records(a, b, ch)
    ensures forall i, j :: 0 <= i < j < |r| ==> Rank(r[i]) < Rank(r[j])
  {
    if cands == [] then []
    else
      assert forall i :: 0 < i < |cands| ==> cands[i] == cands[1..][i - 1];
      var rest := Differing(a, b, cands[1..]);
      assert forall j :: 0 <= j < |rest| ==> Rank(cands[0]) < Rank(rest[j]) by {
        forall j | 0 <= j < |rest| ensures Rank(cands[0]) < Rank(rest[j]) {
          assert rest[j] in cands[1..];
          var k :| 0 <= k < |cands[1..]| && cands[1..][k] == rest[j];
          assert cands[k + 1] == rest[j];
        }
      }
      if Records(a, b, cands[0]) then [cands[0]] + rest else rest
  }

  /**
   * `compare_nodes`: the changed fields in the order name, type, position,
   * disabled, parameters, labelled with the old node's id and name; nothing
   * when no field differs.
   */
  function CompareNodes(a: Node, b: Node): (r: Option<NodeDiff>)
    ensures r.None? <==> Similar(a, b)
    ensures r.Some? ==> r.value.nodeId == a.id && r.value.nodeName == a.name
    ensures r.Some? ==> 1 <= |r.value.changes| <= 5
    ensures r.Some? ==> forall i :: 0 <= i < |r.value.changes| ==> Records(a, b, r.value.changes[i])
    ensures r.Some? ==> forall i, j :: 0 <= i < j < |r.value.changes| ==>
      Rank(r.value.changes[i]) < Rank(r.value.changes[j])
    ensures r.Some? ==> (NameChanged(a.name, b.name) in r.value.changes <==> a.name != b.name)
    ensures r.Some? ==> (TypeChanged(a.nodeType, b.nodeType) in r.value.changes <==> a.nodeType != b.nodeType)
    ensures r.Some? ==> (PositionChanged(a.position, b.position) in r.value.changes <==> a.position != b.position)
    ensures r.Some? ==> (DisabledChanged(a.disabled, b.disabled) in r.value.changes <==> a.disabled != b.disabled)
    ensures r.Some? ==> (ParametersChanged(a.parameters, b.parameters) in r.value.changes <==> a.parameters != b.parameters)
  {
    var changes := Differing(a, b, Candidates(a, b));
    DifferingSimilar(a, b);
    DifferingFields(a, b);
    assert forall i :: 0 <= i < |changes| ==> changes[i] in changes;
    if changes == [] then None else Some(NodeDiff(a.id, a.name, changes))
  }

  /** Each field's change is among the differing candidates exactly when the field differs. */
  lemma DifferingFields(a: Node, b: Node)
    ensures var changes := Differing(a, b, Candidates(a, b));
      && (NameChanged(a.name, b.name) in changes <==> a.name != b.name)
      && (TypeChanged(a.nodeType, b.nodeType) in changes <==> a.nodeType != b.nodeType)
      && (PositionChanged(a.position, b.position) in changes <==> a.position != b.position)
      && (DisabledChanged(a.disabled, b.disabled) in changes <==> a.disabled != b.disabled)
      && (ParametersChanged(a.parameters, b.parameters) in changes <==> a.parameters != b.parameters)
  {
    var cands := Candidates(a, b);
    assert cands[0] in cands && cands[1] in cands && cands[2] in cands;
    assert cands[3] in cands && cands[4] in cands;
  }

  lemma DifferingSimilar(a: Node, b: Node)
    ensures Differing(a, b, Candidates(a, b)) == [] <==> Similar(a, b)
  {
    var cands := Candidates(a, b);
    var changes := Differing(a, b, cands);
    if changes != [] {
      assert changes[0] in cands && Records(a, b, changes[0]);
    }
    if !Similar(a, b) {
      assert cands[0] in cands && cands[1] in cands && cands[2] in cands;
      assert cands[3] in cands && cands[4] in cands;
    }
  }

  /** The ids occurring in a node list. */
  function IdSet(nodes: seq<Node>): set<string> {
    set i | 0 <= i < |nodes| :: nodes[i].id
  }

  /**
   * The map `collect` builds from (id, node) pairs: every id of the list is
   * a key, and each key holds a node of the list with that id.
   */
  function ById(nodes: seq<Node>): (r: map<string, Node>)
    ensures r.Keys == IdSet(nodes)
    decreases |nodes|
  {
    if nodes == [] then map[]
    else
      var init := nodes[..|nodes| - 1];
      var last := nodes[|nodes| - 1];
      assert nodes == init + [last];
      IdSetSnoc(init, last);
      ById(init)[last.id := last]
  }

  lemma IdSetSnoc(init: seq<Node>, last: Node)
    ensures IdSet(init + [last]) == IdSet(init) + {last.id}
  {
    var nodes := init + [last];
    forall x | x in IdSet(nodes) ensures x in IdSet(init) + {last.id} {
      var i :| 0 <= i < |nodes| && nodes[i].id == x;
      if i < |init| {
        assert init[i] == nodes[i];
      }
    }
    forall x | x in IdSet(init) ensures x in IdSet(nodes) {
      var i :| 0 <= i < |init| && init[i].id == x;
      assert nodes[i] == init[i];
    }
    assert nodes[|init|] == last;
  }

  /** Each key holds a node of the list with that id. */
  lemma {:induction false} ByIdMember(nodes: seq<Node>, id: string)
    requires id in IdSet(nodes)
    ensures ById(nodes)[id] in nodes && ById(nodes)[id].id == id
    decreases |nodes|
  {
    var init := nodes[..|nodes| - 1];
    var last := nodes[|nodes| - 1];
    assert nodes == init + [last];
    if id != last.id {
      IdSetSnoc(init, last);
      ByIdMember(init, id);
    }
  }

  /** When ids repeat, the last node with the id is the one kept. */
  lemma {:induction false} ByIdLastWins(nodes: seq<Node>, i: nat)
    requires i < |nodes|
    requires forall j :: i < j < |nodes| ==> nodes[j].id != nodes[i].id
    ensures ById(nodes)[nodes[i].id] == nodes[i]
    decreases |nodes|
  {
    var init := nodes[..|nodes| - 1];
    if i < |nodes| - 1 {
      assert init[i] == nodes[i];
      ByIdLastWins(init, i);
    }
  }

  /** The nodes of `m` with the given ids, in the given order. */
  function Select(ids: seq<string>, m: map<string, Node>): (r: seq<Node>)
    requires forall i :: 0 <= i < |ids| ==> ids[i] in m
    ensures |r| == |ids|
    ensures forall i :: 0 <= i < |r| ==> r[i] == m[ids[i]]
  {
    seq(|ids|, i requires 0 <= i < |ids| => m[ids[i]])
  }

  /** `compare_nodes` over the shared ids, keeping the nodes that changed. */
  function ModifiedScan(ids: seq<string>, a: map<string, Node>, b: map<string, Node>): (r: seq<NodeDiff>)
    requires forall i :: 0 <= i < |ids| ==> ids[i] in a && ids[i] in b
    ensures |r| <= |ids|
    ensures r == [] <==> forall i :: 0 <= i < |ids| ==> Similar(a[ids[i]], b[ids[i]])
  {
    if ids == [] then []
    else
      var rest := ModifiedScan(ids[1..], a, b);
      assert forall i :: 0 < i < |ids| ==> ids[i] == ids[1..][i - 1];
      match CompareNodes(a[ids[0]], b[ids[0]])
      case None => rest
      case Some(d) => [d] + rest
  }

  // ---------------------------------------------------------------------
  // Connections
  // ---------------------------------------------------------------------

  /** The identity `compare` gives a connection: the connection types do not take part. */
  datatype ConnectionKey = ConnectionKey(sourceNode: string, sourceOutput: nat, targetNode: string, targetInput: nat)

  function KeyOf(c: Connection): ConnectionKey {
    ConnectionKey(c.sourceNode, c.sourceOutput, c.targetNode, c.targetInput)
  }

  function KeysOf(conns: seq<Connection>): (r: set<ConnectionKey>)
    ensures forall k :: k in r <==> exists c :: c in conns && KeyOf(c) == k
  {
    set c | c in conns :: KeyOf(c)
  }

  /** The connections whose key is not among `keys`, in their order, duplicates kept. */
  function KeyNotIn(conns: seq<Connection>, keys: set<ConnectionKey>): (r: seq<Connection>)
    ensures forall c :: multiset(r)[c] == if KeyOf(c) in keys then 0 else multiset(conns)[c]
  {
    if conns == [] then []
    else
      assert conns == [conns[0]] + conns[1..];
      var rest := KeyNotIn(conns[1..], keys);
      if KeyOf(conns[0]) in keys then rest else [conns[0]] + rest
  }

  // ---------------------------------------------------------------------
  // The comparison
  // ---------------------------------------------------------------------

  /** The nodes of `b` whose id `a` lacks, one per id, in hash-set order. */
  ghost function NodesOnlyIn(b: seq<Node>, a: seq<Node>): (r: seq<Node>)
    ensures |r| == |IdSet(b) - IdSet(a)|
  {
    var ids := Enumerate(IdSet(b) - IdSet(a));
    var m := ById(b);
    assert forall i :: 0 <= i < |ids| ==> ids[i] in m by {
      forall i | 0 <= i < |ids| ensures ids[i] in m {
        assert ids[i] in ids;
      }
    }
    Select(ids, m)
  }

  /** Every id both maps hold maps to similar nodes. */
  ghost predicate SharedSimilar(ma: map<string, Node>, mb: map<string, Node>) {
    forall id :: id in ma && id in mb ==> Similar(ma[id], mb[id])
  }

  lemma SharedSimilarSymmetric(ma: map<string, Node>, mb: map<string, Node>)
    ensures SharedSimilar(ma, mb) <==> SharedSimilar(mb, ma)
  {
  }

  /** Over an enumeration of the shared keys, no diff means every shared key's nodes are similar. */
  lemma ModifiedScanEmpty(ids: seq<string>, ma: map<string, Node>, mb: map<string, Node>)
    requires forall x :: x in ids <==> x in ma && x in mb
    ensures forall i :: 0 <= i < |ids| ==> ids[i] in ma && ids[i] in mb
    ensures ModifiedScan(ids, ma, mb) == [] <==> SharedSimilar(ma, mb)
  {
    assert forall i :: 0 <= i < |ids| ==> ids[i] in ma && ids[i] in mb by {
      forall i | 0 <= i < |ids| ensures ids[i] in ma && ids[i] in mb {
        assert ids[i] in ids;
      }
    }
    if forall i :: 0 <= i < |ids| ==> Similar(ma[ids[i]], mb[ids[i]]) {
      forall id | id in ma && id in mb ensures Similar(ma[id], mb[id]) {
        var i :| 0 <= i < |ids| && ids[i] == id;
      }
    }
  }

  /** The node diffs of the ids both lists hold. */
  ghost function NodesModified(a: seq<Node>, b: seq<Node>): seq<NodeDiff> {
    var ids := Enumerate(IdSet(a) * IdSet(b));
    ModifiedScanEmpty(ids, ById(a), ById(b));
    ModifiedScan(ids, ById(a), ById(b))
  }

  /** No node diff exactly when every id both lists hold maps to similar nodes. */
  lemma NodesModifiedEmpty(a: seq<Node>, b: seq<Node>)
    ensures NodesModified(a, b) == [] <==> SharedSimilar(ById(a), ById(b))
  {
    var ids := Enumerate(IdSet(a) * IdSet(b));
    ModifiedScanEmpty(ids, ById(a), ById(b));
    assert NodesModified(a, b) == ModifiedScan(ids, ById(a), ById(b));
  }

  /** The scan reports exactly the diffs `compare_nodes` gives for the scanned ids. */
  lemma {:induction false} ModifiedScanElements(ids: seq<string>, ma: map<string, Node>, mb: map<string, Node>)
    requires forall i :: 0 <= i < |ids| ==> ids[i] in ma && ids[i] in mb
    ensures forall d :: d in ModifiedScan(ids, ma, mb) <==>
      exists i :: 0 <= i < |ids| && CompareNodes(ma[ids[i]], mb[ids[i]]) == Some(d)
    decreases |ids|
  {
    if ids != [] {
      var tail := ids[1..];
      assert forall i :: 0 < i < |ids| ==> ids[i] == tail[i - 1];
      ModifiedScanElements(tail, ma, mb);
      var head := CompareNodes(ma[ids[0]], mb[ids[0]]);
      var rest := ModifiedScan(tail, ma, mb);
      assert ModifiedScan(ids, ma, mb) == if head.Some? then [head.value] + rest else rest;
      forall d ensures d in ModifiedScan(ids, ma, mb) <==>
        exists i :: 0 <= i < |ids| && CompareNodes(ma[ids[i]], mb[ids[i]]) == Some(d)
      {
        if d in rest {
          var k :| 0 <= k < |tail| && CompareNodes(ma[tail[k]], mb[tail[k]]) == Some(d);
          assert CompareNodes(ma[ids[k + 1]], mb[ids[k + 1]]) == Some(d);
        }
        if exists i :: 0 <= i < |ids| && CompareNodes(ma[ids[i]], mb[ids[i]]) == Some(d) {
          var i :| 0 <= i < |ids| && CompareNodes(ma[ids[i]], mb[ids[i]]) == Some(d);
          if i > 0 {
            assert CompareNodes(ma[tail[i - 1]], mb[tail[i - 1]]) == Some(d);
          }
        }
      }
    }
  }

  /**
   * Over distinct ids whose nodes carry those ids, every reported diff is
   * labelled with a scanned id and no id is reported twice.
   */
  lemma {:induction false} ModifiedScanIds(ids: seq<string>, ma: map<string, Node>, mb: map<string, Node>)
    requires forall i :: 0 <= i < |ids| ==> ids[i] in ma && ids[i] in mb
    requires forall i :: 0 <= i < |ids| ==> ma[ids[i]].id == ids[i]
    requires forall i, j :: 0 <= i < j < |ids| ==> ids[i] != ids[j]
    ensures forall p :: 0 <= p < |ModifiedScan(ids, ma, mb)| ==> ModifiedScan(ids, ma, mb)[p].nodeId in ids
    ensures DistinctIds(ModifiedScan(ids, ma, mb))
    decreases |ids|
  {
    if ids != [] {
      var tail := ids[1..];
      assert forall i :: 0 < i < |ids| ==> ids[i] == tail[i - 1];
      ModifiedScanIds(tail, ma, mb);
      var head := CompareNodes(ma[ids[0]], mb[ids[0]]);
      var rest := ModifiedScan(tail, ma, mb);
      assert ModifiedScan(ids, ma, mb) == if head.Some? then [head.value] + rest else rest;
      if head.Some? {
        assert head.value.nodeId == ids[0];
        assert forall p :: 0 <= p < |rest| ==> rest[p].nodeId != ids[0] by {
          forall p | 0 <= p < |rest| ensures rest[p].nodeId != ids[0] {
            var j :| 0 <= j < |tail| && tail[j] == rest[p].nodeId;
            assert ids[j + 1] == tail[j];
          }
        }
        DistinctIdsCons(head.value, rest);
      }
    }
  }

  predicate DistinctIds(ds: seq<NodeDiff>) {
    forall p, q :: 0 <= p < q < |ds| ==> ds[p].nodeId != ds[q].nodeId
  }

  lemma DistinctIdsCons(d: NodeDiff, ds: seq<NodeDiff>)
    requires DistinctIds(ds)
    requires forall p :: 0 <= p < |ds| ==> ds[p].nodeId != d.nodeId
    ensures DistinctIds([d] + ds)
  {
    var r := [d] + ds;
    assert forall p :: 0 < p < |r| ==> r[p] == ds[p - 1];
  }

  /** No two reported node diffs carry the same id. */
  lemma NodesModifiedDistinct(a: seq<Node>, b: seq<Node>)
    ensures forall p, q :: 0 <= p < q < |NodesModified(a, b)| ==>
      NodesModified(a, b)[p].nodeId != NodesModified(a, b)[q].nodeId
  {
    var ids := Enumerate(IdSet(a) * IdSet(b));
    var ma, mb := ById(a), ById(b);
    ModifiedScanEmpty(ids, ma, mb);
    forall i | 0 <= i < |ids| ensures ma[ids[i]].id == ids[i] {
      assert ids[i] in ids;
      ByIdMember(a, ids[i]);
    }
    ModifiedScanIds(ids, ma, mb);
    assert NodesModified(a, b) == ModifiedScan(ids, ma, mb);
  }

  /**
   * For an id both lists hold, a diff labelled with that id is reported
   * exactly when the nodes behind it differ, and it is then their
   * `compare_nodes` diff; no diff carries any other id.
   */
  lemma NodesModifiedFor(a: seq<Node>, b: seq<Node>, id: string)
    requires id in IdSet(a) && id in IdSet(b)
    ensures (exists d :: d in NodesModified(a, b) && d.nodeId == id) <==> !Similar(ById(a)[id], ById(b)[id])
    ensures forall d :: d in NodesModified(a, b) && d.nodeId == id ==>
      Some(d) == CompareNodes(ById(a)[id], ById(b)[id])
    ensures forall d :: d in NodesModified(a, b) ==> d.nodeId in IdSet(a) && d.nodeId in IdSet(b)
  {
    var ids := Enumerate(IdSet(a) * IdSet(b));
    var ma, mb := ById(a), ById(b);
    ModifiedScanEmpty(ids, ma, mb);
    ModifiedScanElements(ids, ma, mb);
    assert NodesModified(a, b) == ModifiedScan(ids, ma, mb);
    forall d | d in NodesModified(a, b)
      ensures d.nodeId in IdSet(a) && d.nodeId in IdSet(b) && Some(d) == CompareNodes(ma[d.nodeId], mb[d.nodeId])
    {
      var i :| 0 <= i < |ids| && CompareNodes(ma[ids[i]], mb[ids[i]]) == Some(d);
      assert ids[i] in ids;
      ByIdMember(a, ids[i]);
    }
    if !Similar(ma[id], mb[id]) {
      assert id in ids;
      var i :| 0 <= i < |ids| && ids[i] == id;
      var d := CompareNodes(ma[id], mb[id]).value;
      ByIdMember(a, id);
      assert d in NodesModified(a, b) && d.nodeId == id;
    }
  }

  /** Some stored connection of `n` has the same key as `c`. */
  ghost predicate KeyStored(n: ConnectionsMap, c: Connection) {
    exists d :: Occurrences(n, d) > 0 && KeyOf(d) == KeyOf(c)
  }

  lemma KeysOfStored(m: ConnectionsMap, c: Connection)
    ensures KeyOf(c) in KeysOf(Flatten(m)) <==> KeyStored(m, c)
  {
    if KeyOf(c) in KeysOf(Flatten(m)) {
      var d :| d in Flatten(m) && KeyOf(d) == KeyOf(c);
      FlattenMember(m, d);
    }
    if KeyStored(m, c) {
      var d :| Occurrences(m, d) > 0 && KeyOf(d) == KeyOf(c);
      FlattenMember(m, d);
    }
  }

  /**
   * The flat connections of `b` whose key `a` does not store: each such
   * connection as often as `b` stores it, and nothing else.
   */
  ghost function ConnectionsOnlyIn(b: Workflow, a: Workflow): (r: seq<Connection>)
    ensures forall c ::
      multiset(r)[c] == if KeyStored(a.connections, c) then 0 else Occurrences(b.connections, c)
  {
    var r := KeyNotIn(ConnectionsFlat(b), KeysOf(ConnectionsFlat(a)));
    assert forall c ::
      multiset(r)[c] == if KeyStored(a.connections, c) then 0 else Occurrences(b.connections, c) by {
      forall c ensures multiset(r)[c] ==
        if KeyStored(a.connections, c) then 0 else Occurrences(b.connections, c) {
        FlattenCount(b.connections, c);
        KeysOfStored(a.connections, c);
      }
    }
    r
  }

  /** `WorkflowDiff::compare(old, new)`. */
  ghost function Compare(a: Workflow, b: Workflow): (r: WorkflowDiff)
    ensures r.nameChanged.Some? <==> a.name != b.name
    ensures a.name != b.name ==> r.nameChanged == Some((a.name, b.name))
    ensures r.activeChanged.Some? <==> a.active != b.active
    ensures a.active != b.active ==> r.activeChanged == Some((a.active, b.active))
    ensures |r.nodesAdded| == |IdSet(b.nodes) - IdSet(a.nodes)|
    ensures |r.nodesRemoved| == |IdSet(a.nodes) - IdSet(b.nodes)|
  {
    WorkflowDiff(
      if a.name != b.name then Some((a.name, b.name)) else None,
      if a.active != b.active then Some((a.active, b.active)) else None,
      NodesOnlyIn(b.nodes, a.nodes),
      NodesOnlyIn(a.nodes, b.nodes),
      NodesModified(a.nodes, b.nodes),
      ConnectionsOnlyIn(b, a),
      ConnectionsOnlyIn(a, b))
  }

  lemma NodesOnlyInSpec(b: seq<Node>, a: seq<Node>)
    ensures var r := NodesOnlyIn(b, a);
      && (forall i :: 0 <= i < |r| ==> r[i] in b && r[i].id !in IdSet(a))
      && (forall id :: id in IdSet(b) && id !in IdSet(a) <==> exists i :: 0 <= i < |r| && r[i].id == id)
  {
    var r := NodesOnlyIn(b, a);
    var ids := Enumerate(IdSet(b) - IdSet(a));
    var m := ById(b);
    assert forall i :: 0 <= i < |ids| ==> ids[i] in m by {
      forall i | 0 <= i < |ids| ensures ids[i] in m {
        assert ids[i] in ids;
      }
    }
    assert r == Select(ids, m);
    forall i | 0 <= i < |r| ensures r[i] in b && r[i].id == ids[i] && r[i].id !in IdSet(a) {
      assert ids[i] in ids;
      ByIdMember(b, ids[i]);
    }
    forall id | id in IdSet(b) && id !in IdSet(a) ensures exists i :: 0 <= i < |r| && r[i].id == id {
      assert id in IdSet(b) - IdSet(a);
      assert id in ids;
      var i :| 0 <= i < |ids| && ids[i] == id;
      ByIdMember(b, id);
      assert r[i].id == id;
    }
  }

  /**
   * Added nodes are nodes of the new workflow whose id the old one lacks,
   * one for each such id; removed nodes are the mirror image.
   */
  lemma CompareNodeLists(a: Workflow, b: Workflow)
    ensures var d := Compare(a, b);
      && (forall i :: 0 <= i < |d.nodesAdded| ==> d.nodesAdded[i] in b.nodes && d.nodesAdded[i].id !in IdSet(a.nodes))
      && (forall id :: id in IdSet(b.nodes) && id !in IdSet(a.nodes) <==>
            exists i :: 0 <= i < |d.nodesAdded| && d.nodesAdded[i].id == id)
      && (forall i :: 0 <= i < |d.nodesRemoved| ==> d.nodesRemoved[i] in a.nodes && d.nodesRemoved[i].id !in IdSet(b.nodes))
      && (forall id :: id in IdSet(a.nodes) && id !in IdSet(b.nodes) <==>
            exists i :: 0 <= i < |d.nodesRemoved| && d.nodesRemoved[i].id == id)
  {
    var d := Compare(a, b);
    assert d.nodesAdded == NodesOnlyIn(b.nodes, a.nodes);
    assert d.nodesRemoved == NodesOnlyIn(a.nodes, b.nodes);
    NodesOnlyInSpec(b.nodes, a.nodes);
    NodesOnlyInSpec(a.nodes, b.nodes);
  }

  /** `WorkflowDiff::is_empty`. */
  predicate IsEmpty(d: WorkflowDiff) {
    && d.nameChanged.None?
    && d.activeChanged.None?
    && d.nodesAdded == []
    && d.nodesRemoved == []
    && d.nodesModified == []
    && d.connectionsAdded == []
    && d.connectionsRemoved == []
  }

  /**
   * The reported additions are exactly the new workflow's connections whose
   * key the old workflow lacks, each as often as it is stored; removals are
   * the mirror image.
   */
  lemma CompareConnections(a: Workflow, b: Workflow, c: Connection)
    ensures multiset(Compare(a, b).connectionsAdded)[c] ==
      if KeyStored(a.connections, c) then 0 else Occurrences(b.connections, c)
    ensures multiset(Compare(a, b).connectionsRemoved)[c] ==
      if KeyStored(b.connections, c) then 0 else Occurrences(a.connections, c)
  {
    var d := Compare(a, b);
    assert d.connectionsAdded == ConnectionsOnlyIn(b, a);
    assert d.connectionsRemoved == ConnectionsOnlyIn(a, b);
  }

  /**
   * Comparing in the other direction swaps additions and removals: the
   * same nodes, whatever order the id sets are walked in, and the same
   * connections.
   */
  lemma CompareSwap(a: Workflow, b: Workflow)
    ensures multiset(Compare(b, a).nodesAdded) == multiset(Compare(a, b).nodesRemoved)
    ensures Compare(b, a).connectionsAdded == Compare(a, b).connectionsRemoved
    ensures Compare(b, a).nodesModified == [] <==> Compare(a, b).nodesModified == []
  {
    var d, e := Compare(a, b), Compare(b, a);
    assert e.nodesAdded == NodesOnlyIn(a.nodes, b.nodes) == d.nodesRemoved;
    assert e.connectionsAdded == ConnectionsOnlyIn(a, b) == d.connectionsRemoved;
    assert e.nodesModified == NodesModified(b.nodes, a.nodes);
    assert d.nodesModified == NodesModified(a.nodes, b.nodes);
    NodesModifiedEmpty(a.nodes, b.nodes);
    NodesModifiedEmpty(b.nodes, a.nodes);
    SharedSimilarSymmetric(ById(a.nodes), ById(b.nodes));
  }

  /** Every connection `m` stores has its key stored in `n`. */
  ghost predicate Covered(m: ConnectionsMap, n: ConnectionsMap) {
    forall c :: Occurrences(m, c) > 0 ==> KeyStored(n, c)
  }

  /**
   * What `compare` treats as no difference: same name and active flag,
   * the same node ids with similar nodes behind each, and the same
   * connection keys.
   */
  ghost predicate Equivalent(a: Workflow, b: Workflow) {
    && a.name == b.name
    && a.active == b.active
    && IdSet(a.nodes) == IdSet(b.nodes)
    && SharedSimilar(ById(a.nodes), ById(b.nodes))
    && Covered(a.connections, b.connections)
    && Covered(b.connections, a.connections)
  }

  lemma ConnectionsOnlyInEmpty(b: Workflow, a: Workflow)
    ensures ConnectionsOnlyIn(b, a) == [] <==> Covered(b.connections, a.connections)
  {
    var r := ConnectionsOnlyIn(b, a);
    if r == [] {
      forall c | Occurrences(b.connections, c) > 0 ensures KeyStored(a.connections, c) {
        assert multiset(r)[c] == 0;
      }
    } else {
      assert multiset(r)[r[0]] > 0;
    }
  }

  /** No node is added or removed exactly when both lists hold the same ids. */
  lemma NodeListsEmpty(a: seq<Node>, b: seq<Node>)
    ensures NodesOnlyIn(b, a) == [] && NodesOnlyIn(a, b) == [] <==> IdSet(a) == IdSet(b)
  {
    var ia, ib := IdSet(a), IdSet(b);
    assert |ib - ia| == 0 <==> ib - ia == {};
    assert |ia - ib| == 0 <==> ia - ib == {};
  }

  /** `is_empty(compare(a, b))` holds exactly when the two workflows are equivalent. */
  lemma IsEmptyIff(a: Workflow, b: Workflow)
    ensures IsEmpty(Compare(a, b)) <==> Equivalent(a, b)
  {
    var d := Compare(a, b);
    assert IsEmpty(d) <==>
      && a.name == b.name && a.active == b.active
      && NodesOnlyIn(b.nodes, a.nodes) == [] && NodesOnlyIn(a.nodes, b.nodes) == []
      && NodesModified(a.nodes, b.nodes) == []
      && ConnectionsOnlyIn(b, a) == [] && ConnectionsOnlyIn(a, b) == [];
    NodeListsEmpty(a.nodes, b.nodes);
    NodesModifiedEmpty(a.nodes, b.nodes);
    ConnectionsOnlyInEmpty(b, a);
    ConnectionsOnlyInEmpty(a, b);
  }

  /** A workflow compared with itself shows no difference. */
  lemma CompareSelf(w: Workflow)
    ensures IsEmpty(Compare(w, w))
  {
    IsEmptyIff(w, w);
    forall c | Occurrences(w.connections, c) > 0 ensures KeyStored(w.connections, c) {
    }
  }

  /** Comparing a node with a copy of itself under another name reports only the name change. */
  lemma CompareRenamed(n: Node, newName: string)
    requires n.name != newName
    ensures CompareNodes(n, n.(name := newName)) == Some(NodeDiff(n.id, n.name, [NameChanged(n.name, newName)]))
  {
    var m := n.(name := newName);
    var cands := Candidates(n, m);
    assert Differing(n, m, cands[4..]) == [];
    assert Differing(n, m, cands[3..]) == [];
    assert Differing(n, m, cands[2..]) == [];
    assert Differing(n, m, cands[1..]) == [];
    assert Differing(n, m, cands) == [NameChanged(n.name, newName)];
  }

  /**
   * Renaming a node, its id kept, is a modification and not a removal plus
   * an addition: neither list of added or removed nodes holds the id, and
   * the one diff labelled with it reports the name change alone. When ids
   * repeat, the nodes compared are the last ones with the id.
   */
  lemma RenameIsModification(a: Workflow, b: Workflow, i: nat, j: nat, newName: string)
    requires i < |a.nodes| && j < |b.nodes|
    requires b.nodes[j] == a.nodes[i].(name := newName) && a.nodes[i].name != newName
    requires forall k :: i < k < |a.nodes| ==> a.nodes[k].id != a.nodes[i].id
    requires forall k :: j < k < |b.nodes| ==> b.nodes[k].id != b.nodes[j].id
    ensures var d := Compare(a, b); var n := a.nodes[i];
      && (forall k :: 0 <= k < |d.nodesAdded| ==> d.nodesAdded[k].id != n.id)
      && (forall k :: 0 <= k < |d.nodesRemoved| ==> d.nodesRemoved[k].id != n.id)
      && NodeDiff(n.id, n.name, [NameChanged(n.name, newName)]) in d.nodesModified
      && (forall x :: x in d.nodesModified && x.nodeId == n.id ==>
           x == NodeDiff(n.id, n.name, [NameChanged(n.name, newName)]))
    ensures
      exists p ::
        && 0 <= p < |Compare(a, b).nodesModified|
        && Compare(a, b).nodesModified[p] == NodeDiff(a.nodes[i].id, a.nodes[i].name, [NameChanged(a.nodes[i].name, newName)])
        && forall q :: 0 <= q < |Compare(a, b).nodesModified| && q != p ==>
             Compare(a, b).nodesModified[q].nodeId != a.nodes[i].id
  {
    var n := a.nodes[i];
    var id := n.id;
    assert id in IdSet(a.nodes);
    assert b.nodes[j].id == id && id in IdSet(b.nodes);
    CompareNodeLists(a, b);
    ByIdLastWins(a.nodes, i);
    ByIdLastWins(b.nodes, j);
    CompareRenamed(n, newName);
    assert !Similar(ById(a.nodes)[id], ById(b.nodes)[id]);
    NodesModifiedFor(a.nodes, b.nodes, id);
    NodesModifiedDistinct(a.nodes, b.nodes);
    var mods := Compare(a, b).nodesModified;
    assert mods == NodesModified(a.nodes, b.nodes);
    var x := NodeDiff(id, n.name, [NameChanged(n.name, newName)]);
    var p :| 0 <= p < |mods| && mods[p] == x;
    forall q | 0 <= q < |mods| && q != p ensures mods[q].nodeId != id {
      if q < p {
        assert mods[q].nodeId != mods[p].nodeId;
      } else {
        assert mods[p].nodeId != mods[q].nodeId;
      }
    }
  }

  /** Two connections that differ only in their connection types count as the same. */
  lemma ConnectionTypesIgnored(a: Workflow, b: Workflow)
    requires a.connections == map["A" := map[Main := [[Endpoint("B", Main, 0)]]]]
    requires b.connections == map["A" := map["ai_tool" := [[Endpoint("B", "ai_tool", 0)]]]]
    ensures Compare(a, b).connectionsAdded == [] && Compare(a, b).connectionsRemoved == []
  {
    var ca := Connection("A", 0, Main, "B", 0, Main);
    var cb := Connection("A", 0, "ai_tool", "B", 0, "ai_tool");
    forall c | Occurrences(a.connections, c) > 0 ensures KeyStored(b.connections, c) {
      assert c.sourceNode == "A" && c.sourceType == Main && c.sourceOutput == 0;
      assert EndpointOf(c) == Endpoint("B", Main, 0);
      assert Occurrences(b.connections, cb) > 0;
      assert KeyOf(cb) == KeyOf(c);
    }
    forall c | Occurrences(b.connections, c) > 0 ensures KeyStored(a.connections, c) {
      assert c.sourceNode == "A" && c.sourceType == "ai_tool" && c.sourceOutput == 0;
      assert EndpointOf(c) == Endpoint("B", "ai_tool", 0);
      assert Occurrences(a.connections, ca) > 0;
      assert KeyOf(ca) == KeyOf(c);
    }
    ConnectionsOnlyInEmpty(b, a);
    ConnectionsOnlyInEmpty(a, b);
    assert Compare(a, b).connectionsAdded == ConnectionsOnlyIn(b, a);
    assert Compare(a, b).connectionsRemoved == ConnectionsOnlyIn(a, b);
  }
}
