/**
 * Connections between nodes (`src/models/connection.rs`).
 *
 * The wire format keeps connections in a nested map: source node name ->
 * connection type -> output slots, where the position of a slot in its
 * sequence is the source output number and each slot lists the endpoints
 * it feeds. The flat `Connection` record is one such endpoint together with
 * the coordinates that lead to it.
 */
module Connections {
  import opened Wrappers
  import opened Json
  import opened Unordered

  /** The connection type used when none is given. */
  const Main: string := "main"

  /** One past the largest `u32`. */
  const U32_LIMIT: int := 0x1_0000_0000

  /** Target of a connection: node name, input type and input slot. */
  datatype Endpoint = Endpoint(node: string, connectionType: string, index: nat)

  /** The endpoints fed by one output slot. */
  type Slot = seq<Endpoint>

  /** Output slots of one connection type; the position in the sequence is the output number. */
  type Slots = seq<Slot>

  /** Connection type -> output slots, for one source node. */
  type Outputs = map<string, Slots>

  /** Source node name -> its outputs (`ConnectionsMap`). */
  type ConnectionsMap = map<string, Outputs>

  /** A flattened connection (`Connection`). */
  datatype Connection = Connection(
    sourceNode: string,
    sourceOutput: nat,
    sourceType: string,
    targetNode: string,
    targetInput: nat,
    targetType: string)

  /** `Connection::new`: output 0 to input 0, both of type "main". */
  function NewConnection(sourceNode: string, targetNode: string): (c: Connection)
    ensures c.sourceNode == sourceNode && c.targetNode == targetNode
    ensures c.sourceOutput == 0 && c.targetInput == 0
    ensures c.sourceType == Main && c.targetType == Main
  {
    Connection(sourceNode, 0, Main, targetNode, 0, Main)
  }

  /** The endpoint a flat connection stands for. */
  function EndpointOf(c: Connection): Endpoint {
    Endpoint(c.targetNode, c.targetType, c.targetInput)
  }

  /** The flat connection for endpoint `e` in slot `out` of type `ty` under source `src`. */
  function ConnectionAt(src: string, ty: string, out: nat, e: Endpoint): Connection {
    Connection(src, out, ty, e.node, e.index, e.connectionType)
  }

  // ---------------------------------------------------------------------
  // Reading and writing one endpoint
  // ---------------------------------------------------------------------

  /**
   * Reading an endpoint object: `node` must be a string; `type` defaults to
   * "main" and `index` to 0 when absent, and must be a string and a `u32`
   * when present. Unknown keys are ignored.
   */
  function EndpointFromValue(v: Value): (r: Result<Endpoint, string>)
    ensures r.Ok? ==> v.Object? && "node" in v.fields && v.fields["node"] == String(r.value.node)
    ensures r.Ok? ==> if "type" in v.fields then v.fields["type"] == String(r.value.connectionType)
                      else r.value.connectionType == Main
    ensures r.Ok? ==> if "index" in v.fields then v.fields["index"] == Number(r.value.index)
                      else r.value.index == 0
    ensures r.Ok? ==> r.value.index < U32_LIMIT
    ensures v.Object? && "node" !in v.fields ==> r.Err?
  {
    match v
    case Object(f) =>
      if "node" !in f || !f["node"].String? then Err("missing or invalid field `node`")
      else if "type" in f && !f["type"].String? then Err("invalid type for field `type`")
      else if "index" in f && !(f["index"].Number? && 0 <= f["index"].n < U32_LIMIT)
      then Err("invalid value for field `index`")
      else
        Ok(Endpoint(
          f["node"].s,
          if "type" in f then f["type"].s else Main,
          if "index" in f then f["index"].n else 0))
    case _ => Err("invalid type, expected a connection endpoint object")
  }

  /** Writing an endpoint: an object with `node`, `type` and `index`. */
  function EndpointToValue(e: Endpoint): Value {
    Object(map["node" := String(e.node), "type" := String(e.connectionType), "index" := Number(e.index)])
  }

  /** Writing then reading an endpoint gives it back. */
  lemma EndpointRoundTrip(e: Endpoint)
    requires e.index < U32_LIMIT
    ensures EndpointFromValue(EndpointToValue(e)) == Ok(e)
  {
  }

  /** An object naming only the target node reads as input 0 of type "main". */
  lemma EndpointDefaults(node: string)
    ensures EndpointFromValue(Object(map["node" := String(node)])) == Ok(Endpoint(node, Main, 0))
  {
  }

  // ---------------------------------------------------------------------
  // Nested map -> flat list (`Connection::from_connections_map`)
  // ---------------------------------------------------------------------

  /** One flat connection per endpoint of a slot, in slot order. */
  function FlattenSlot(src: string, ty: string, out: nat, targets: Slot): (cs: seq<Connection>)
    ensures |cs| == |targets|
  {
    if targets == [] then []
    else [ConnectionAt(src, ty, out, targets[0])] + FlattenSlot(src, ty, out, targets[1..])
  }

  /** The slots of one type, the first of them being output number `from`. */
  function FlattenSlots(src: string, ty: string, slots: Slots, from: nat): seq<Connection>
  {
    if slots == [] then []
    else FlattenSlot(src, ty, from, slots[0]) + FlattenSlots(src, ty, slots[1..], from + 1)
  }

  /** Every type of one source, in hash-map order. */
  ghost function FlattenOutputs(src: string, outs: Outputs): seq<Connection>
    decreases outs.Keys
  {
    if outs.Keys == {} then []
    else
      var ty := Pick(outs.Keys);
      FlattenSlots(src, ty, outs[ty], 0) + FlattenOutputs(src, outs - {ty})
  }

  /** `Connection::from_connections_map`: every source, in hash-map order; no sorting. */
  ghost function Flatten(m: ConnectionsMap): seq<Connection>
    decreases m.Keys
  {
    if m.Keys == {} then []
    else
      var src := Pick(m.Keys);
      FlattenOutputs(src, m[src]) + Flatten(m - {src})
  }

  /**
   * How many times connection `c` is stored in `m`: the number of copies of
   * its endpoint in the slot its source, type and output number select.
   */
  function Occurrences(m: ConnectionsMap, c: Connection): nat {
    if c.sourceNode in m && c.sourceType in m[c.sourceNode]
       && c.sourceOutput < |m[c.sourceNode][c.sourceType]|
    then multiset(m[c.sourceNode][c.sourceType][c.sourceOutput])[EndpointOf(c)]
    else 0
  }

  lemma {:induction false} FlattenSlotCount(src: string, ty: string, out: nat, targets: Slot, c: Connection)
    ensures multiset(FlattenSlot(src, ty, out, targets))[c] ==
      if c.sourceNode == src && c.sourceType == ty && c.sourceOutput == out
      then multiset(targets)[EndpointOf(c)] else 0
    decreases |targets|
  {
    if targets != [] {
      FlattenSlotCount(src, ty, out, targets[1..], c);
      assert targets == [targets[0]] + targets[1..];
      assert multiset(targets) == multiset{targets[0]} + multiset(targets[1..]);
    }
  }

  /** Copies of `c` in `slots`, whose first slot is output number `from`. */
  function SlotsOccurrences(src: string, ty: string, slots: Slots, from: nat, c: Connection): nat {
    if c.sourceNode == src && c.sourceType == ty && from <= c.sourceOutput < from + |slots|
    then multiset(slots[c.sourceOutput - from])[EndpointOf(c)] else 0
  }

  lemma {:induction false} FlattenSlotsCount(src: string, ty: string, slots: Slots, from: nat, c: Connection)
    ensures multiset(FlattenSlots(src, ty, slots, from))[c] == SlotsOccurrences(src, ty, slots, from, c)
    decreases |slots|
  {
    if slots != [] {
      var first := FlattenSlot(src, ty, from, slots[0]);
      var rest := FlattenSlots(src, ty, slots[1..], from + 1);
      assert FlattenSlots(src, ty, slots, from) == first + rest;
      assert multiset(first + rest) == multiset(first) + multiset(rest);
      FlattenSlotCount(src, ty, from, slots[0], c);
      FlattenSlotsCount(src, ty, slots[1..], from + 1, c);
      if c.sourceNode == src && c.sourceType == ty {
        if c.sourceOutput == from {
          assert SlotsOccurrences(src, ty, slots[1..], from + 1, c) == 0;
        } else if from < c.sourceOutput < from + |slots| {
          assert slots[1..][c.sourceOutput - (from + 1)] == slots[c.sourceOutput - from];
        }
      }
    }
  }

  lemma {:induction false} FlattenOutputsCount(src: string, outs: Outputs, c: Connection)
    ensures multiset(FlattenOutputs(src, outs))[c] ==
      if c.sourceNode == src && c.sourceType in outs && c.sourceOutput < |outs[c.sourceType]|
      then multiset(outs[c.sourceType][c.sourceOutput])[EndpointOf(c)] else 0
    decreases outs.Keys
  {
    if outs.Keys != {} {
      var ty := Pick(outs.Keys);
      FlattenSlotsCount(src, ty, outs[ty], 0, c);
      FlattenOutputsCount(src, outs - {ty}, c);
    }
  }

  /**
   * Flattening emits exactly one connection per stored endpoint: its source
   * output is the endpoint's slot number, its target input the endpoint's
   * index and its target type the endpoint's type.
   */
  lemma {:induction false} FlattenCount(m: ConnectionsMap, c: Connection)
    ensures multiset(Flatten(m))[c] == Occurrences(m, c)
    decreases m.Keys
  {
    if m.Keys != {} {
      var src := Pick(m.Keys);
      FlattenOutputsCount(src, m[src], c);
      FlattenCount(m - {src}, c);
    }
  }

  /** A connection is listed exactly when the map stores it. */
  lemma FlattenMember(m: ConnectionsMap, c: Connection)
    ensures c in Flatten(m) <==> Occurrences(m, c) > 0
  {
    FlattenCount(m, c);
  }

  /** Maps that store every connection equally often flatten to the same multiset. */
  lemma SameOccurrencesSameFlatten(m1: ConnectionsMap, m2: ConnectionsMap)
    requires forall c :: Occurrences(m1, c) == Occurrences(m2, c)
    ensures multiset(Flatten(m1)) == multiset(Flatten(m2))
  {
    forall c
      ensures multiset(Flatten(m1))[c] == multiset(Flatten(m2))[c]
    {
      FlattenCount(m1, c);
      FlattenCount(m2, c);
    }
  }

  /** Flattening splits at any source: its own connections plus everyone else's. */
  lemma FlattenSplit(m: ConnectionsMap, k: string)
    requires k in m
    ensures multiset(Flatten(m)) == multiset(FlattenOutputs(k, m[k])) + multiset(Flatten(m - {k}))
  {
    forall c
      ensures multiset(Flatten(m))[c] ==
        multiset(FlattenOutputs(k, m[k]))[c] + multiset(Flatten(m - {k}))[c]
    {
      FlattenCount(m, c);
      FlattenCount(m - {k}, c);
      FlattenOutputsCount(k, m[k], c);
      if c.sourceNode == k {
        assert Occurrences(m - {k}, c) == 0;
      } else {
        assert c.sourceNode in m ==> (m - {k})[c.sourceNode] == m[c.sourceNode];
        assert Occurrences(m - {k}, c) == Occurrences(m, c);
      }
    }
  }

  /** Total number of endpoints held by a sequence of slots. */
  function SlotsSize(slots: Slots): nat {
    if slots == [] then 0 else |slots[0]| + SlotsSize(slots[1..])
  }

  lemma {:induction false} FlattenSlotsLength(src: string, ty: string, slots: Slots, from: nat)
    ensures |FlattenSlots(src, ty, slots, from)| == SlotsSize(slots)
    decreases |slots|
  {
    if slots != [] {
      FlattenSlotsLength(src, ty, slots[1..], from + 1);
    }
  }

  /** How many connections a source contributes does not depend on its name. */
  lemma {:induction false} FlattenOutputsLength(a: string, b: string, outs: Outputs)
    ensures |FlattenOutputs(a, outs)| == |FlattenOutputs(b, outs)|
    decreases outs.Keys
  {
    if outs.Keys != {} {
      var ty := Pick(outs.Keys);
      FlattenSlotsLength(a, ty, outs[ty], 0);
      FlattenSlotsLength(b, ty, outs[ty], 0);
      FlattenOutputsLength(a, b, outs - {ty});
    }
  }

  // ---------------------------------------------------------------------
  // Adding one connection (`Connection::add_to_map`)
  // ---------------------------------------------------------------------

  /** Appends empty slots until there are at least `n`. */
  function Pad(slots: Slots, n: nat): (r: Slots)
    ensures |r| == if |slots| < n then n else |slots|
    ensures r[..|slots|] == slots
    ensures forall i :: |slots| <= i < |r| ==> r[i] == []
    decreases n - |slots|
  {
    if |slots| >= n then slots else Pad(slots + [[]], n)
  }

  /**
   * `Connection::add_to_map`: creates the source and type entries when
   * missing, pads the slot sequence with empty slots until slot
   * `sourceOutput` exists, and appends the endpoint to that slot.
   */
  function AddToMap(m: ConnectionsMap, c: Connection): (r: ConnectionsMap)
    ensures r.Keys == m.Keys + {c.sourceNode}
    ensures forall k :: k in m && k != c.sourceNode ==> r[k] == m[k]
    ensures r[c.sourceNode].Keys ==
      (if c.sourceNode in m then m[c.sourceNode].Keys else {}) + {c.sourceType}
    ensures c.sourceNode in m ==>
      forall t :: t in m[c.sourceNode] && t != c.sourceType ==> r[c.sourceNode][t] == m[c.sourceNode][t]
    ensures c.sourceOutput < |r[c.sourceNode][c.sourceType]|
    ensures var slots := r[c.sourceNode][c.sourceType];
      |slots| > 0 && slots[c.sourceOutput] != [] && slots[c.sourceOutput][|slots[c.sourceOutput]| - 1] == EndpointOf(c)
  {
    var outs := if c.sourceNode in m then m[c.sourceNode] else map[];
    var slots := Pad(if c.sourceType in outs then outs[c.sourceType] else [], c.sourceOutput + 1);
    m[c.sourceNode := outs[c.sourceType := slots[c.sourceOutput := slots[c.sourceOutput] + [EndpointOf(c)]]]]
  }

  /** In the padded slot sequence, only slot `out` gains a copy of `e`; new slots start empty. */
  lemma AppendToPaddedSlot(slots0: Slots, out: nat, e: Endpoint, i: nat, x: Endpoint)
    requires i < |Pad(slots0, out + 1)|
    ensures var slots := Pad(slots0, out + 1);
      multiset(slots[out := slots[out] + [e]][i])[x] ==
        (if i < |slots0| then multiset(slots0[i])[x] else 0) + (if i == out && x == e then 1 else 0)
  {
    var slots := Pad(slots0, out + 1);
    if i < |slots0| {
      assert slots[i] == slots[..|slots0|][i] == slots0[i];
    } else {
      assert slots[i] == [];
    }
    if i == out {
      assert multiset(slots[out] + [e]) == multiset(slots[out]) + multiset{e};
    }
  }

  /** Adding a connection stores one more copy of it and leaves every other count alone. */
  lemma AddToMapOccurrences(m: ConnectionsMap, c: Connection, d: Connection)
    ensures Occurrences(AddToMap(m, c), d) == Occurrences(m, d) + (if d == c then 1 else 0)
  {
    var r := AddToMap(m, c);
    if d.sourceNode == c.sourceNode && d.sourceType == c.sourceType {
      var outs := if c.sourceNode in m then m[c.sourceNode] else map[];
      var slots0 := if c.sourceType in outs then outs[c.sourceType] else [];
      var slots := Pad(slots0, c.sourceOutput + 1);
      var slots1 := slots[c.sourceOutput := slots[c.sourceOutput] + [EndpointOf(c)]];
      assert r[c.sourceNode][c.sourceType] == slots1;
      assert |slots1| == |slots|;
      if d.sourceOutput < |slots1| {
        AppendToPaddedSlot(slots0, c.sourceOutput, EndpointOf(c), d.sourceOutput, EndpointOf(d));
        assert d == c <==> d.sourceOutput == c.sourceOutput && EndpointOf(d) == EndpointOf(c);
      } else {
        assert d != c;
      }
    } else {
      assert d != c;
      if d.sourceNode in m {
        assert r[d.sourceNode] == m[d.sourceNode] || d.sourceNode == c.sourceNode;
      }
    }
  }

  /** Flattening after `add_to_map` yields the old connections plus exactly the new one. */
  lemma AddToMapFlatten(m: ConnectionsMap, c: Connection)
    ensures multiset(Flatten(AddToMap(m, c))) == multiset(Flatten(m)) + multiset{c}
  {
    forall d
      ensures multiset(Flatten(AddToMap(m, c)))[d] == (multiset(Flatten(m)) + multiset{c})[d]
    {
      FlattenCount(AddToMap(m, c), d);
      FlattenCount(m, d);
      AddToMapOccurrences(m, c, d);
    }
  }

  /** Adding output 2 of type "main" to an empty map pads two empty slots before it. */
  lemma AddToEmptyMapPads(src: string, e: Endpoint)
    ensures AddToMap(map[], ConnectionAt(src, Main, 2, e)) == map[src := map[Main := [[], [], [e]]]]
  {
    var slots := Pad([], 3);
    assert |slots| == 3 && slots[0] == [] && slots[1] == [] && slots[2] == [];
    assert slots == [[], [], []];
    var filled := slots[2 := slots[2] + [e]];
    assert |filled| == 3 && filled[0] == [] && filled[1] == [] && filled[2] == [e];
    assert filled == [[], [], [e]];
  }

  // ---------------------------------------------------------------------
  // Flat list -> nested map (`Connection::to_connections_map`)
  // ---------------------------------------------------------------------

  /** Adds the connections one after the other, in list order. */
  function AddAll(m: ConnectionsMap, cs: seq<Connection>): ConnectionsMap
    decreases |cs|
  {
    if cs == [] then m else AddAll(AddToMap(m, cs[0]), cs[1..])
  }

  /** `Connection::to_connections_map`: the same steps as `add_to_map`, from an empty map. */
  function ToConnectionsMap(cs: seq<Connection>): ConnectionsMap {
    AddAll(map[], cs)
  }

  lemma {:induction false} AddAllOccurrences(m: ConnectionsMap, cs: seq<Connection>, d: Connection)
    ensures Occurrences(AddAll(m, cs), d) == Occurrences(m, d) + multiset(cs)[d]
    decreases |cs|
  {
    if cs != [] {
      AddToMapOccurrences(m, cs[0], d);
      AddAllOccurrences(AddToMap(m, cs[0]), cs[1..], d);
      assert cs == [cs[0]] + cs[1..];
      assert multiset(cs) == multiset{cs[0]} + multiset(cs[1..]);
    }
  }

  /**
   * Round trip: flattening the map built from a list gives back the same
   * connections, each as often as it was listed (only the order may differ).
   */
  lemma ToConnectionsMapRoundTrip(cs: seq<Connection>)
    ensures multiset(Flatten(ToConnectionsMap(cs))) == multiset(cs)
    ensures |Flatten(ToConnectionsMap(cs))| == |cs|
  {
    var m := ToConnectionsMap(cs);
    forall d
      ensures multiset(Flatten(m))[d] == multiset(cs)[d]
    {
      FlattenCount(m, d);
      AddAllOccurrences(map[], cs, d);
    }
    assert multiset(Flatten(m)) == multiset(cs);
    assert |multiset(Flatten(m))| == |multiset(cs)|;
  }

  /**
   * The converse holds only up to flattening: a map with an empty slot
   * flattens to nothing, and rebuilding from nothing gives the empty map.
   */
  lemma EmptySlotIsNotRebuilt()
    ensures var m: ConnectionsMap := map["A" := map[Main := [[]]]];
      multiset(Flatten(ToConnectionsMap(Flatten(m)))) == multiset(Flatten(m))
      && ToConnectionsMap(Flatten(m)) != m
  {
    var m: ConnectionsMap := map["A" := map[Main := [[]]]];
    ToConnectionsMapRoundTrip(Flatten(m));
    forall c ensures multiset(Flatten(m))[c] == 0 {
      FlattenCount(m, c);
    }
    assert multiset(Flatten(m)) == multiset{};
    assert |Flatten(m)| == 0;
    assert Flatten(m) == [];
    assert ToConnectionsMap([]) == map[];
    assert "A" in m;
  }

  // ---------------------------------------------------------------------
  // Removing connections (`Connection::remove_from_map`)
  // ---------------------------------------------------------------------

  /** `targets.retain(|t| t.node != b)`: drops every endpoint aimed at `b`, keeping order. */
  function RetainSlot(slot: Slot, b: string): (r: Slot)
    ensures forall e :: multiset(r)[e] == if e.node == b then 0 else multiset(slot)[e]
    ensures |r| <= |slot|
    ensures |r| < |slot| <==> exists e :: e in slot && e.node == b
  {
    if slot == [] then []
    else
      var rest := RetainSlot(slot[1..], b);
      assert slot == [slot[0]] + slot[1..];
      assert multiset(slot) == multiset{slot[0]} + multiset(slot[1..]);
      assert forall e :: e in slot <==> e == slot[0] || e in slot[1..];
      (if slot[0].node == b then [] else [slot[0]]) + rest
  }

  function RetainSlots(slots: Slots, b: string): (r: Slots)
    ensures |r| == |slots|
  {
    seq(|slots|, i requires 0 <= i < |slots| => RetainSlot(slots[i], b))
  }

  function RetainOutputs(outs: Outputs, b: string): Outputs {
    map t | t in outs :: RetainSlots(outs[t], b)
  }

  /** Drops every endpoint aimed at `b`, under every source; keys and slots stay. */
  function RetainAll(m: ConnectionsMap, b: string): ConnectionsMap {
    map k | k in m :: RetainOutputs(m[k], b)
  }

  /** Some slot of `slots` loses an endpoint when the ones aimed at `b` are dropped. */
  predicate Shrinks(slots: Slots, b: string) {
    exists i :: 0 <= i < |slots| && |RetainSlot(slots[i], b)| < |slots[i]|
  }

  /**
   * `Connection::remove_from_map`: under source `a`, drops every endpoint
   * aimed at `b`, and reports whether any slot got shorter. Keys, types and
   * slots are never deleted, even when they end up empty.
   */
  function RemoveFromMap(m: ConnectionsMap, a: string, b: string): (r: (ConnectionsMap, bool))
    ensures r.0.Keys == m.Keys
    ensures forall k :: k in m && k != a ==> r.0[k] == m[k]
    ensures forall k :: k in m ==> r.0[k].Keys == m[k].Keys
    ensures forall k, t :: k in m && t in m[k] ==> |r.0[k][t]| == |m[k][t]|
    ensures a !in m ==> !r.1
  {
    if a in m then
      var outs := m[a];
      (m[a := RetainOutputs(outs, b)], exists t :: t in outs && Shrinks(outs[t], b))
    else (m, false)
  }

  /** Dropping the endpoints aimed at `b` removes exactly the connections into `b`. */
  lemma RetainOutputsOccurrences(m: ConnectionsMap, a: string, b: string, c: Connection)
    requires a in m
    ensures Occurrences(m[a := RetainOutputs(m[a], b)], c) ==
      if c.sourceNode == a && c.targetNode == b then 0 else Occurrences(m, c)
  {
    var r := m[a := RetainOutputs(m[a], b)];
    if c.sourceNode == a && c.sourceType in m[a] && c.sourceOutput < |m[a][c.sourceType]| {
      var slot := m[a][c.sourceType][c.sourceOutput];
      assert r[a][c.sourceType][c.sourceOutput] == RetainSlot(slot, b);
    }
  }

  /** After `remove_from_map`, no connection from `a` to `b` remains and every other one is kept. */
  lemma RemoveFromMapOccurrences(m: ConnectionsMap, a: string, b: string, c: Connection)
    ensures Occurrences(RemoveFromMap(m, a, b).0, c) ==
      if c.sourceNode == a && c.targetNode == b then 0 else Occurrences(m, c)
  {
    if a in m {
      RetainOutputsOccurrences(m, a, b, c);
    }
  }

  /** `remove_from_map` reports a removal exactly when `m` held a connection from `a` to `b`. */
  lemma RemoveFromMapReports(m: ConnectionsMap, a: string, b: string)
    ensures RemoveFromMap(m, a, b).1 <==>
      exists c: Connection :: c.sourceNode == a && c.targetNode == b && Occurrences(m, c) > 0
  {
    if RemoveFromMap(m, a, b).1 {
      ReportedRemovalWasStored(m, a, b);
    }
    if exists c: Connection :: c.sourceNode == a && c.targetNode == b && Occurrences(m, c) > 0 {
      var c: Connection :| c.sourceNode == a && c.targetNode == b && Occurrences(m, c) > 0;
      StoredConnectionIsReported(m, a, b, c);
    }
  }

  lemma ReportedRemovalWasStored(m: ConnectionsMap, a: string, b: string)
    requires RemoveFromMap(m, a, b).1
    ensures exists c: Connection :: c.sourceNode == a && c.targetNode == b && Occurrences(m, c) > 0
  {
    assert a in m;
    var outs := m[a];
    assert exists t :: t in outs && Shrinks(outs[t], b);
    var t :| t in outs && Shrinks(outs[t], b);
    var slots := outs[t];
    var i :| 0 <= i < |slots| && |RetainSlot(slots[i], b)| < |slots[i]|;
    var slot := slots[i];
    var e: Endpoint :| e in slot && e.node == b;
    var c := ConnectionAt(a, t, i, e);
    assert c.sourceNode == a && c.sourceType == t && c.sourceOutput == i && c.targetNode == b;
    assert EndpointOf(c) == e;
    assert multiset(slot)[e] > 0;
    assert Occurrences(m, c) == multiset(slot)[e];
  }

  lemma StoredConnectionIsReported(m: ConnectionsMap, a: string, b: string, c: Connection)
    requires c.sourceNode == a && c.targetNode == b && Occurrences(m, c) > 0
    ensures RemoveFromMap(m, a, b).1
  {
    var slot := m[a][c.sourceType][c.sourceOutput];
    assert EndpointOf(c) in slot;
    assert |RetainSlot(slot, b)| < |slot|;
    assert Shrinks(m[a][c.sourceType], b);
  }

  /** Flattened, `remove_from_map` keeps every connection except those from `a` to `b`. */
  lemma RemoveFromMapFlatten(m: ConnectionsMap, a: string, b: string)
    ensures forall c :: c in Flatten(RemoveFromMap(m, a, b).0) <==>
      c in Flatten(m) && !(c.sourceNode == a && c.targetNode == b)
    ensures multiset(Flatten(RemoveFromMap(m, a, b).0)) <= multiset(Flatten(m))
  {
    var r := RemoveFromMap(m, a, b).0;
    forall c
      ensures multiset(Flatten(r))[c] ==
        if c.sourceNode == a && c.targetNode == b then 0 else multiset(Flatten(m))[c]
    {
      FlattenCount(r, c);
      FlattenCount(m, c);
      RemoveFromMapOccurrences(m, a, b, c);
    }
  }

  /** Dropping the endpoints aimed at `b` everywhere removes exactly the connections into `b`. */
  lemma RetainAllOccurrences(m: ConnectionsMap, b: string, c: Connection)
    ensures Occurrences(RetainAll(m, b), c) ==
      if c.targetNode == b then 0 else Occurrences(m, c)
  {
    var r := RetainAll(m, b);
    if c.sourceNode in m && c.sourceType in m[c.sourceNode]
       && c.sourceOutput < |m[c.sourceNode][c.sourceType]| {
      var slot := m[c.sourceNode][c.sourceType][c.sourceOutput];
      assert r[c.sourceNode][c.sourceType][c.sourceOutput] == RetainSlot(slot, b);
    }
  }
}
