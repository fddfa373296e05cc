# n8n-cli workflow core, modelled in Dafny

This project models the workflow-editing core of `n8n-cli`, a command-line client for the n8n automation server. The model covers:

- the typed workflow record, its nodes and its connection graph;
- the conversions between n8n's nested connections map and a flat list of connections;
- node and connection editing: add, remove, rename and auto-placement;
- the workflow validator;
- the workflow diff;
- the error type and its exit codes;
- the `--position x,y` argument parser;
- the `truncate` display helper;
- the pagination builder;
- the layered configuration loader.

Everything is modelled with immutable datatypes and pure functions. An operation that mutates a workflow in place in the source returns a new workflow here.

Modules, one per file:

| module | file | source |
|---|---|---|
| `Wrappers` | wrappers.dfy | Rust's `Option` and `Result` |
| `Text` | text.dfy | the parts of Rust's `str`/`i32` API the core relies on: `contains`, `trim`, `split`/`join`, `parse::<i32>`, two's-complement wrap-around |
| `Unordered` | unordered.dfy | HashMap iteration order as an arbitrary but fixed choice |
| `Json` | json.dfy | `serde_json::Value`, compared by equality |
| `Nodes` | node.dfy | `src/models/node.rs` |
| `Connections` | connection.dfy | `src/models/connection.rs` |
| `Workflows` | workflow.dfy | `TypedWorkflow` in `src/models/workflow.rs` |
| `Validation` | validation.dfy | `src/validation/workflow.rs` |
| `Diff` | diff.dfy | `src/diff/workflow_diff.rs` |
| `Errors` | errors.dfy | `src/error.rs` |
| `Common` | common.dfy | `truncate` in `src/models/common.rs` |
| `PositionArg` | position_arg.dfy | `parse_position` in `src/cli/workflows.rs` |
| `Pagination` | pagination.dfy | `src/client/pagination.rs` |
| `ConfigLoader` | config.dfy | `src/config/loader.rs` |

**Iteration order.** The source walks `HashMap`s and `HashSet`s in whatever order Rust's hasher produces. That order is unspecified, so:

- `Unordered.Pick` chooses a key arbitrarily but deterministically;
- flattening a connections map, the validator and the diff are `ghost` functions;
- properties about them are stated over multisets, sets or per-connection counts (`Connections.Occurrences`). The one sequence equality, on connections in `Diff.CompareSwap`, compares two filters of the same map walk, which Rust repeats in the same order for an unchanged map.

**Behaviour worth knowing:**

- The diff matches nodes by `id`, not by name (src/diff/workflow_diff.rs:49-71). So a renamed node shows up as modified, not as removed and added (`Diff.RenameIsModification`).
- The validator returns as soon as it finds an empty node list. None of the other rules run in that case (src/validation/workflow.rs:75-82; `Validation.EmptyWorkflowWarns`). This includes the empty-workflow-name check.
- Trigger detection is case-sensitive. It looks for the substrings `trigger` or `Trigger`, or the exact type `n8n-nodes-base.start` (src/models/node.rs:148-153). A type `TRIGGER` is not a trigger (`Nodes.UpperCaseIsNotTrigger`).
- The diff compares connections by `(source node, source output, target node, target input)` only. Connection types are ignored (`Diff.ConnectionTypesIgnored`).
- `to_connections_map` of `from_connections_map` restores the connections but not necessarily the map. Empty output slots are not rebuilt (`Connections.EmptySlotIsNotRebuilt`).
- Renaming a node onto the name of an existing source node replaces that node's outgoing connections (`Workflows.RenameOverwritesExisting`).

## Model

| member | source | states |
|---|---|---|
| Nodes.PositionFromValue | src/models/node.rs:29-38 | deserialising a position succeeds exactly on a two-element array of i32 numbers, and what it reads serialises back to the same value |
| Nodes.PositionRoundTrip | src/models/node.rs:19-38 | every i32 position survives serialisation as `[x, y]` followed by deserialisation |
| Nodes.NewNode | src/models/node.rs:120-140 | a new node keeps the given id, name and type, sits at the origin, has empty parameters and every optional setting unset or false |
| Nodes.IsTriggerIff | src/models/node.rs:148-153 | a node is a trigger exactly when its type contains `trigger` or `Trigger` somewhere, or is exactly `n8n-nodes-base.start`; the manual-trigger case is subsumed |
| Nodes.ManualTriggerContainsTrigger | src/models/node.rs:148-153 | the explicit `n8n-nodes-base.manualTrigger` test is redundant, because that type already contains `Trigger` |
| Nodes.UpperCaseIsNotTrigger | src/models/node.rs:148-153 | the match is case-sensitive: a type spelled `TRIGGER` is not a trigger |
| Nodes.WithPosition | src/models/node.rs:156-159 | the builder sets the position and leaves every other field of the node as it was |
| Nodes.WithParameters | src/models/node.rs:162-165 | the builder replaces the parameters and nothing else |
| Nodes.WithDisabled | src/models/node.rs:168-171 | the builder sets the disabled flag and nothing else |
| Connections.NewConnection | src/models/connection.rs:38-48 | a new connection runs from output 0 to input 0, both of type `main`, between the given nodes |
| Connections.EndpointFromValue | src/models/connection.rs:7-20 | an endpoint needs a `node` field; `type` defaults to `main` and `index` to 0; an index always fits in a u32 |
| Connections.EndpointRoundTrip | src/models/connection.rs:7-20 | every endpoint whose index fits in a u32 deserialises back from its serialised form |
| Connections.EndpointDefaults | src/models/connection.rs:11-20 | an endpoint written with only its node reads as a `main` input 0 |
| Connections.FlattenCount | src/models/connection.rs:70-91 | each stored endpoint yields exactly one flat connection, carrying its source node, the output slot number, the output type and the endpoint's node, index and type |
| Connections.FlattenMember | src/models/connection.rs:70-91 | a connection appears in the flat list exactly when the map stores it at least once |
| Connections.SameOccurrencesSameFlatten | src/models/connection.rs:70-91 | two maps that store the same connections the same number of times flatten to the same multiset, whatever the iteration order |
| Connections.FlattenSplit | src/models/connection.rs:73-88 | flattening a map is flattening one source's outputs plus flattening the rest |
| Connections.AddToMap | src/models/connection.rs:118-131 | adding creates the source and type entries when missing, pads the output slots with empty slots up to the output number, appends the endpoint to that slot, and leaves all other sources and types unchanged |
| Connections.AddToMapOccurrences | src/models/connection.rs:118-131 | after adding, the added connection is stored once more and every other connection as often as before |
| Connections.AddToMapFlatten | src/models/connection.rs:118-131 | flattening after adding gives the old flat connections plus exactly the new one |
| Connections.AddToEmptyMapPads | src/models/connection.rs:122-124 | adding output 2 to an empty map creates two empty slots in front of it |
| Connections.AddAllOccurrences | src/models/connection.rs:94-115 | building a map from a list adds each listed connection's multiplicity to the map's counts |
| Connections.ToConnectionsMapRoundTrip | src/models/connection.rs:70-115 | flattening the map built from a list gives back the same connections, as a multiset and in number |
| Connections.EmptySlotIsNotRebuilt | src/models/connection.rs:70-115 | the other direction fails: a map holding an empty output slot is not rebuilt from its flat list, though its connections are |
| Connections.RetainSlot | src/models/connection.rs:140 | retaining drops every endpoint that targets the node and keeps the rest with their multiplicities; the slot shrinks exactly when it held such an endpoint |
| Connections.RemoveFromMap | src/models/connection.rs:134-148 | removal keeps every source, type and slot count, touches only the given source, and reports nothing when the source is absent |
| Connections.RemoveFromMapOccurrences | src/models/connection.rs:134-148 | after removal, no connection from the source to the target remains and every other connection is stored as often as before |
| Connections.RemoveFromMapReports | src/models/connection.rs:134-148 | the result is true exactly when some connection from the source to the target was stored |
| Connections.ReportedRemovalWasStored | src/models/connection.rs:139-143 | a true result means something was removed |
| Connections.StoredConnectionIsReported | src/models/connection.rs:139-143 | a stored connection from the source to the target makes the result true |
| Connections.RemoveFromMapFlatten | src/models/connection.rs:134-148 | the flat connections after removal are exactly the old ones minus those from the source to the target, and no connection gains copies |
| Connections.RetainAllOccurrences | src/models/workflow.rs:242-248 | dropping a target from every slot removes exactly the connections into that node |
| Workflows.FindIndex | src/models/workflow.rs:251-254 | the position found is the first node whose id or name equals the key; none is found only when no node matches |
| Workflows.FindNode | src/models/workflow.rs:210-214 | a node is found exactly when some node's id or name equals the key, and it is the first such node |
| Workflows.GetNodeName | src/models/workflow.rs:224-226 | the name of the first node matching the key by id or name, present exactly when one matches |
| Workflows.GetNodeNameOfName | src/models/workflow.rs:224-226 | looking up a node by its own name returns that name, provided no earlier node matches it |
| Workflows.NodeNames | src/models/workflow.rs:293-295 | one name per node, in node order |
| Workflows.AddNode | src/models/workflow.rs:229-231 | the node is appended, and nodes, connections and every other field are otherwise unchanged |
| Workflows.RemoveNode | src/models/workflow.rs:234-256 | the removed node is the one `find_node` returns; with no match nothing changes; otherwise exactly one node goes, its outgoing entry disappears, and only nodes and connections change |
| Workflows.RemoveNodeEffect | src/models/workflow.rs:234-256 | the node removed is the one at the first position whose id or name matches, it is cut out of the list with the others kept in order, every connection from or to it disappears, and all other connections stay with their multiplicities |
| Workflows.RemoveNodeFlatten | src/models/workflow.rs:234-256 | the flat connections after removal are exactly the old ones that neither start nor end at the removed node |
| Workflows.AddConnection | src/models/workflow.rs:264-266 | the connection is stored once more and nothing else in the workflow changes |
| Workflows.AddConnectionFlat | src/models/workflow.rs:259-266 | the flat connections after adding are the old ones plus the new one |
| Workflows.ResolveName | src/models/workflow.rs:271-276 | a node reference resolves to the matching node's name, or is taken literally when no node matches |
| Workflows.RemoveConnection | src/models/workflow.rs:269-279 | both ends are resolved first; the result is true exactly when a connection between the resolved names was stored; exactly those connections are removed and nothing else changes |
| Workflows.MaxX | src/models/workflow.rs:283 | the largest x coordinate among the nodes, absent exactly when there are no nodes |
| Workflows.AutoPosition | src/models/workflow.rs:282-285 | the new node goes at y = 100 and x = the largest x plus 200, wrapped to i32, or x = 200 when there are no nodes |
| Workflows.AutoPositionRightOfAll | src/models/workflow.rs:282-285 | without overflow the new position lies strictly right of every node |
| Workflows.AutoPositionWraps | src/models/workflow.rs:284 | with a node at `i32::MAX` the sum wraps round to a large negative x |
| Workflows.AnyTrigger | src/models/workflow.rs:288-290 | the workflow has a trigger exactly when some node is a trigger |
| Workflows.RetargetSlot | src/models/workflow.rs:307-313 | renaming keeps the slot length, and no endpoint in the slot targets the old name afterwards |
| Workflows.RenameNodeInConnections | src/models/workflow.rs:298-316 | the old source key is replaced by the new one when it was present; only the connections change |
| Workflows.RenameClearsOld | src/models/workflow.rs:298-316 | after a rename to a different name, no stored connection mentions the old name at either end |
| Workflows.RenameKeepsOthers | src/models/workflow.rs:298-316 | connections that involve neither name are stored as often as before, and so are connections leaving the new name when the old node had no outgoing entry to move there |
| Workflows.RenameMovesOutgoing | src/models/workflow.rs:300-302 | each outgoing connection of the old node is now stored under the new name, as often as before |
| Workflows.RetargetSlotCountNew | src/models/workflow.rs:304-314 | in one slot, endpoints aimed at the new name afterwards are those aimed at the new name or the old name before |
| Workflows.RenameRetargetsIncoming | src/models/workflow.rs:298-316 | a connection into the new name afterwards is stored as often as the same connection into the new or the old name was before; when it also leaves the new name and the old node had outgoing connections, its source before was the old node, so a self-loop on the renamed node collects the old self-loops and the old node's connections into the new name |
| Workflows.RetargetSlotCount | src/models/workflow.rs:308-312 | retargeting does not change how often an endpoint naming neither node occurs |
| Workflows.RenamePreservesCount | src/models/workflow.rs:298-316 | when the new name has no outgoing entry of its own, a rename neither loses nor adds connections |
| Workflows.RenameOverwritesExisting | src/models/workflow.rs:300-302 | when both names already have outgoing entries, the old node's entry replaces the new one's, so connections are lost |
| Validation.OfSeverity | src/validation/workflow.rs:29-41 | the filter keeps exactly the issues of the given severity, with their multiplicities |
| Validation.ErrorsWarningsPartition | src/validation/workflow.rs:29-41 | errors and warnings together are all the issues, nothing lost or repeated |
| Validation.IsValidIff | src/validation/workflow.rs:22-34 | a result is valid exactly when it has no errors |
| Validation.IsValidAppend | src/validation/workflow.rs:22-27 | issues appended together are valid exactly when both parts are |
| Validation.Line | src/validation/workflow.rs:52-63 | a line starts with `ERROR` or `WARNING` and ends with `: ` and the message; without a node it is exactly label, `: `, message, and with a node it is label, ` [`, node, `]`, `: `, message; a line made of single-line parts has no newline |
| Validation.ShownIsFilter | src/validation/workflow.rs:47-50 | with warnings, every issue is shown; without, exactly the errors in order |
| Validation.Lines | src/validation/workflow.rs:47-64 | one formatted line per shown issue, in order |
| Validation.FormatLines | src/validation/workflow.rs:44-67 | when at least one issue is shown and no message or node name holds a newline, splitting the output at newlines gives back exactly one formatted line per shown issue |
| Validation.DuplicateScan | src/validation/workflow.rs:84-106 | the duplicate scan yields only errors, and none at all exactly when the keys are pairwise distinct and none is already seen |
| Validation.DuplicateScanCount | src/validation/workflow.rs:84-106 | one error per repeated occurrence: errors plus distinct new keys equal the number of nodes |
| Validation.DuplicateScanMembers | src/validation/workflow.rs:84-106 | each node whose id (or name) an earlier node already holds gets its `Duplicate node ID`/`Duplicate node name` error naming the node by name, and every reported error is such a node's |
| Validation.DuplicateNameErrors | src/validation/workflow.rs:96-106 | the number of duplicate-name errors is the number of nodes minus the number of distinct names |
| Validation.TriggerIssues | src/validation/workflow.rs:111-120 | there is a trigger warning exactly when no node is a trigger |
| Validation.NameSet | src/validation/workflow.rs:109 | the valid names are exactly the names of the nodes |
| Validation.ReferenceScan | src/validation/workflow.rs:122-145 | reference checks yield only errors, and none exactly when every connection's source and target are node names |
| Validation.ReferenceScanCount | src/validation/workflow.rs:122-145 | one error per connection with an unknown source plus one per connection with an unknown target; each such connection's error, naming the unknown node, is reported, and every reported error is one of these |
| Validation.ReferencesIff | src/validation/workflow.rs:122-145 | no reference error exactly when every stored connection starts and ends at an existing node |
| Validation.Connected | src/validation/workflow.rs:148-152 | the connected names are exactly those that occur as a source or target of some connection |
| Validation.OrphanScan | src/validation/workflow.rs:154-164 | orphan checks yield only warnings, and none exactly when every node is a trigger or connected |
| Validation.OrphanScanCount | src/validation/workflow.rs:154-164 | one warning per non-trigger node that no connection touches; each such node's warning, naming it, is reported, and every reported warning is one of these |
| Validation.SelfLoopScan | src/validation/workflow.rs:166-175 | self-loop checks yield only warnings, and none exactly when no connection starts and ends at the same node |
| Validation.SelfLoopScanCount | src/validation/workflow.rs:166-175 | one warning per self-loop connection; each self-loop's warning, naming its node, is reported, and every reported warning is one of these |
| Validation.BlankNameScan | src/validation/workflow.rs:177-186 | blank-name checks yield only errors, each naming a node, and none exactly when no node name is all white space |
| Validation.BlankNameScanCount | src/validation/workflow.rs:177-186 | one error per node with a blank name; each such node's error, naming it by id, is reported, and every reported error is one of these |
| Validation.WorkflowNameIssues | src/validation/workflow.rs:188-195 | there is a workflow-name error exactly when the name is all white space |
| Validation.WarningsOnlyValid | src/validation/workflow.rs:22-27 | warnings alone never make a result invalid |
| Validation.ErrorsOnlyValid | src/validation/workflow.rs:22-27 | a list of errors is valid only when empty |
| Validation.ValidIffWellFormed | src/validation/workflow.rs:71-197 | a workflow with nodes validates exactly when ids and names are distinct, every connection references existing nodes, no node name is blank and the workflow name is not blank; trigger, orphan and self-loop findings do not affect validity |
| Validation.EmptyWorkflowWarns | src/validation/workflow.rs:75-82 | a workflow without nodes yields only the "no nodes" warning and is valid |
| Validation.SharedNameInvalid | src/validation/workflow.rs:96-106 | two nodes with one name make a workflow invalid |
| Diff.CompareNodes | src/diff/workflow_diff.rs:126-176 | a node diff exists exactly when name, type, position, disabled flag or parameters differ; it carries the old id and name; each change records a field that differs with its old and new value, the changes follow the order name, type, position, disabled, parameters without repeats, and each field's change is present exactly when that field differs |
| Diff.ById | src/diff/workflow_diff.rs:49-50 | the map's keys are exactly the nodes' ids |
| Diff.ByIdMember | src/diff/workflow_diff.rs:49-50 | each id maps to one of the nodes carrying that id |
| Diff.ByIdLastWins | src/diff/workflow_diff.rs:49-50 | with duplicate ids, the last node with an id is the one kept |
| Diff.ModifiedScan | src/diff/workflow_diff.rs:64-71 | no modifications are reported exactly when every shared id maps to similar nodes |
| Diff.ModifiedScanElements | src/diff/workflow_diff.rs:64-71 | the reported diffs are exactly the `compare_nodes` results of the scanned ids that differ |
| Diff.KeysOf | src/diff/workflow_diff.rs:74-97 | the key set holds exactly the (source, output, target, input) keys of the connections |
| Diff.KeyNotIn | src/diff/workflow_diff.rs:99-121 | the kept connections are those whose key is not in the other set, with their multiplicities |
| Diff.NodesOnlyIn | src/diff/workflow_diff.rs:56-62 | one node per id present only on one side |
| Diff.NodesOnlyInSpec | src/diff/workflow_diff.rs:56-62 | the nodes reported come from that side, have ids missing from the other, and cover every such id |
| Diff.NodesModifiedEmpty | src/diff/workflow_diff.rs:64-71 | no modified nodes exactly when every shared id has similar old and new nodes |
| Diff.ModifiedScanIds | src/diff/workflow_diff.rs:64-71 | over distinct scanned ids, every reported diff carries a scanned id and no id is reported twice |
| Diff.NodesModifiedDistinct | src/diff/workflow_diff.rs:49-71 | no two modified-node diffs carry the same id |
| Diff.NodesModifiedFor | src/diff/workflow_diff.rs:49-71 | for an id both workflows hold, a diff with that id is reported exactly when its old and new nodes differ, and that diff is their `compare_nodes` result; every reported diff has a shared id |
| Diff.KeysOfStored | src/diff/workflow_diff.rs:74-85 | a connection's key is in the key set exactly when some stored connection has the same key |
| Diff.ConnectionsOnlyIn | src/diff/workflow_diff.rs:99-121 | each stored connection is reported, as often as stored, exactly when the other side has no connection with its key |
| Diff.Compare | src/diff/workflow_diff.rs:35-124 | the name and active changes are reported exactly when they differ, as the (old, new) pair; one node is added per new id and one removed per vanished id |
| Diff.CompareNodeLists | src/diff/workflow_diff.rs:48-62 | added nodes come from the new workflow and have ids the old lacks, and every such id is covered; symmetrically for removed nodes |
| Diff.CompareConnections | src/diff/workflow_diff.rs:73-121 | added connections are the new ones whose key is absent from the old, removed connections the old ones whose key is absent from the new, each as often as stored |
| Diff.CompareSwap | src/diff/workflow_diff.rs:35-124 | swapping old and new swaps added and removed nodes (as multisets, whatever order the id sets are walked in) and connections, and keeps whether anything was modified |
| Diff.ConnectionsOnlyInEmpty | src/diff/workflow_diff.rs:99-121 | no added connections exactly when every new connection's key is also stored in the old |
| Diff.NodeListsEmpty | src/diff/workflow_diff.rs:53-62 | no added and no removed nodes exactly when both workflows have the same id set |
| Diff.IsEmptyIff | src/diff/workflow_diff.rs:179-187 | a diff is empty exactly when name, active flag and id set agree, shared ids map to similar nodes and both sides store the same connection keys |
| Diff.CompareSelf | src/diff/workflow_diff.rs:35-187 | a workflow compared with itself gives an empty diff |
| Diff.CompareRenamed | src/diff/workflow_diff.rs:126-176 | a node compared with a copy under another name yields exactly one change, the name change |
| Diff.RenameIsModification | src/diff/workflow_diff.rs:49-71 | in any two workflows, a node whose id is kept and whose other compared fields are unchanged but whose name differs is neither added nor removed, and exactly one diff carries its id: the name change alone |
| Diff.ConnectionTypesIgnored | src/diff/workflow_diff.rs:74-97 | connections differing only in their types are not reported |
| Errors.UserMessage | src/error.rs:112-117 | the message comes first; without a hint it is the whole text; with one it is followed by the separator and the hint |
| Errors.SplitUserMessageRoundTrip | src/error.rs:112-117 | when the message does not contain the separator, message and hint can be read back from the text |
| Errors.ExitCode | src/error.rs:131-169 | each exit code is produced exactly by its error kinds: 78 configuration, 77 permission (including API 401/403), 69 unavailable (including API 404 and missing nodes/connections), 74 I/O, 65 data, 130 cancel, 0 no changes, 1 any other API status |
| Common.TruncateAsWritten | src/models/common.rs:19-25 | text within the limit is returned whole; the code panics exactly when the text is too long and the cut point is not on a character boundary |
| Common.TruncateAsWrittenPanics | src/models/common.rs:23 | `truncate("éabc", 4)` cuts inside `é` and panics |
| Common.TruncateAsWrittenAscii | src/models/common.rs:19-25 | ASCII text never panics |
| Common.TruncateAsWrittenExactLength | src/models/common.rs:19-25 | with a limit of at least 3, text that is shortened without a panic comes out exactly as many bytes long as the limit |
| Common.TruncateAsWrittenTinyLimit | src/models/common.rs:19-25 | with a limit below 3, any text that is too long becomes `...`, which itself exceeds the limit |
| Common.Truncate | src/models/common.rs:19-25 | text within the limit is returned whole; longer text is cut at the last character boundary within the limit minus 3 and gets `...` |
| Common.TruncateFits | src/models/common.rs:19-25 | with a limit of at least 3, the result never exceeds the limit in bytes |
| Common.TruncateAgrees | src/models/common.rs:19-25 | wherever the code as written does not panic, it agrees with the corrected version |
| Common.ByteLenAppend | src/models/common.rs:20 | the UTF-8 length of a concatenation is the sum of the lengths |
| PositionArg.ParsePosition | src/cli/workflows.rs:369-383 | the result is the format error exactly when the text does not split into two parts at commas; otherwise the x or y error, or two i32 values |
| PositionArg.FormatErrorIff | src/cli/workflows.rs:370-373 | the format error is reported exactly when the text does not contain exactly one comma |
| PositionArg.SplitCount | src/cli/workflows.rs:370 | splitting at commas gives one more part than there are commas |
| PositionArg.ParsePositionRoundTrip | src/cli/workflows.rs:369-383 | any two i32 values written as `x,y`, with white space around either number, parse back to the same pair |
| PositionArg.BadXFirst | src/cli/workflows.rs:374-377 | a bad x is reported as the x error whatever the y part holds |
| PositionArg.BadYSecond | src/cli/workflows.rs:378-381 | a good x with a bad y is reported as the y error |
| Text.TrimEmptyIff | src/validation/workflow.rs:179 | a string trims to nothing exactly when it is all white space |
| Text.TrimPadded | src/cli/workflows.rs:374-381 | trimming removes exactly the white space around a word |
| Text.SplitJoin | src/cli/workflows.rs:370 | comma-free parts joined with commas split back into the same parts |
| Text.JoinSplit | src/cli/workflows.rs:370 | joining the parts of a split with the separator gives back the original text |
| Text.ParseShow | src/cli/workflows.rs:376 | the decimal rendering of an i32 parses back to that value |
| Text.WrapI32 | src/models/workflow.rs:284 | the wrapped value is an i32, agrees with the input when that is an i32, and differs from it by a multiple of 2^32 |
| Pagination.New | src/client/pagination.rs:21-23 | new parameters have neither a limit nor a cursor |
| Pagination.WithLimit | src/client/pagination.rs:25-28 | the stored limit is present and at most 250, equals the request exactly when that is at most 250, is 250 otherwise, and the cursor is untouched |
| Pagination.WithCursor | src/client/pagination.rs:30-33 | the cursor is replaced, `None` included, and the limit is untouched |
| Pagination.BuildLimitOk | src/client/pagination.rs:21-33 | however the parameters are built, the stored limit never exceeds 250 |
| Pagination.BuildLastWins | src/client/pagination.rs:21-33 | the last limit call decides the limit (capped at 250) and the last cursor call decides the cursor; without such a call the field keeps its initial `None` |
| Pagination.WithLimitLastWins | src/client/pagination.rs:25-28 | setting the limit twice is the same as setting it once to the second value |
| Pagination.BuilderCallsCommute | src/client/pagination.rs:25-33 | the limit and cursor calls touch different fields, so their order does not matter |
| ConfigLoader.EnvVar | src/config/loader.rs:92 | a variable reads as present exactly when it is set, with its value |
| ConfigLoader.ApplyFile | src/config/loader.rs:80-115 | the file layer fails with ProfileNotFound exactly when a profile name is selected that the file does not define; otherwise the file's timeout, when set, replaces the current one |
| ConfigLoader.ApplyEnv | src/config/loader.rs:119-125 | the environment layer never touches timeout or output format and changes nothing when neither variable is set |
| ConfigLoader.ApplyCli | src/config/loader.rs:127-138 | after the command-line layer, output format, verbose and quiet are those given on the command line, and the timeout is kept |
| ConfigLoader.LoadConfig | src/config/loader.rs:70-141 | with no config file loading cannot fail; an unreadable file yields ConfigFileRead and a malformed one ConfigFileParse; a loaded config always takes output format, verbose and quiet from the command line |
| ConfigLoader.FirstOf | src/config/loader.rs:89-93 | the first option holding a value, present exactly when some option holds one |
| ConfigLoader.ProfileNamePrecedence | src/config/loader.rs:89-93 | the profile name is the command line's, else `N8N_PROFILE`, else the file's default profile |
| ConfigLoader.LoadConfigErrors | src/config/loader.rs:70-117 | loading fails exactly on an unreadable file, a malformed file, or a selected profile missing from the file; the last fails with ProfileNotFound naming that profile |
| ConfigLoader.BaseUrlPrecedence | src/config/loader.rs:96-130 | base_url is the command line's, else `N8N_BASE_URL`, else the selected profile's, else `http://localhost:5678` |
| ConfigLoader.ApiKeyPrecedence | src/config/loader.rs:100-133 | api_key is the command line's, else `N8N_API_KEY`, else the profile's own key, else the variable the profile names, else empty |
| ConfigLoader.TimeoutFromFile | src/config/loader.rs:84-86 | the timeout is the file's when it sets one, else 30 seconds; nothing later overrides it |
| ConfigLoader.ProfileIgnoredWithoutFile | src/config/loader.rs:74-117 | without a config file a requested profile is ignored and never reported missing |
| ConfigLoader.NothingConfigured | src/config/loader.rs:19-30 | with no file, no environment and no URL or key on the command line, the defaults stand apart from the command-line flags |
| ConfigLoader.ValidateConfig | src/config/loader.rs:144-152 | validation passes exactly when key and URL are both non-empty; an empty key is reported first as MissingApiKey, then an empty URL as MissingBaseUrl |
| ConfigLoader.CliCredentialsValidate | src/config/loader.rs:127-152 | non-empty URL and key given on the command line always yield a configuration that validates |

## Left out

- I/O: reading the config file, reading environment variables, and locating the config directory. They are inputs here: `ConfigLoader.FileState` and `ConfigLoader.Env`. A variable whose value is not Unicode counts as unset, as `.ok()` makes it.
- The HTTP client, endpoint code, command handlers in `src/main.rs`, confirmation prompts, the external editor, skill installation, and all terminal output (`print_summary`, `print_full`, table and JSON printing). They do I/O or only render.
- HashMap and HashSet iteration order. It is unspecified, so it is an arbitrary but fixed choice (`Unordered.Pick`), and properties of the walks are stated over multisets, sets or counts.
- `Node.type_version` (an `f64`) and the serde-only fields and conversions: `from_detail`, `to_definition`, `WorkflowSettings`, and the `extra` flatten. JSON values are an opaque datatype compared by equality.
- Diff.CompareNodes: the parameter change carries the old and new values, not the unified text diff the `similar` crate renders. The condition compares values rather than their pretty-printed JSON. The two agree as long as equal values print equally; floating-point formatting is not modelled.
- Node ids from `Node::generate_id` (UUID) and timestamps (`chrono`): foreign libraries.
- `Connection::new_full` is the `Connections.Connection` constructor itself.
- `PaginatedResponse` and `ApiErrorResponse::unknown`: plain records built from the HTTP response.
- Errors.Describe gives each error's display text but carries no contract. The texts are data, not behaviour.
- u32 slot and input numbers are `nat`, bounded only where the source reads or writes them (`Connections.EndpointFromValue`). `usize` casts and index overflow are not modelled.
- Common.TruncateFits: only claimed for limits of at least 3. With a smaller limit the code returns `...`, which is longer than the limit (`Common.TruncateAsWrittenTinyLimit`). This is kept as written, since the ellipsis is evidently wanted.
- Connections.EndpointFromValue: reads only the object form of an endpoint. serde's derived deserialiser also accepts the fields as an array in declaration order (`["B"]`, `["B", "main", 0]`); the model rejects that form, which n8n itself never writes.
- Workflows.AutoPosition: models `max_x + 200` with the wrap-around of a release build. A debug build panics on that overflow instead; the panic is not modelled.
- Validation.BlankNameScan and Validation.WorkflowNameIssues: state "blank" as "all white space" (`Validation.Blank`) rather than calling `trim`. The two agree by `Text.TrimEmptyIff`.
- `parse::<i32>` (`Text.ParseI32`): accepts an optional sign and ASCII digits within the i32 range, as Rust's implementation does. Its error values are not modelled, because the source maps them to fixed strings.

## Findings

| source | as written | input that shows it | evidently intended | confidence | as-written member | corrected member |
|---|---|---|---|---|---|---|
| src/models/common.rs:19-25 | `truncate` slices the string at byte offset `max_len - 3`, which panics when that offset falls inside a multi-byte UTF-8 character | `truncate("éabc", 4)`: the text is 5 bytes long, and the cut at byte 1 lands inside `é` | cut at the last character boundary at or before `max_len - 3`, then append `...` | not executed | Common.TruncateAsWritten (with Common.TruncateAsWrittenPanics) | Common.Truncate (with Common.TruncateFits and Common.TruncateAgrees) |
