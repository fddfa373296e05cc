/**
 * Structural validation of a workflow (`src/validation/workflow.rs`): the
 * issue list, its error/warning views and text rendering, and the checks
 * `validate_workflow` runs in order.
 */
module Validation {
  import opened Wrappers
  import opened Text
  import opened Nodes
  import opened Connections
  import opened Workflows

  datatype Severity = Error | Warning

  datatype Issue = Issue(severity: Severity, message: string, node: Option<string>)

  datatype ValidationResult = ValidationResult(issues: seq<Issue>)

  /** `is_valid`: no issue is an error. */
  predicate IsValid(r: ValidationResult) {
    !exists i :: 0 <= i < |r.issues| && r.issues[i].severity == Error
  }

  /** The issues of one severity, in their original order. */
  function OfSeverity(issues: seq<Issue>, s: Severity): (r: seq<Issue>)
    ensures |r| <= |issues|
    ensures forall i :: 0 <= i < |r| ==> r[i].severity == s
    ensures forall x :: multiset(r)[x] == if x.severity == s then multiset(issues)[x] else 0
  {
    if issues == [] then []
    else
      assert issues == [issues[0]] + issues[1..];
      var rest := OfSeverity(issues[1..], s);
      if issues[0].severity == s then [issues[0]] + rest else rest
  }

  /** `errors`. */
  function Errors(r: ValidationResult): seq<Issue> {
    OfSeverity(r.issues, Error)
  }

  /** `warnings`. */
  function Warnings(r: ValidationResult): seq<Issue> {
    OfSeverity(r.issues, Warning)
  }

  /** Every issue is either an error or a warning, and the two views together are the whole list. */
  lemma ErrorsWarningsPartition(r: ValidationResult)
    ensures multiset(Errors(r)) + multiset(Warnings(r)) == multiset(r.issues)
    ensures |Errors(r)| + |Warnings(r)| == |r.issues|
  {
    var e, w := Errors(r), Warnings(r);
    assert multiset(e) + multiset(w) == multiset(r.issues) by {
      forall x ensures (multiset(e) + multiset(w))[x] == multiset(r.issues)[x] {
      }
    }
    assert |multiset(e) + multiset(w)| == |multiset(r.issues)|;
  }

  /** A result is valid exactly when its error view is empty. */
  lemma IsValidIff(r: ValidationResult)
    ensures IsValid(r) <==> Errors(r) == []
  {
    if !IsValid(r) {
      var i :| 0 <= i < |r.issues| && r.issues[i].severity == Error;
      assert r.issues[i] in multiset(r.issues);
      assert r.issues[i] in multiset(Errors(r));
    }
  }

  /** Validity of a concatenation: neither part holds an error. */
  lemma IsValidAppend(a: seq<Issue>, b: seq<Issue>)
    ensures IsValid(ValidationResult(a + b)) <==> IsValid(ValidationResult(a)) && IsValid(ValidationResult(b))
  {
    var ab := a + b;
    if !IsValid(ValidationResult(ab)) {
      var i :| 0 <= i < |ab| && ab[i].severity == Error;
      if i < |a| {
        assert a[i] == ab[i];
      } else {
        assert b[i - |a|] == ab[i];
      }
    }
    if !IsValid(ValidationResult(a)) {
      var i :| 0 <= i < |a| && a[i].severity == Error;
      assert ab[i] == a[i];
    }
    if !IsValid(ValidationResult(b)) {
      var i :| 0 <= i < |b| && b[i].severity == Error;
      assert ab[|a| + i] == b[i];
    }
  }

  // ---------------------------------------------------------------------
  // Rendering
  // ---------------------------------------------------------------------

  function SeverityLabel(s: Severity): string {
    match s
    case Error => "ERROR"
    case Warning => "WARNING"
  }

  /** One rendered line: the severity prefix, ` [node]` when a node is named, then `: message`. */
  function Line(i: Issue): (r: string)
    ensures |SeverityLabel(i.severity)| <= |r| && r[..|SeverityLabel(i.severity)|] == SeverityLabel(i.severity)
    ensures |r| >= |i.message| + 2 && r[|r| - |i.message| - 2..] == ": " + i.message
    ensures i.node.None? ==> r == SeverityLabel(i.severity) + ": " + i.message
    ensures i.node.Some? ==> r == SeverityLabel(i.severity) + " [" + i.node.value + "]" + ": " + i.message
    ensures SingleLine(i) ==> '\n' !in r
  {
    var prefix := SeverityLabel(i.severity);
    var nodeInfo := match i.node
      case None => ""
      case Some(n) => " [" + n + "]";
    var head := prefix + nodeInfo;
    var tail := ": " + i.message;
    var r := head + tail;
    assert r[..|prefix|] == head[..|prefix|] == prefix;
    assert r[|head|..] == tail;
    assert '\n' !in prefix;
    assert r == prefix + nodeInfo + ": " + i.message;
    r
  }

  /** The issues `format` prints: all of them, or without the warnings. */
  function Shown(issues: seq<Issue>, includeWarnings: bool): (r: seq<Issue>)
    ensures forall x :: x in r ==> x in issues
  {
    if issues == [] then []
    else if !includeWarnings && issues[0].severity == Warning then Shown(issues[1..], includeWarnings)
    else [issues[0]] + Shown(issues[1..], includeWarnings)
  }

  /** With warnings every issue is shown; without, exactly the error view. */
  lemma {:induction false} ShownIsFilter(issues: seq<Issue>)
    ensures Shown(issues, true) == issues
    ensures Shown(issues, false) == OfSeverity(issues, Error)
  {
    if issues != [] {
      ShownIsFilter(issues[1..]);
      assert issues == [issues[0]] + issues[1..];
    }
  }

  function Lines(issues: seq<Issue>): (r: seq<string>)
    ensures |r| == |issues|
    ensures forall i :: 0 <= i < |r| ==> r[i] == Line(issues[i])
  {
    seq(|issues|, i requires 0 <= i < |issues| => Line(issues[i]))
  }

  /** `format`: one line per shown issue, separated by newlines. */
  function Format(r: ValidationResult, includeWarnings: bool): string {
    Join(Lines(Shown(r.issues, includeWarnings)), "\n")
  }

  predicate SingleLine(i: Issue) {
    '\n' !in i.message && (i.node.Some? ==> '\n' !in i.node.value)
  }

  /**
   * When no message or node name holds a line break, splitting the
   * rendering at line breaks gives back one line per shown issue.
   */
  lemma FormatLines(r: ValidationResult, includeWarnings: bool)
    requires Shown(r.issues, includeWarnings) != []
    requires forall i :: 0 <= i < |r.issues| ==> SingleLine(r.issues[i])
    ensures Split(Format(r, includeWarnings), '\n') == Lines(Shown(r.issues, includeWarnings))
  {
    var shown := Shown(r.issues, includeWarnings);
    forall k | 0 <= k < |shown| ensures '\n' !in Lines(shown)[k] {
      assert shown[k] in r.issues;
    }
    SplitJoin(Lines(shown), '\n');
  }

  // ---------------------------------------------------------------------
  // The checks
  // ---------------------------------------------------------------------

  /** The two keys that must be unique across the node list. */
  datatype KeyKind = ById | ByName

  function KeyOf(n: Node, k: KeyKind): string {
    match k
    case ById => n.id
    case ByName => n.name
  }

  function DuplicateMessage(n: Node, k: KeyKind): string {
    match k
    case ById => "Duplicate node ID: " + n.id
    case ByName => "Duplicate node name: " + n.name
  }

  /** The error for a node whose key an earlier node (or `seen`) already holds; it names the node by name. */
  function DuplicateIssue(n: Node, k: KeyKind): Issue {
    Issue(Error, DuplicateMessage(n, k), Some(n.name))
  }

  predicate DistinctKeys(nodes: seq<Node>, k: KeyKind) {
    forall i, j :: 0 <= i < j < |nodes| ==> KeyOf(nodes[i], k) != KeyOf(nodes[j], k)
  }

  function KeySet(nodes: seq<Node>, k: KeyKind): set<string> {
    set i | 0 <= i < |nodes| :: KeyOf(nodes[i], k)
  }

  /**
   * The `HashSet::insert` scan: every node whose key was already seen (in
   * `seen` or earlier in the list) yields an error naming the node; the
   * first holder of a key is never reported.
   */
  function DuplicateScan(nodes: seq<Node>, k: KeyKind, seen: set<string>): (r: seq<Issue>)
    ensures forall i :: 0 <= i < |r| ==> r[i].severity == Error
    ensures r == [] <==>
      (forall i :: 0 <= i < |nodes| ==> KeyOf(nodes[i], k) !in seen) && DistinctKeys(nodes, k)
    decreases |nodes|
  {
    if nodes == [] then []
    else
      var key := KeyOf(nodes[0], k);
      var here := if key in seen then [DuplicateIssue(nodes[0], k)] else [];
      var rest := DuplicateScan(nodes[1..], k, seen + {key});
      assert forall i :: 0 < i < |nodes| ==> nodes[i] == nodes[1..][i - 1];
      here + rest
  }

  /** One error per node beyond the first holder of each key. */
  lemma {:induction false} DuplicateScanCount(nodes: seq<Node>, k: KeyKind, seen: set<string>)
    ensures |DuplicateScan(nodes, k, seen)| + |KeySet(nodes, k) - seen| == |nodes|
    decreases |nodes|
  {
    if nodes != [] {
      var key := KeyOf(nodes[0], k);
      DuplicateScanCount(nodes[1..], k, seen + {key});
      var rest := KeySet(nodes[1..], k);
      KeySetCons(nodes, k);
      var a, b := rest - (seen + {key}), {key} - seen;
      assert KeySet(nodes, k) - seen == a + b;
      assert a * b == {};
    }
  }

  /**
   * Each node whose key is already in `seen` or held by an earlier node has
   * its error reported, and every reported error is such a node's.
   */
  lemma {:induction false} DuplicateScanMembers(nodes: seq<Node>, k: KeyKind, seen: set<string>)
    ensures forall i :: 0 <= i < |nodes| && KeyOf(nodes[i], k) in seen + KeySet(nodes[..i], k) ==>
      DuplicateIssue(nodes[i], k) in DuplicateScan(nodes, k, seen)
    ensures forall x :: x in DuplicateScan(nodes, k, seen) ==>
      exists i :: 0 <= i < |nodes| && KeyOf(nodes[i], k) in seen + KeySet(nodes[..i], k)
        && x == DuplicateIssue(nodes[i], k)
    decreases |nodes|
  {
    if nodes != [] {
      var key := KeyOf(nodes[0], k);
      var tail := nodes[1..];
      var seen' := seen + {key};
      DuplicateScanMembers(tail, k, seen');
      var here := if key in seen then [DuplicateIssue(nodes[0], k)] else [];
      var rest := DuplicateScan(tail, k, seen');
      assert DuplicateScan(nodes, k, seen) == here + rest;
      forall i | 0 <= i < |nodes| && KeyOf(nodes[i], k) in seen + KeySet(nodes[..i], k)
        ensures DuplicateIssue(nodes[i], k) in here + rest
      {
        if i == 0 {
          assert KeySet(nodes[..0], k) == {};
        } else {
          SeenShift(nodes, k, seen, i);
          assert nodes[i] == tail[i - 1];
        }
      }
      forall x | x in rest
        ensures exists i :: 0 <= i < |nodes| && KeyOf(nodes[i], k) in seen + KeySet(nodes[..i], k) && x == DuplicateIssue(nodes[i], k)
      {
        var j :| 0 <= j < |tail| && KeyOf(tail[j], k) in seen' + KeySet(tail[..j], k) && x == DuplicateIssue(tail[j], k);
        SeenShift(nodes, k, seen, j + 1);
        assert nodes[j + 1] == tail[j];
      }
      if here != [] {
        assert KeySet(nodes[..0], k) == {};
      }
    }
  }

  /** The keys seen before position `i` are those seen before the tail's position `i - 1`, plus the head's. */
  lemma SeenShift(nodes: seq<Node>, k: KeyKind, seen: set<string>, i: nat)
    requires 1 <= i < |nodes|
    ensures seen + KeySet(nodes[..i], k) == (seen + {KeyOf(nodes[0], k)}) + KeySet(nodes[1..][..i - 1], k)
  {
    KeySetCons(nodes[..i], k);
    assert nodes[..i][1..] == nodes[1..][..i - 1];
  }

  lemma KeySetCons(nodes: seq<Node>, k: KeyKind)
    requires nodes != []
    ensures KeySet(nodes, k) == {KeyOf(nodes[0], k)} + KeySet(nodes[1..], k)
  {
    var rest := KeySet(nodes[1..], k);
    forall x | x in KeySet(nodes, k) ensures x in {KeyOf(nodes[0], k)} + rest {
      var i :| 0 <= i < |nodes| && KeyOf(nodes[i], k) == x;
      if i > 0 {
        assert nodes[i] == nodes[1..][i - 1];
      }
    }
    forall x | x in rest ensures x in KeySet(nodes, k) {
      var i :| 0 <= i < |nodes[1..]| && KeyOf(nodes[1..][i], k) == x;
      assert nodes[1..][i] == nodes[i + 1];
    }
  }

  const NoTriggerMessage: string := "No trigger node found. Workflow can only be executed manually."

  /** The warning for a workflow without a trigger node. */
  function TriggerIssues(w: Workflow): (r: seq<Issue>)
    ensures r == [] <==> exists i :: 0 <= i < |w.nodes| && IsTrigger(w.nodes[i])
    ensures forall i :: 0 <= i < |r| ==> r[i].severity == Warning
  {
    if HasTrigger(w) then [] else [Issue(Warning, NoTriggerMessage, None)]
  }

  /** `valid_nodes`: the set of node names. */
  function NameSet(w: Workflow): (r: set<string>)
    ensures forall s :: s in r <==> exists i :: 0 <= i < |w.nodes| && w.nodes[i].name == s
  {
    set i | 0 <= i < |w.nodes| :: w.nodes[i].name
  }

  function UnknownSourceIssue(c: Connection): Issue {
    Issue(Error, "Connection references non-existent source node: " + c.sourceNode, Some(c.sourceNode))
  }

  function UnknownTargetIssue(c: Connection): Issue {
    Issue(Error, "Connection references non-existent target node: " + c.targetNode, Some(c.targetNode))
  }

  /** Per connection: an error for an unknown source, then one for an unknown target. */
  function ReferenceScan(conns: seq<Connection>, names: set<string>): (r: seq<Issue>)
    ensures forall i :: 0 <= i < |r| ==> r[i].severity == Error
    ensures r == [] <==>
      forall i :: 0 <= i < |conns| ==> conns[i].sourceNode in names && conns[i].targetNode in names
  {
    if conns == [] then []
    else
      var c := conns[0];
      var src := if c.sourceNode in names then [] else [UnknownSourceIssue(c)];
      var dst := if c.targetNode in names then [] else [UnknownTargetIssue(c)];
      assert forall i :: 0 < i < |conns| ==> conns[i] == conns[1..][i - 1];
      src + dst + ReferenceScan(conns[1..], names)
  }

  /** `connected_nodes`: every name that starts or ends a connection. */
  function Connected(conns: seq<Connection>): (r: set<string>)
    ensures forall s :: s in r <==> exists c :: c in conns && (c.sourceNode == s || c.targetNode == s)
  {
    (set c | c in conns :: c.sourceNode) + (set c | c in conns :: c.targetNode)
  }

  function OrphanIssue(n: Node): Issue {
    Issue(Warning, "Node '" + n.name + "' is not connected to any other node", Some(n.name))
  }

  /** A warning for each non-trigger node that no connection touches. */
  function OrphanScan(nodes: seq<Node>, connected: set<string>): (r: seq<Issue>)
    ensures forall i :: 0 <= i < |r| ==> r[i].severity == Warning
    ensures r == [] <==> forall i :: 0 <= i < |nodes| ==> IsTrigger(nodes[i]) || nodes[i].name in connected
  {
    if nodes == [] then []
    else
      var n := nodes[0];
      var here := if !IsTrigger(n) && n.name !in connected then [OrphanIssue(n)] else [];
      assert forall i :: 0 < i < |nodes| ==> nodes[i] == nodes[1..][i - 1];
      here + OrphanScan(nodes[1..], connected)
  }

  function SelfLoopIssue(c: Connection): Issue {
    Issue(Warning, "Node '" + c.sourceNode + "' has a self-loop connection", Some(c.sourceNode))
  }

  /** A warning for each connection from a node to itself. */
  function SelfLoopScan(conns: seq<Connection>): (r: seq<Issue>)
    ensures forall i :: 0 <= i < |r| ==> r[i].severity == Warning
    ensures r == [] <==> forall i :: 0 <= i < |conns| ==> conns[i].sourceNode != conns[i].targetNode
  {
    if conns == [] then []
    else
      var c := conns[0];
      var here := if c.sourceNode == c.targetNode then [SelfLoopIssue(c)] else [];
      assert forall i :: 0 < i < |conns| ==> conns[i] == conns[1..][i - 1];
      here + SelfLoopScan(conns[1..])
  }

  /**
   * `s.trim().is_empty()`, stated as "only white space" (the two agree by
   * `Text.TrimEmptyIff`; this form keeps the trimming out of the proofs).
   */
  predicate Blank(s: string) {
    AllWhitespace(s)
  }

  function BlankNameIssue(n: Node): Issue {
    Issue(Error, "Node has empty name", Some(n.id))
  }

  /** An error, naming the node by id, for each node whose name is blank after trimming. */
  function BlankNameScan(nodes: seq<Node>): (r: seq<Issue>)
    ensures forall i :: 0 <= i < |r| ==> r[i].severity == Error && r[i].node.Some?
    ensures r == [] <==> forall i :: 0 <= i < |nodes| ==> !Blank(nodes[i].name)
  {
    if nodes == [] then []
    else
      var n := nodes[0];
      var here := if Blank(n.name) then [BlankNameIssue(n)] else [];
      var rest := BlankNameScan(nodes[1..]);
      assert rest == [] <==> forall i :: 1 <= i < |nodes| ==> !Blank(nodes[i].name) by {
        assert forall i :: 0 < i < |nodes| ==> nodes[i] == nodes[1..][i - 1];
      }
      here + rest
  }

  // ---------------------------------------------------------------------
  // What each scan reports, counted over the scanned elements
  // ---------------------------------------------------------------------

  /** How many connections start at a node outside `names`. */
  function UnknownSources(conns: seq<Connection>, names: set<string>): nat {
    if conns == [] then 0
    else (if conns[0].sourceNode in names then 0 else 1) + UnknownSources(conns[1..], names)
  }

  /** How many connections end at a node outside `names`. */
  function UnknownTargets(conns: seq<Connection>, names: set<string>): nat {
    if conns == [] then 0
    else (if conns[0].targetNode in names then 0 else 1) + UnknownTargets(conns[1..], names)
  }

  /** How many non-trigger nodes are not in `connected`. */
  function Orphans(nodes: seq<Node>, connected: set<string>): nat {
    if nodes == [] then 0
    else (if !IsTrigger(nodes[0]) && nodes[0].name !in connected then 1 else 0) + Orphans(nodes[1..], connected)
  }

  /** How many connections lead from a node to itself. */
  function SelfLoops(conns: seq<Connection>): nat {
    if conns == [] then 0
    else (if conns[0].sourceNode == conns[0].targetNode then 1 else 0) + SelfLoops(conns[1..])
  }

  /** How many nodes have a blank name. */
  function BlankNames(nodes: seq<Node>): nat {
    if nodes == [] then 0
    else (if Blank(nodes[0].name) then 1 else 0) + BlankNames(nodes[1..])
  }

  /**
   * One error per unknown source and one per unknown target; every
   * offending connection's error is reported, and nothing else is.
   */
  lemma {:induction false} ReferenceScanCount(conns: seq<Connection>, names: set<string>)
    ensures |ReferenceScan(conns, names)| == UnknownSources(conns, names) + UnknownTargets(conns, names)
    ensures forall c :: c in conns && c.sourceNode !in names ==> UnknownSourceIssue(c) in ReferenceScan(conns, names)
    ensures forall c :: c in conns && c.targetNode !in names ==> UnknownTargetIssue(c) in ReferenceScan(conns, names)
    ensures forall x :: x in ReferenceScan(conns, names) ==>
      exists c :: c in conns &&
        ((c.sourceNode !in names && x == UnknownSourceIssue(c)) || (c.targetNode !in names && x == UnknownTargetIssue(c)))
    decreases |conns|
  {
    if conns != [] {
      var c0, tail := conns[0], conns[1..];
      ReferenceScanCount(tail, names);
      assert conns == [c0] + tail;
      var src := if c0.sourceNode in names then [] else [UnknownSourceIssue(c0)];
      var dst := if c0.targetNode in names then [] else [UnknownTargetIssue(c0)];
      var rest := ReferenceScan(tail, names);
      assert ReferenceScan(conns, names) == src + dst + rest;
      assert UnknownSources(conns, names) == |src| + UnknownSources(tail, names);
      assert UnknownTargets(conns, names) == |dst| + UnknownTargets(tail, names);
      forall x | x in src + dst + rest
        ensures
          exists c :: c in conns &&
            ((c.sourceNode !in names && x == UnknownSourceIssue(c)) || (c.targetNode !in names && x == UnknownTargetIssue(c)))
      {
        if x in rest {
          var c :| c in tail &&
            ((c.sourceNode !in names && x == UnknownSourceIssue(c)) || (c.targetNode !in names && x == UnknownTargetIssue(c)));
          assert c in conns;
        } else {
          assert c0 in conns;
        }
      }
    }
  }

  /** One warning per orphan; every orphan's warning is reported, and nothing else is. */
  lemma {:induction false} OrphanScanCount(nodes: seq<Node>, connected: set<string>)
    ensures |OrphanScan(nodes, connected)| == Orphans(nodes, connected)
    ensures forall n :: n in nodes && !IsTrigger(n) && n.name !in connected ==> OrphanIssue(n) in OrphanScan(nodes, connected)
    ensures forall x :: x in OrphanScan(nodes, connected) ==>
      exists n :: n in nodes && !IsTrigger(n) && n.name !in connected && x == OrphanIssue(n)
    decreases |nodes|
  {
    if nodes != [] {
      var tail := nodes[1..];
      OrphanScanCount(tail, connected);
      assert nodes == [nodes[0]] + tail;
      assert forall n :: n in tail ==> n in nodes;
    }
  }

  /** One warning per self-loop; every self-loop's warning is reported, and nothing else is. */
  lemma {:induction false} SelfLoopScanCount(conns: seq<Connection>)
    ensures |SelfLoopScan(conns)| == SelfLoops(conns)
    ensures forall c :: c in conns && c.sourceNode == c.targetNode ==> SelfLoopIssue(c) in SelfLoopScan(conns)
    ensures forall x :: x in SelfLoopScan(conns) ==>
      exists c :: c in conns && c.sourceNode == c.targetNode && x == SelfLoopIssue(c)
    decreases |conns|
  {
    if conns != [] {
      var tail := conns[1..];
      SelfLoopScanCount(tail);
      assert conns == [conns[0]] + tail;
      assert forall c :: c in tail ==> c in conns;
    }
  }

  /** One error per blank-named node; every such node's error is reported, and nothing else is. */
  lemma {:induction false} BlankNameScanCount(nodes: seq<Node>)
    ensures |BlankNameScan(nodes)| == BlankNames(nodes)
    ensures forall n :: n in nodes && Blank(n.name) ==> BlankNameIssue(n) in BlankNameScan(nodes)
    ensures forall x :: x in BlankNameScan(nodes) ==> exists n :: n in nodes && Blank(n.name) && x == BlankNameIssue(n)
    decreases |nodes|
  {
    if nodes != [] {
      var tail := nodes[1..];
      BlankNameScanCount(tail);
      assert nodes == [nodes[0]] + tail;
      assert forall n :: n in tail ==> n in nodes;
    }
  }

  /** The error for a workflow whose own name is blank after trimming. */
  function WorkflowNameIssues(w: Workflow): (r: seq<Issue>)
    ensures r == [] <==> !AllWhitespace(w.name)
    ensures forall i :: 0 <= i < |r| ==> r[i].severity == Error
  {
    if Blank(w.name) then [Issue(Error, "Workflow has empty name", None)] else []
  }

  const NoNodesMessage: string := "Workflow has no nodes"

  /** `validate_workflow`: the checks in the source's order, stopping early on an empty node list. */
  ghost function ValidateWorkflow(w: Workflow): ValidationResult {
    if w.nodes == [] then ValidationResult([Issue(Warning, NoNodesMessage, None)])
    else
      var conns := ConnectionsFlat(w);
      ValidationResult(
        DuplicateScan(w.nodes, ById, {})
        + DuplicateScan(w.nodes, ByName, {})
        + TriggerIssues(w)
        + ReferenceScan(conns, NameSet(w))
        + OrphanScan(w.nodes, Connected(conns))
        + SelfLoopScan(conns)
        + BlankNameScan(w.nodes)
        + WorkflowNameIssues(w))
  }

  /** What a structurally sound workflow satisfies, stated without the validator. */
  ghost predicate WellFormed(w: Workflow) {
    && DistinctKeys(w.nodes, ById)
    && DistinctKeys(w.nodes, ByName)
    && (forall c :: Occurrences(w.connections, c) > 0 ==>
          (exists i :: 0 <= i < |w.nodes| && w.nodes[i].name == c.sourceNode)
          && (exists j :: 0 <= j < |w.nodes| && w.nodes[j].name == c.targetNode))
    && (forall i :: 0 <= i < |w.nodes| ==> !AllWhitespace(w.nodes[i].name))
    && !AllWhitespace(w.name)
  }

  lemma WarningsOnlyValid(r: seq<Issue>)
    requires forall i :: 0 <= i < |r| ==> r[i].severity == Warning
    ensures IsValid(ValidationResult(r))
  {
  }

  lemma ErrorsOnlyValid(r: seq<Issue>)
    requires forall i :: 0 <= i < |r| ==> r[i].severity == Error
    ensures IsValid(ValidationResult(r)) <==> r == []
  {
    if r != [] {
      assert r[0].severity == Error;
    }
  }

  /** The flat connections all name existing nodes exactly when every stored connection does. */
  lemma ReferencesIff(w: Workflow)
    ensures ReferenceScan(ConnectionsFlat(w), NameSet(w)) == [] <==>
      forall c :: Occurrences(w.connections, c) > 0 ==>
        (exists i :: 0 <= i < |w.nodes| && w.nodes[i].name == c.sourceNode)
        && (exists j :: 0 <= j < |w.nodes| && w.nodes[j].name == c.targetNode)
  {
    var conns := ConnectionsFlat(w);
    var names := NameSet(w);
    if ReferenceScan(conns, names) == [] {
      forall c | Occurrences(w.connections, c) > 0
        ensures c.sourceNode in names && c.targetNode in names
      {
        FlattenMember(w.connections, c);
        var k :| 0 <= k < |conns| && conns[k] == c;
      }
    } else {
      var k :| 0 <= k < |conns| && !(conns[k].sourceNode in names && conns[k].targetNode in names);
      FlattenMember(w.connections, conns[k]);
    }
  }

  /**
   * For a workflow with nodes, the validator reports no error exactly when
   * ids and names are unique, every connection names existing nodes, no
   * node name is blank and the workflow name is not blank. Warnings (no
   * trigger, orphans, self-loops) never affect validity.
   */
  lemma ValidIffWellFormed(w: Workflow)
    requires w.nodes != []
    ensures IsValid(ValidateWorkflow(w)) <==> WellFormed(w)
  {
    var conns := ConnectionsFlat(w);
    var d1 := DuplicateScan(w.nodes, ById, {});
    var d2 := DuplicateScan(w.nodes, ByName, {});
    var t := TriggerIssues(w);
    var rf := ReferenceScan(conns, NameSet(w));
    var o := OrphanScan(w.nodes, Connected(conns));
    var s := SelfLoopScan(conns);
    var b := BlankNameScan(w.nodes);
    var n := WorkflowNameIssues(w);
    IsValidAppend(d1 + d2 + t + rf + o + s + b, n);
    IsValidAppend(d1 + d2 + t + rf + o + s, b);
    IsValidAppend(d1 + d2 + t + rf + o, s);
    IsValidAppend(d1 + d2 + t + rf, o);
    IsValidAppend(d1 + d2 + t, rf);
    IsValidAppend(d1 + d2, t);
    IsValidAppend(d1, d2);
    ErrorsOnlyValid(d1);
    ErrorsOnlyValid(d2);
    WarningsOnlyValid(t);
    ErrorsOnlyValid(rf);
    WarningsOnlyValid(o);
    WarningsOnlyValid(s);
    ErrorsOnlyValid(b);
    ErrorsOnlyValid(n);
    ReferencesIff(w);
  }

  /** An empty node list yields just the one warning, whatever the connections or name hold. */
  lemma EmptyWorkflowWarns(w: Workflow)
    requires w.nodes == []
    ensures IsValid(ValidateWorkflow(w))
    ensures Warnings(ValidateWorkflow(w)) == [Issue(Warning, NoNodesMessage, None)]
    ensures Errors(ValidateWorkflow(w)) == []
  {
  }

  /** The number of duplicate-name errors is the number of nodes minus the number of distinct names. */
  lemma DuplicateNameErrors(w: Workflow)
    ensures |DuplicateScan(w.nodes, ByName, {})| == |w.nodes| - |KeySet(w.nodes, ByName)|
  {
    DuplicateScanCount(w.nodes, ByName, {});
  }

  /** Two nodes sharing a name make the workflow invalid. */
  lemma SharedNameInvalid(w: Workflow)
    requires |w.nodes| == 2 && w.nodes[0].name == w.nodes[1].name
    ensures !IsValid(ValidateWorkflow(w))
  {
    ValidIffWellFormed(w);
    assert KeyOf(w.nodes[0], ByName) == KeyOf(w.nodes[1], ByName);
  }
}
