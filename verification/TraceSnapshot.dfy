/** The stable snapshot of a trace: keys that depend on allocation are forgotten. */
module TraceSnapshot {
  import opened QueryOutcomes
  import opened TraceLog
  import opened TraceForest

  function ErasedKey(node: TraceNode): TraceKey {
    if node.key.Unmapped? then Unmapped(node.operation) else node.key
  }

  /** The node with its unmapped keys replaced by their operations, at every depth. */
  function Erased(le: Order, node: TraceNode): TraceNode
    decreases node
  {
    node.(key := ErasedKey(node), children := Arrange(le, node.childOrder, ErasedAll(le, node.children)))
  }

  function ErasedAll(le: Order, nodes: seq<TraceNode>): (erased: seq<TraceNode>)
    ensures |erased| == |nodes|
    decreases nodes
  {
    if nodes == [] then [] else ErasedAll(le, nodes[..|nodes| - 1]) + [Erased(le, nodes[|nodes| - 1])]
  }

  ghost function Snapshot(le: Order, log: Log): seq<TraceNode> {
    ErasedAll(le, Build(le, Analysis, log))
  }

  method Normalize(le: Order, node: TraceNode) returns (node': TraceNode)
    ensures node' == Erased(le, node)
    decreases node
  {
    hide Sort;
    var children: seq<TraceNode> := [];
    for i := 0 to |node.children|
      invariant children == ErasedAll(le, node.children[..i])
    {
      assert node.children[..i + 1][..i] == node.children[..i];
      var child := Normalize(le, node.children[i]);
      children := children + [child];
    }
    assert node.children[..|node.children|] == node.children;
    node' := node.(key := ErasedKey(node), children := Arrange(le, node.childOrder, children));
  }

  method SnapshotTrace(le: Order, events: Log) returns (nodes: seq<TraceNode>)
    ensures nodes == Snapshot(le, events)
  {
    hide Erased;
    var built := BuildDynamicTrace(le, events, Analysis);
    nodes := [];
    for i := 0 to |built|
      invariant nodes == ErasedAll(le, built[..i])
    {
      assert built[..i + 1][..i] == built[..i];
      var node := Normalize(le, built[i]);
      nodes := nodes + [node];
    }
    assert built[..|built|] == built;
  }

  // ---------------------------------------------------------------- renaming keys

  type KeyRenaming = string -> string

  /** Keys stay different and keep everything before their arguments. */
  ghost predicate Harmless(r: KeyRenaming) {
    (forall k :: BeforeParen(r(k)) == BeforeParen(k)) && forall a, b :: r(a) == r(b) ==> a == b
  }

  function Renamed(r: KeyRenaming, event: InspectionEvent): InspectionEvent {
    match event
    case QueryEnter(key) => QueryEnter(r(key))
    case QueryExit(key, disposition) => QueryExit(r(key), disposition)
    case QueryLeaf(key, disposition, observations) => QueryLeaf(r(key), disposition, observations)
    case ExternalMetadata(operation) => ExternalMetadata(r(operation))
    case _ => event
  }

  function RenamedAll(r: KeyRenaming, log: Log): (renamed: Log)
    ensures |renamed| == |log| && forall i :: 0 <= i < |log| ==> renamed[i] == Renamed(r, log[i])
  {
    if log == [] then [] else RenamedAll(r, log[..|log| - 1]) + [Renamed(r, log[|log| - 1])]
  }

  function RenamedKey(r: KeyRenaming, key: TraceKey): TraceKey {
    match key
    case Semantic(_) => key
    case Unmapped(ingredient) => Unmapped(r(ingredient))
  }

  /** Two nodes that differ by the renaming only, and whose children erase alike. */
  ghost predicate Paired(le: Order, r: KeyRenaming, x: TraceNode, y: TraceNode) {
    && y.(children := []) == x.(key := RenamedKey(r, x.key), children := [])
    && ErasedAll(le, x.children) == ErasedAll(le, y.children)
  }

  ghost predicate Alike(le: Order, r: KeyRenaming, a: Builder, b: Builder) {
    && ErasedAll(le, a.roots) == ErasedAll(le, b.roots)
    && |a.stack| == |b.stack|
    && forall i :: 0 <= i < |a.stack| ==> Paired(le, r, a.stack[i], b.stack[i])
  }

  lemma ErasedSnoc(le: Order, nodes: seq<TraceNode>, node: TraceNode)
    ensures ErasedAll(le, nodes + [node]) == ErasedAll(le, nodes) + [Erased(le, node)]
  {
    assert (nodes + [node])[..|nodes|] == nodes;
  }

  lemma {:induction false} ErasedConcat(le: Order, a: seq<TraceNode>, b: seq<TraceNode>)
    ensures ErasedAll(le, a + b) == ErasedAll(le, a) + ErasedAll(le, b)
    decreases |b|
  {
    hide Erased;
    if b == [] {
      assert a + b == a;
    } else {
      var n := |b| - 1;
      ErasedConcat(le, a, b[..n]);
      ErasedSnoc(le, a + b[..n], b[n]);
      ErasedSnoc(le, b[..n], b[n]);
      assert (a + b[..n]) + [b[n]] == a + b && b[..n] + [b[n]] == b;
    }
  }

  lemma {:induction false} ErasedPermutes(le: Order, a: seq<TraceNode>, b: seq<TraceNode>)
    requires multiset(a) == multiset(b)
    ensures multiset(ErasedAll(le, a)) == multiset(ErasedAll(le, b))
    decreases |a|
  {
    hide Erased;
    assert |multiset(a)| == |a| && |multiset(b)| == |b|;
    if a != [] {
      var n := |a| - 1;
      var j := SplitPermuted(a, b);
      ErasedPermutes(le, a[..n], Without(b, j));
      ErasedConcat(le, b[..j] + [b[j]], b[j + 1..]);
      ErasedSnoc(le, b[..j], b[j]);
      ErasedConcat(le, b[..j], b[j + 1..]);
    }
  }

  /** Sorting a node's children before erasing makes no difference. */
  lemma ErasedNormalized(le: Order, node: TraceNode)
    requires Total(le)
    ensures Erased(le, Normalized(le, node)) == Erased(le, node)
  {
    if node.childOrder.Unordered? {
      hide Total, Sort;
      var sorted := Sort(le, node.children);
      SortPermutes(le, node.children);
      ErasedPermutes(le, sorted, node.children);
      SortIsCanonical(le, ErasedAll(le, sorted), ErasedAll(le, node.children));
    }
  }

  lemma PairedErase(le: Order, r: KeyRenaming, x: TraceNode, y: TraceNode)
    requires Paired(le, r, x, y)
    ensures Erased(le, x) == Erased(le, y)
  {
    assert y.(children := []).operation == x.operation;
    assert y.(children := []).key == RenamedKey(r, x.key) && y.(children := []).childOrder == x.childOrder;
    assert y.(children := []).phase == x.phase && y.(children := []).source == x.source;
    assert y.(children := []).outcome == x.outcome && y.(children := []).observations == x.observations;
  }

  lemma AlikeAttach(le: Order, r: KeyRenaming, a: Builder, b: Builder, x: TraceNode, y: TraceNode)
    requires Alike(le, r, a, b) && Erased(le, x) == Erased(le, y)
    ensures Alike(le, r, Attach(a, x), Attach(b, y))
  {
    hide Erased;
    if a.stack == [] {
      ErasedSnoc(le, a.roots, x);
      ErasedSnoc(le, b.roots, y);
    } else {
      var n := |a.stack| - 1;
      assert Paired(le, r, a.stack[n], b.stack[n]);
      ErasedSnoc(le, a.stack[n].children, x);
      ErasedSnoc(le, b.stack[n].children, y);
      assert AddChild(b.stack[n], y).(children := []) == b.stack[n].(children := []);
    }
  }

  lemma AlikePush(le: Order, r: KeyRenaming, a: Builder, b: Builder, x: TraceNode, y: TraceNode)
    requires Alike(le, r, a, b) && Paired(le, r, x, y)
    ensures Alike(le, r, Push(a, x), Push(b, y))
  {
    hide Paired;
  }

  lemma AlikeReport(le: Order, r: KeyRenaming, a: Builder, b: Builder, m: string, n: string)
    requires Alike(le, r, a, b)
    ensures Alike(le, r, Report(a, m), Report(b, n))
  {
    hide Paired;
    ErasedSnoc(le, a.roots, ErrorNode(m));
    ErasedSnoc(le, b.roots, ErrorNode(n));
    assert ErasedAll(le, []) == [];
  }

  lemma PairedFields(le: Order, r: KeyRenaming, x: TraceNode, y: TraceNode)
    requires Paired(le, r, x, y)
    ensures y.operation == x.operation && y.phase == x.phase && y.key == RenamedKey(r, x.key)
    ensures forall outcome :: Paired(le, r, x.(outcome := outcome), y.(outcome := outcome))
  {
    var header := y.(children := []);
    assert header.operation == y.operation && header.phase == y.phase && header.key == y.key;
    forall outcome
      ensures Paired(le, r, x.(outcome := outcome), y.(outcome := outcome))
    {
      assert y.(outcome := outcome).(children := []) == header.(outcome := outcome);
    }
  }

  function RenamedEnding(r: KeyRenaming, ending: Ending): Ending {
    if ending.QueryEnd? then QueryEnd(r(ending.key), ending.disposition) else ending
  }

  lemma AlikeClose(le: Order, r: KeyRenaming, a: Builder, b: Builder, ending: Ending)
    requires Total(le) && Harmless(r) && Alike(le, r, a, b)
    ensures Alike(le, r, Close(le, a, ending), Close(le, b, RenamedEnding(r, ending)))
  {
    var ending' := RenamedEnding(r, ending);
    if a.stack == [] {
      AlikeReport(le, r, a, b, MissingMessage(ending), MissingMessage(ending'));
    } else {
      var n := |a.stack| - 1;
      var x, y := a.stack[n], b.stack[n];
      assert Paired(le, r, x, y);
      PairedFields(le, r, x, y);
      assert Matches(ending, x) <==> Matches(ending', y);
      hide Paired, Erased, Total, Harmless, Normalized, Attach, MismatchMessage;
      var a', b' := a.(stack := a.stack[..n]), b.(stack := b.stack[..n]);
      assert Alike(le, r, a', b');
      if !Matches(ending, x) {
        AlikeReport(le, r, a', b', MismatchMessage(ending, x), MismatchMessage(ending', y));
        a', b' := Report(a', MismatchMessage(ending, x)), Report(b', MismatchMessage(ending', y));
      }
      var x', y' := Ended(ending, x), Ended(ending', y);
      PairedErase(le, r, x', y');
      ErasedNormalized(le, x');
      ErasedNormalized(le, y');
      AlikeAttach(le, r, a', b', Normalized(le, x'), Normalized(le, y'));
    }
  }

  lemma AlikePhase(le: Order, r: KeyRenaming, a: Builder, b: Builder, default: TracePhase)
    requires Alike(le, r, a, b)
    ensures CurrentPhase(a, default) == CurrentPhase(b, default)
  {
    if a.stack != [] {
      PairedFields(le, r, a.stack[|a.stack| - 1], b.stack[|b.stack| - 1]);
    }
  }

  lemma FreshPaired(le: Order, r: KeyRenaming, x: TraceNode, y: TraceNode)
    requires y == x.(key := RenamedKey(r, x.key)) && x.children == []
    ensures Paired(le, r, x, y)
  {
  }

  lemma AlikeStep(le: Order, r: KeyRenaming, default: TracePhase, a: Builder, b: Builder, event: InspectionEvent)
    requires Total(le) && Harmless(r) && Alike(le, r, a, b)
    ensures Alike(le, r, Step(le, default, a, event), Step(le, default, b, Renamed(r, event)))
  {
    hide Total, Paired, Alike, Close, Attach, Push, Erased, BeforeParen, TrimStart, TrimEnd, Sort;
    AlikePhase(le, r, a, b, default);
    var phase := CurrentPhase(a, default);
    match event
    case PhaseExit(name) => AlikeClose(le, r, a, b, PhaseEnd(name));
    case SpanExit(operation) => AlikeClose(le, r, a, b, SpanEnd(operation));
    case QueryExit(key, disposition) => AlikeClose(le, r, a, b, QueryEnd(key, disposition));
    case PhaseEnter(name) =>
      FreshPaired(le, r, PhaseNode(name, default), PhaseNode(name, default));
      AlikePush(le, r, a, b, PhaseNode(name, default), PhaseNode(name, default));
    case SpanEnter(operation, source, order) =>
      var node := SpanNode(phase, operation, source, order);
      FreshPaired(le, r, node, node);
      AlikePush(le, r, a, b, node, node);
    case QueryEnter(key) =>
      FreshPaired(le, r, QueryNode(phase, key, Observed, 1), QueryNode(phase, r(key), Observed, 1));
      AlikePush(le, r, a, b, QueryNode(phase, key, Observed, 1), QueryNode(phase, r(key), Observed, 1));
    case QueryLeaf(key, disposition, n) =>
      var x, y := QueryNode(phase, key, Did(disposition), n), QueryNode(phase, r(key), Did(disposition), n);
      FreshPaired(le, r, x, y);
      PairedErase(le, r, x, y);
      AlikeAttach(le, r, a, b, x, y);
    case ExternalMetadata(operation) =>
      var x, y := MetadataNode(phase, operation), MetadataNode(phase, r(operation));
      FreshPaired(le, r, x, y);
      PairedErase(le, r, x, y);
      AlikeAttach(le, r, a, b, x, y);
  }

  lemma {:induction false} AlikeRun(le: Order, r: KeyRenaming, log: Log)
    requires Total(le) && Harmless(r)
    ensures Alike(le, r, Run(le, Analysis, EMPTY, log), Run(le, Analysis, EMPTY, RenamedAll(r, log)))
  {
    if log != [] {
      hide Total, Harmless, Alike, Step;
      var n := |log| - 1;
      AlikeRun(le, r, log[..n]);
      assert RenamedAll(r, log)[..n] == RenamedAll(r, log[..n]);
      AlikeStep(le, r, Analysis, Run(le, Analysis, EMPTY, log[..n]),
                Run(le, Analysis, EMPTY, RenamedAll(r, log[..n])), log[n]);
    }
  }

  lemma {:induction false} AlikeCloseAll(le: Order, r: KeyRenaming, a: Builder, b: Builder)
    requires Alike(le, r, a, b)
    ensures ErasedAll(le, CloseAll(a)) == ErasedAll(le, CloseAll(b))
    decreases |a.stack|
  {
    if a.stack != [] {
      var n := |a.stack| - 1;
      var a', b' := a.(stack := a.stack[..n]), b.(stack := b.stack[..n]);
      var x, y := a.stack[n].(outcome := Observed), b.stack[n].(outcome := Observed);
      PairedFields(le, r, a.stack[n], b.stack[n]);
      PairedErase(le, r, x, y);
      hide Paired, Erased;
      assert Alike(le, r, a', b');
      AlikeAttach(le, r, a', b', x, y);
      AttachKeepsDepth(a', x);
      AlikeCloseAll(le, r, Attach(a', x), Attach(b', y));
    }
  }

  /** The snapshot does not depend on the allocation-dependent part of any key, whether or not the log is balanced. */
  lemma SnapshotIgnoresKeys(le: Order, r: KeyRenaming, log: Log)
    requires Total(le) && Harmless(r)
    ensures Snapshot(le, RenamedAll(r, log)) == Snapshot(le, log)
  {
    AlikeRun(le, r, log);
    AlikeCloseAll(le, r, Run(le, Analysis, EMPTY, log), Run(le, Analysis, EMPTY, RenamedAll(r, log)));
  }

  // ---------------------------------------------------------------- through the recorder

  lemma RenamedSnoc(r: KeyRenaming, log: Log, event: InspectionEvent)
    ensures RenamedAll(r, log + [event]) == RenamedAll(r, log) + [Renamed(r, event)]
  {
  }

  /** Whether an event concerns `key` survives the renaming. */
  lemma SameEvent(r: KeyRenaming, event: InspectionEvent, key: string, disposition: Disposition)
    requires Harmless(r)
    ensures Renamed(r, event) == QueryEnter(r(key)) <==> event == QueryEnter(key)
    ensures Renamed(r, event) == QueryExit(r(key), disposition) <==> event == QueryExit(key, disposition)
    ensures Renamed(r, event).QueryLeaf? <==> event.QueryLeaf?
    ensures event.QueryLeaf? ==>
      Renamed(r, event).disposition == event.disposition && Renamed(r, event).observations == event.observations
      && (Renamed(r, event).key == r(key) <==> event.key == key)
  {
  }

  /** What the recorder looks for at the end of the log survives the renaming. */
  lemma GuardsSurvive(r: KeyRenaming, log: Log, key: string, disposition: Disposition)
    requires Harmless(r)
    ensures EndsWithEnter(RenamedAll(r, log), r(key)) <==> EndsWithEnter(log, key)
    ensures AfterPair(RenamedAll(r, log), r(key), disposition) <==> AfterPair(log, key, disposition)
    ensures AfterLeaf(RenamedAll(r, log), r(key), disposition) <==> AfterLeaf(log, key, disposition)
    ensures AfterLeaf(log, key, disposition) ==>
      RenamedAll(r, log)[|log| - 2].QueryLeaf?
        && RenamedAll(r, log)[|log| - 2].observations == log[|log| - 2].observations
  {
    hide Harmless, Renamed;
    var n := |log|;
    if n >= 1 { SameEvent(r, log[n - 1], key, disposition); }
    if n >= 2 { SameEvent(r, log[n - 2], key, disposition); }
    if n >= 3 { SameEvent(r, log[n - 3], key, disposition); }
  }

  lemma RecordedCommutes(r: KeyRenaming, log: Log, event: InspectionEvent)
    requires Harmless(r)
    ensures Recorded(RenamedAll(r, log), Renamed(r, event)) == RenamedAll(r, Recorded(log, event))
  {
    hide Harmless, Renamed, RenamedAll;
    var n := |log|;
    RenamedSnoc(r, log, event);
    RenamedExit(r, event);
    if event.QueryExit? {
      var key, disposition := event.key, event.disposition;
      GuardsSurvive(r, log, key, disposition);
      if EndsWithEnter(log, key) && AfterLeaf(log, key, disposition) {
        var leaf := QueryLeaf(key, disposition, log[n - 2].observations + 1);
        RenamedPrefix(r, log, n - 2);
        RenamedLeaf(r, key, disposition, log[n - 2].observations + 1);
        RenamedSnoc(r, log[..n - 2], leaf);
      } else if EndsWithEnter(log, key) && AfterPair(log, key, disposition) {
        RenamedPrefix(r, log, n - 3);
        RenamedLeaf(r, key, disposition, 2);
        RenamedSnoc(r, log[..n - 3], QueryLeaf(key, disposition, 2));
      }
    }
  }

  lemma RenamedPrefix(r: KeyRenaming, log: Log, n: nat)
    requires n <= |log|
    ensures RenamedAll(r, log)[..n] == RenamedAll(r, log[..n])
  {
    hide Renamed;
  }

  lemma RenamedExit(r: KeyRenaming, event: InspectionEvent)
    ensures Renamed(r, event).QueryExit? <==> event.QueryExit?
    ensures event.QueryExit? ==> Renamed(r, event) == QueryExit(r(event.key), event.disposition)
  {
  }

  lemma RenamedLeaf(r: KeyRenaming, key: string, disposition: Disposition, n: nat)
    ensures Renamed(r, QueryLeaf(key, disposition, n)) == QueryLeaf(r(key), disposition, n)
  {
  }

  lemma {:induction false} RecordingCommutes(r: KeyRenaming, raw: Log)
    requires Harmless(r)
    ensures RecordAll(RenamedAll(r, raw)) == RenamedAll(r, RecordAll(raw))
  {
    if raw != [] {
      hide Recorded, Harmless;
      var n := |raw| - 1;
      RecordingCommutes(r, raw[..n]);
      assert RenamedAll(r, raw)[..n] == RenamedAll(r, raw[..n]);
      RecordedCommutes(r, RecordAll(raw[..n]), raw[n]);
    }
  }

  /** From raw events to snapshot, two executions that differ in allocation only look the same. */
  lemma RecordedSnapshotIsStable(le: Order, r: KeyRenaming, raw: Log)
    requires Total(le) && Harmless(r)
    ensures Snapshot(le, RecordAll(RenamedAll(r, raw))) == Snapshot(le, RecordAll(raw))
  {
    hide Snapshot, Total, Harmless;
    RecordingCommutes(r, raw);
    SnapshotIgnoresKeys(le, r, RecordAll(raw));
  }
}
