/** Balanced logs, permuted child groups and the conservation of recorded work. */
module TraceBalance {
  import opened Wrappers
  import opened QueryOutcomes
  import opened TraceLog
  import opened TraceForest
  import opened TraceMeaning

  /** Properly nested work, as producers emit it. */
  datatype Work =
    | Phase(name: string, items: seq<Work>)
    | Span(operation: string, source: InspectionSource, order: ChildOrder, items: seq<Work>)
    | Query(key: string, disposition: Disposition, items: seq<Work>)
    | Hits(key: string, disposition: Disposition, observations: nat)
    | External(operation: string)

  ghost function EventsOf(work: Work): Log
    decreases work, 0
  {
    match work
    case Phase(name, items) => [PhaseEnter(name)] + EventsOfAll(items) + [PhaseExit(name)]
    case Span(operation, source, order, items) =>
      [SpanEnter(operation, source, order)] + EventsOfAll(items) + [SpanExit(operation)]
    case Query(key, disposition, items) => [QueryEnter(key)] + EventsOfAll(items) + [QueryExit(key, disposition)]
    case Hits(key, disposition, n) => [QueryLeaf(key, disposition, n)]
    case External(operation) => [ExternalMetadata(operation)]
  }

  ghost function EventsOfAll(works: seq<Work>): Log
    decreases works, 1
  {
    if works == [] then []
    else
      assert works[|works| - 1] in works;
      EventsOfAll(works[..|works| - 1]) + EventsOf(works[|works| - 1])
  }

  /** The node a piece of work stands for, below a parent in `phase`. */
  ghost function TreeOf(le: Order, default: TracePhase, phase: TracePhase, work: Work): TraceNode
    decreases work, 0
  {
    match work
    case Phase(name, items) =>
      var node := PhaseNode(name, default);
      node.(children := TreesOf(le, default, node.phase, items))
    case Span(operation, source, order, items) =>
      SpanNode(phase, operation, source, order).(children := Arrange(le, order, TreesOf(le, default, phase, items)))
    case Query(key, disposition, items) =>
      QueryNode(phase, key, Did(disposition), 1).(children := TreesOf(le, default, phase, items))
    case Hits(key, disposition, n) => QueryNode(phase, key, Did(disposition), n)
    case External(operation) => MetadataNode(phase, operation)
  }

  ghost function TreesOf(le: Order, default: TracePhase, phase: TracePhase, works: seq<Work>): (trees: seq<TraceNode>)
    ensures |trees| == |works|
    decreases works, 1
  {
    if works == [] then []
    else
      assert works[|works| - 1] in works;
      TreesOf(le, default, phase, works[..|works| - 1]) + [TreeOf(le, default, phase, works[|works| - 1])]
  }

  lemma {:induction false} AttachManyPushed(b: Builder, node: TraceNode, nodes: seq<TraceNode>)
    ensures AttachMany(Push(b, node), nodes) == Push(b, node.(children := node.children + nodes))
  {
    if nodes == [] {
      assert node.children + [] == node.children;
    } else {
      var n := |nodes| - 1;
      AttachManyPushed(b, node, nodes[..n]);
      var grown := node.(children := node.children + nodes[..n]);
      assert Attach(Push(b, grown), nodes[n]) == Push(b, AddChild(grown, nodes[n])) by {
        assert Push(b, grown).stack[|b.stack| := AddChild(grown, nodes[n])] == b.stack + [AddChild(grown, nodes[n])];
      }
      assert nodes[..n] + [nodes[n]] == nodes;
      assert grown.children + [nodes[n]] == node.children + nodes;
    }
  }

  lemma {:induction false} AttachManyKeepsPhase(b: Builder, nodes: seq<TraceNode>, default: TracePhase)
    ensures CurrentPhase(AttachMany(b, nodes), default) == CurrentPhase(b, default)
  {
    hide Attach;
    if nodes != [] {
      AttachManyKeepsPhase(b, nodes[..|nodes| - 1], default);
      AttachKeepsPhase(AttachMany(b, nodes[..|nodes| - 1]), nodes[|nodes| - 1], default);
    }
  }

  /** Entering, doing `items` and leaving attaches the closed node. */
  lemma {:induction false} RunBracket(le: Order, default: TracePhase, b: Builder, enter: InspectionEvent,
                                      node: TraceNode,
                                      items: seq<Work>, exit: InspectionEvent, ending: Ending)
    requires Step(le, default, b, enter) == Push(b, node) && node.children == [] && Matches(ending, node)
    requires forall c :: Step(le, default, c, exit) == Close(le, c, ending)
    ensures Run(le, default, b, [enter] + EventsOfAll(items) + [exit])
         == Attach(b, Normalized(le, Ended(ending, node.(children := TreesOf(le, default, node.phase, items)))))
    decreases items, 2
  {
    hide Step, Close, Attach, Normalized, Ended;
    var trees := TreesOf(le, default, node.phase, items);
    RunConcat(le, default, b, [enter], EventsOfAll(items));
    RunOne(le, default, b, enter);
    RunSnoc(le, default, b, [enter] + EventsOfAll(items), exit);
    RunWorks(le, default, Push(b, node), items);
    AttachManyPushed(b, node, trees);
    assert node.children + trees == trees;
    ClosePushed(le, b, node.(children := trees), ending);
  }

  lemma RunOne(le: Order, default: TracePhase, b: Builder, event: InspectionEvent)
    ensures Run(le, default, b, [event]) == Step(le, default, b, event)
  {
    RunSnoc(le, default, b, [], event);
    assert [] + [event] == [event];
  }

  lemma {:induction false} RunWork(le: Order, default: TracePhase, b: Builder, work: Work)
    ensures Run(le, default, b, EventsOf(work)) == Attach(b, TreeOf(le, default, CurrentPhase(b, default), work))
    decreases work, 0
  {
    hide Attach, Push, Close, Sort, Run, TreesOf, EventsOfAll;
    var phase := CurrentPhase(b, default);
    match work
    case Phase(name, items) =>
      RunBracket(le, default, b, PhaseEnter(name), PhaseNode(name, default), items, PhaseExit(name), PhaseEnd(name));
    case Span(operation, source, order, items) =>
      RunBracket(le, default, b, SpanEnter(operation, source, order), SpanNode(phase, operation, source, order), items,
                 SpanExit(operation), SpanEnd(operation));
    case Query(key, disposition, items) =>
      RunBracket(le, default, b, QueryEnter(key), QueryNode(phase, key, Observed, 1), items,
                 QueryExit(key, disposition), QueryEnd(key, disposition));
    case Hits(key, disposition, n) => RunOne(le, default, b, QueryLeaf(key, disposition, n));
    case External(operation) => RunOne(le, default, b, ExternalMetadata(operation));
  }

  lemma {:induction false} RunWorks(le: Order, default: TracePhase, b: Builder, works: seq<Work>)
    ensures Run(le, default, b, EventsOfAll(works))
         == AttachMany(b, TreesOf(le, default, CurrentPhase(b, default), works))
    decreases works, 1
  {
    hide Step, Attach;
    if works != [] {
      var n := |works| - 1;
      var phase := CurrentPhase(b, default);
      assert works[n] in works;
      RunWorks(le, default, b, works[..n]);
      var trees := TreesOf(le, default, phase, works[..n]);
      var before := AttachMany(b, trees);
      RunConcat(le, default, b, EventsOfAll(works[..n]), EventsOf(works[n]));
      RunWork(le, default, before, works[n]);
      AttachManyKeepsPhase(b, trees, default);
      assert TreesOf(le, default, phase, works)[..n] == trees;
    }
  }

  lemma {:induction false} AttachManyToRoots(b: Builder, nodes: seq<TraceNode>)
    requires b.stack == []
    ensures AttachMany(b, nodes) == b.(roots := b.roots + nodes)
  {
    if nodes == [] {
      assert b.roots + [] == b.roots;
    } else {
      AttachManyToRoots(b, nodes[..|nodes| - 1]);
      assert nodes == nodes[..|nodes| - 1] + [nodes[|nodes| - 1]];
    }
  }

  /** A balanced log builds exactly the forest it describes: no error node, nothing
      lost, each node below the work that caused it. */
  lemma BalancedLogsBuildTheirForest(le: Order, default: TracePhase, works: seq<Work>)
    ensures Build(le, default, EventsOfAll(works)) == TreesOf(le, default, default, works)
  {
    RunWorks(le, default, EMPTY, works);
    AttachManyToRoots(EMPTY, TreesOf(le, default, default, works));
    assert [] + TreesOf(le, default, default, works) == TreesOf(le, default, default, works);
  }

  // ---------------------------------------------------------------- unordered spans

  lemma {:induction false} TreesOfConcat(le: Order, default: TracePhase, phase: TracePhase, a: seq<Work>, b: seq<Work>)
    ensures TreesOf(le, default, phase, a + b) == TreesOf(le, default, phase, a) + TreesOf(le, default, phase, b)
  {
    hide TreeOf;
    if b == [] {
      assert a + b == a;
    } else {
      var n := |b| - 1;
      TreesOfConcat(le, default, phase, a, b[..n]);
      assert (a + b)[..|a + b| - 1] == a + b[..n];
    }
  }

  lemma TreesOfSnoc(le: Order, default: TracePhase, phase: TracePhase, works: seq<Work>, work: Work)
    ensures TreesOf(le, default, phase, works + [work])
         == TreesOf(le, default, phase, works) + [TreeOf(le, default, phase, work)]
  {
    assert (works + [work])[..|works|] == works;
  }

  lemma {:induction false} TreesOfPermuted(le: Order, default: TracePhase, phase: TracePhase, a: seq<Work>,
                                           b: seq<Work>)
    requires multiset(a) == multiset(b)
    ensures multiset(TreesOf(le, default, phase, a)) == multiset(TreesOf(le, default, phase, b))
    decreases |a|
  {
    assert |multiset(a)| == |a| && |multiset(b)| == |b|;
    if a != [] {
      hide TreeOf, TreesOf;
      var j := SplitPermuted(a, b);
      var n := |a| - 1;
      TreesOfPermuted(le, default, phase, a[..n], Without(b, j));
      assert a == a[..n] + [a[n]];
      TreesOfSnoc(le, default, phase, a[..n], a[n]);
      TreesOfConcat(le, default, phase, b[..j] + [b[j]], b[j + 1..]);
      TreesOfSnoc(le, default, phase, b[..j], b[j]);
      TreesOfConcat(le, default, phase, b[..j], b[j + 1..]);
    } else {
      assert a == b;
    }
  }

  /** Inside an unordered span, complete child groups may come in any order: the
      whole forest is the same, whatever surrounds the span. */
  lemma UnorderedGroupsCommute(le: Order, default: TracePhase, before: Log, operation: string, source: InspectionSource,
                               a: seq<Work>, b: seq<Work>, after: Log)
    requires Total(le) && multiset(a) == multiset(b)
    ensures Build(le, default, before + EventsOf(Span(operation, source, Unordered, a)) + after)
         == Build(le, default, before + EventsOf(Span(operation, source, Unordered, b)) + after)
  {
    hide Total, Attach;
    var start := Run(le, default, EMPTY, before);
    var phase := CurrentPhase(start, default);
    TreesOfPermuted(le, default, phase, a, b);
    SortIsCanonical(le, TreesOf(le, default, phase, a), TreesOf(le, default, phase, b));
    forall works | works == a || works == b
      ensures Run(le, default, EMPTY, before + EventsOf(Span(operation, source, Unordered, works)) + after)
           == Run(le, default, Attach(start, TreeOf(le, default, phase, Span(operation, source, Unordered, works))),
                  after)
    {
      var span := Span(operation, source, Unordered, works);
      RunConcat(le, default, EMPTY, before + EventsOf(span), after);
      RunConcat(le, default, EMPTY, before, EventsOf(span));
      RunWork(le, default, start, span);
    }
  }

  // ---------------------------------------------------------------- conservation

  ghost function Count(node: TraceNode): nat
    decreases node, 0
  {
    1 + CountAll(node.children)
  }

  ghost function CountAll(nodes: seq<TraceNode>): nat
    decreases nodes, 1
  {
    if nodes == [] then 0
    else
      assert nodes[|nodes| - 1] in nodes;
      CountAll(nodes[..|nodes| - 1]) + Count(nodes[|nodes| - 1])
  }

  lemma {:induction false} CountConcat(a: seq<TraceNode>, b: seq<TraceNode>)
    ensures CountAll(a + b) == CountAll(a) + CountAll(b)
  {
    hide Count;
    if b == [] {
      assert a + b == a;
    } else {
      CountConcat(a, b[..|b| - 1]);
      assert (a + b)[..|a + b| - 1] == a + b[..|b| - 1];
    }
  }

  lemma CountOne(node: TraceNode)
    ensures CountAll([node]) == Count(node)
  {
    assert [node][..0] == [];
  }

  lemma {:induction false} CountInsert(le: Order, node: TraceNode, nodes: seq<TraceNode>)
    ensures CountAll(Insert(le, node, nodes)) == CountAll(nodes) + Count(node)
  {
    hide Count, CountAll;
    CountOne(node);
    if nodes == [] {
      assert [node] == [node] + nodes;
      CountConcat([node], nodes);
    } else if le(node, nodes[0]) {
      CountConcat([node], nodes);
    } else {
      CountInsert(le, node, nodes[1..]);
      CountConcat([nodes[0]], Insert(le, node, nodes[1..]));
      CountConcat([nodes[0]], nodes[1..]);
      assert nodes == [nodes[0]] + nodes[1..];
    }
  }

  lemma {:induction false} CountSort(le: Order, nodes: seq<TraceNode>)
    ensures CountAll(Sort(le, nodes)) == CountAll(nodes)
  {
    hide Count;
    if nodes != [] {
      CountSort(le, nodes[..|nodes| - 1]);
      CountInsert(le, nodes[|nodes| - 1], Sort(le, nodes[..|nodes| - 1]));
    }
  }

  /** What an open node is known by: exits of phases and spans compare the
      operation, exits of queries the key. */
  datatype Label = Label(operation: string, key: TraceKey)

  function LabelOf(node: TraceNode): Label {
    Label(node.operation, node.key)
  }

  predicate LabelMatches(ending: Ending, known: Label) {
    match ending
    case PhaseEnd(phase) => known.operation == phase
    case SpanEnd(operation) => known.operation == operation
    case QueryEnd(key, _) => known.key == Unmapped(key)
  }

  function EndingOf(event: InspectionEvent): Option<Ending> {
    match event
    case PhaseExit(phase) => Some(PhaseEnd(phase))
    case SpanExit(operation) => Some(SpanEnd(operation))
    case QueryExit(key, disposition) => Some(QueryEnd(key, disposition))
    case _ => None
  }

  function LabelsAfterEvent(labels: seq<Label>, event: InspectionEvent): seq<Label> {
    match event
    case PhaseEnter(phase) => labels + [Label(phase, Semantic(phase))]
    case SpanEnter(operation, _, _) => labels + [Label(operation, Semantic(operation))]
    case QueryEnter(key) => labels + [Label(QueryOperation(key), Unmapped(key))]
    case _ => if EndingOf(event).Some? && labels != [] then labels[..|labels| - 1] else labels
  }

  /** The labels open after a log. */
  ghost function OpenLabels(log: Log): seq<Label> {
    if log == [] then [] else LabelsAfterEvent(OpenLabels(log[..|log| - 1]), log[|log| - 1])
  }

  /** An exit is a mistake when nothing is open or the innermost label differs. */
  function Mistaken(labels: seq<Label>, event: InspectionEvent): bool {
    EndingOf(event).Some? && (labels == [] || !LabelMatches(EndingOf(event).value, labels[|labels| - 1]))
  }

  ghost function Mistakes(log: Log): nat {
    if log == [] then 0
    else Mistakes(log[..|log| - 1]) + if Mistaken(OpenLabels(log[..|log| - 1]), log[|log| - 1]) then 1 else 0
  }

  /** Entries, leaves and metadata events: everything that is not an exit. */
  ghost function Units(log: Log): nat {
    if log == [] then 0 else Units(log[..|log| - 1]) + if EndingOf(log[|log| - 1]).None? then 1 else 0
  }

  ghost predicate Labelled(stack: seq<TraceNode>, labels: seq<Label>) {
    |stack| == |labels| && forall i :: 0 <= i < |stack| ==> LabelOf(stack[i]) == labels[i]
  }

  ghost function Held(b: Builder): nat {
    CountAll(b.roots) + CountAll(b.stack)
  }

  lemma AttachCounts(b: Builder, node: TraceNode, labels: seq<Label>)
    requires Labelled(b.stack, labels)
    ensures Held(Attach(b, node)) == Held(b) + Count(node) && Labelled(Attach(b, node).stack, labels)
  {
    if b.stack == [] {
      CountConcat(b.roots, [node]);
      CountOne(node);
    } else {
      var n := |b.stack| - 1;
      var top := b.stack[n];
      var after := Attach(b, node).stack;
      CountConcat(top.children, [node]);
      CountOne(node);
      assert after == b.stack[..n] + [AddChild(top, node)];
      assert b.stack == b.stack[..n] + [top];
      CountConcat(b.stack[..n], [top]);
      CountConcat(b.stack[..n], [AddChild(top, node)]);
      CountOne(top);
      CountOne(AddChild(top, node));
    }
  }

  lemma NormalizedCounts(le: Order, node: TraceNode)
    ensures Count(Normalized(le, node)) == Count(node)
  {
    CountSort(le, node.children);
  }

  lemma CloseCounts(le: Order, b: Builder, labels: seq<Label>, ending: Ending)
    requires Labelled(b.stack, labels)
    ensures labels == [] ==> Held(Close(le, b, ending)) == Held(b) + 1 && Labelled(Close(le, b, ending).stack, [])
    ensures labels != [] ==>
      Held(Close(le, b, ending)) == Held(b) + (if LabelMatches(ending, labels[|labels| - 1]) then 0 else 1)
    ensures labels != [] ==> Labelled(Close(le, b, ending).stack, labels[..|labels| - 1])
  {
    hide Normalized, Attach;
    if labels == [] {
      CountConcat(b.roots, [ErrorNode(MissingMessage(ending))]);
      CountOne(ErrorNode(MissingMessage(ending)));
    } else {
      var n := |b.stack| - 1;
      var node := b.stack[n];
      assert LabelOf(node) == labels[n];
      var popped := b.(stack := b.stack[..n]);
      var error := ErrorNode(MismatchMessage(ending, node));
      CountConcat(b.roots, [error]);
      CountOne(error);
      var reported := if Matches(ending, node) then popped else Report(popped, MismatchMessage(ending, node));
      assert b.stack == b.stack[..n] + [node];
      CountConcat(b.stack[..n], [node]);
      CountOne(node);
      assert Count(Ended(ending, node)) == Count(node);
      NormalizedCounts(le, Ended(ending, node));
      AttachCounts(reported, Normalized(le, Ended(ending, node)), labels[..n]);
    }
  }

  lemma PushCounts(b: Builder, node: TraceNode, labels: seq<Label>)
    requires Labelled(b.stack, labels) && node.children == []
    ensures Held(Push(b, node)) == Held(b) + 1 && Labelled(Push(b, node).stack, labels + [LabelOf(node)])
  {
    CountConcat(b.stack, [node]);
    CountOne(node);
  }

  lemma StepCounts(le: Order, default: TracePhase, b: Builder, labels: seq<Label>, event: InspectionEvent)
    requires Labelled(b.stack, labels)
    ensures var after := Step(le, default, b, event);
      && Labelled(after.stack, LabelsAfterEvent(labels, event))
      && Held(after) == Held(b) + (if EndingOf(event).None? then 1 else 0) + (if Mistaken(labels, event) then 1 else 0)
  {
    hide Attach, Close, Push, Held, Labelled;
    var phase := CurrentPhase(b, default);
    match event
    case PhaseEnter(name) => PushCounts(b, PhaseNode(name, default), labels);
    case PhaseExit(name) => CloseCounts(le, b, labels, PhaseEnd(name));
    case SpanEnter(operation, source, order) => PushCounts(b, SpanNode(phase, operation, source, order), labels);
    case SpanExit(operation) => CloseCounts(le, b, labels, SpanEnd(operation));
    case QueryEnter(key) => PushCounts(b, QueryNode(phase, key, Observed, 1), labels);
    case QueryExit(key, disposition) => CloseCounts(le, b, labels, QueryEnd(key, disposition));
    case QueryLeaf(key, disposition, n) => AttachCounts(b, QueryNode(phase, key, Did(disposition), n), labels);
    case ExternalMetadata(operation) => AttachCounts(b, MetadataNode(phase, operation), labels);
  }

  lemma {:induction false} RunCounts(le: Order, default: TracePhase, log: Log)
    ensures var b := Run(le, default, EMPTY, log);
      Labelled(b.stack, OpenLabels(log)) && Held(b) == Units(log) + Mistakes(log)
  {
    if log != [] {
      hide Step, Labelled, Held, LabelsAfterEvent, Mistaken, EndingOf;
      RunCounts(le, default, log[..|log| - 1]);
      StepCounts(le, default, Run(le, default, EMPTY, log[..|log| - 1]), OpenLabels(log[..|log| - 1]), log[|log| - 1]);
    }
  }

  lemma {:induction false} CloseAllCounts(b: Builder)
    ensures CountAll(CloseAll(b)) == Held(b)
    decreases |b.stack|
  {
    if b.stack != [] {
      var n := |b.stack| - 1;
      var popped := b.(stack := b.stack[..n]);
      var node := b.stack[n].(outcome := Observed);
      var labels := seq(n, i requires 0 <= i < n => LabelOf(b.stack[i]));
      AttachCounts(popped, node, labels);
      AttachKeepsDepth(popped, node);
      CloseAllCounts(Attach(popped, node));
      assert Count(node) == Count(b.stack[n]);
    }
  }

  /** Nothing is lost or invented, for any log: one node per entry, leaf and
      metadata event, and one error node per unmatched or mismatched exit. */
  lemma TraceConservesWork(le: Order, default: TracePhase, log: Log)
    ensures CountAll(Build(le, default, log)) == Units(log) + Mistakes(log)
  {
    RunCounts(le, default, log);
    CloseAllCounts(Run(le, default, EMPTY, log));
  }
}
