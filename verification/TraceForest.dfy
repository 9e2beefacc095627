/** Building the dynamic trace: a stack machine turning an inspection log into a forest. */
module TraceForest {
  import opened Characters
  import opened QueryOutcomes
  import opened Wrappers
  import opened TraceLog

  datatype TracePhase = Bootstrap | Selection | Analysis | Reflection | ViewAssembly

  datatype TraceSource = Sage | Solver | Salsa | Metadata

  datatype TraceKey = Semantic(value: string) | Unmapped(ingredient: string)

  datatype Outcome = Observed | Did(disposition: Disposition)

  datatype TraceNode = TraceNode(
    phase: TracePhase, source: TraceSource, operation: string, key: TraceKey, outcome: Outcome,
    childOrder: ChildOrder, observations: nat, children: seq<TraceNode>)

  /** The order of the serialized nodes. Serialization is injective, so it is a total order. */
  type Order = (TraceNode, TraceNode) -> bool

  ghost predicate Total(le: Order) {
    && (forall a, b :: le(a, b) || le(b, a))
    && (forall a, b :: le(a, b) && le(b, a) ==> a == b)
    && (forall a, b, c :: le(a, b) && le(b, c) ==> le(a, c))
  }

  // ---------------------------------------------------------------- sorting children

  function Insert(le: Order, node: TraceNode, nodes: seq<TraceNode>): seq<TraceNode> {
    if nodes == [] then [node]
    else if le(node, nodes[0]) then [node] + nodes
    else [nodes[0]] + Insert(le, node, nodes[1..])
  }

  function Sort(le: Order, nodes: seq<TraceNode>): seq<TraceNode> {
    if nodes == [] then [] else Insert(le, nodes[|nodes| - 1], Sort(le, nodes[..|nodes| - 1]))
  }

  lemma {:induction false} InsertAdds(le: Order, node: TraceNode, nodes: seq<TraceNode>)
    ensures multiset(Insert(le, node, nodes)) == multiset(nodes) + multiset{node}
  {
    if nodes != [] && !le(node, nodes[0]) {
      InsertAdds(le, node, nodes[1..]);
      assert nodes == [nodes[0]] + nodes[1..];
    }
  }

  lemma {:induction false} SortPermutes(le: Order, nodes: seq<TraceNode>)
    ensures multiset(Sort(le, nodes)) == multiset(nodes)
  {
    if nodes != [] {
      var front, last := nodes[..|nodes| - 1], nodes[|nodes| - 1];
      SortPermutes(le, front);
      InsertAdds(le, last, Sort(le, front));
      assert nodes == front + [last];
    }
  }

  lemma {:induction false} InsertCommutes(le: Order, a: TraceNode, b: TraceNode, nodes: seq<TraceNode>)
    requires Total(le)
    ensures Insert(le, a, Insert(le, b, nodes)) == Insert(le, b, Insert(le, a, nodes))
  {
    if a != b && nodes != [] {
      var head, tail := nodes[0], nodes[1..];
      if !le(a, head) && !le(b, head) {
        InsertCommutes(le, a, b, tail);
        var ia, ib := Insert(le, a, tail), Insert(le, b, tail);
        assert Insert(le, b, [head] + ia) == [head] + Insert(le, b, ia) by {
          assert ([head] + ia)[1..] == ia;
        }
        assert Insert(le, a, [head] + ib) == [head] + Insert(le, a, ib) by {
          assert ([head] + ib)[1..] == ib;
        }
      } else {
        assert ([a] + nodes)[1..] == nodes && ([b] + nodes)[1..] == nodes;
        assert ([head] + Insert(le, a, tail))[1..] == Insert(le, a, tail);
        assert ([head] + Insert(le, b, tail))[1..] == Insert(le, b, tail);
      }
    }
  }

  function Without<T>(items: seq<T>, i: nat): seq<T>
    requires i < |items|
  {
    items[..i] + items[i + 1..]
  }

  lemma MultisetWithout<T>(items: seq<T>, i: nat)
    requires i < |items|
    ensures multiset(Without(items, i)) == multiset(items) - multiset{items[i]}
  {
    assert items == items[..i] + [items[i]] + items[i + 1..];
  }

  /** The last element of `a` found in its permutation `b`, and removed from both. */
  lemma SplitPermuted<T>(a: seq<T>, b: seq<T>) returns (j: nat)
    requires multiset(a) == multiset(b) && a != []
    ensures j < |b| && b[j] == a[|a| - 1] && b == b[..j] + [b[j]] + b[j + 1..]
    ensures multiset(a[..|a| - 1]) == multiset(Without(b, j)) && |Without(b, j)| == |a| - 1
  {
    var n := |a| - 1;
    assert |multiset(a)| == |a| && |multiset(b)| == |b|;
    assert a[n] in multiset(b) by {
      assert a[n] in multiset(a);
    }
    j :| 0 <= j < |b| && b[j] == a[n];
    MultisetWithout(a, n);
    MultisetWithout(b, j);
    assert Without(a, n) == a[..n];
  }

  lemma {:induction false} SortPulls(le: Order, nodes: seq<TraceNode>, i: nat)
    requires Total(le) && i < |nodes|
    ensures Sort(le, nodes) == Insert(le, nodes[i], Sort(le, Without(nodes, i)))
  {
    var n := |nodes| - 1;
    var front, last := nodes[..n], nodes[n];
    if i < n {
      hide Insert, Total;
      SortPulls(le, front, i);
      InsertCommutes(le, last, nodes[i], Sort(le, Without(front, i)));
      var rest := Without(nodes, i);
      assert rest[..|rest| - 1] == Without(front, i) && rest[|rest| - 1] == last;
    } else {
      assert Without(nodes, i) == front;
    }
  }

  /** Sorting forgets the original order completely. */
  lemma {:induction false} SortIsCanonical(le: Order, a: seq<TraceNode>, b: seq<TraceNode>)
    requires Total(le) && multiset(a) == multiset(b)
    ensures Sort(le, a) == Sort(le, b)
    decreases |a|
  {
    assert |multiset(a)| == |a| && |multiset(b)| == |b|;
    if a != [] {
      var j := SplitPermuted(a, b);
      SortIsCanonical(le, a[..|a| - 1], Without(b, j));
      SortPulls(le, b, j);
    }
  }

  // ---------------------------------------------------------------- the stack machine

  function PhaseNamed(phase: string): Option<TracePhase> {
    if phase == "bootstrap" then Some(Bootstrap)
    else if phase == "selection" then Some(Selection)
    else if phase == "analysis" then Some(Analysis)
    else if phase == "reflection" then Some(Reflection)
    else if phase == "view-assembly" then Some(ViewAssembly)
    else None
  }

  function TrimStart(s: string): string {
    if s != [] && IsSpace(s[0]) then TrimStart(s[1..]) else s
  }

  function TrimEnd(s: string): string {
    if s != [] && IsSpace(s[|s| - 1]) then TrimEnd(s[..|s| - 1]) else s
  }

  /** The text before the first opening parenthesis. */
  function BeforeParen(s: string): string {
    if s == [] || s[0] == '(' then [] else [s[0]] + BeforeParen(s[1..])
  }

  function QueryOperation(key: string): string {
    TrimEnd(TrimStart(BeforeParen(key)))
  }

  function ErrorNode(message: string): TraceNode {
    TraceNode(Analysis, Sage, "trace-recorder-error", Unmapped(message), Observed, Sequential, 1, [])
  }

  datatype Builder = Builder(roots: seq<TraceNode>, stack: seq<TraceNode>)

  function CurrentPhase(b: Builder, default: TracePhase): TracePhase {
    if b.stack == [] then default else b.stack[|b.stack| - 1].phase
  }

  function AddChild(node: TraceNode, child: TraceNode): TraceNode {
    node.(children := node.children + [child])
  }

  function Attach(b: Builder, node: TraceNode): Builder {
    if b.stack == [] then b.(roots := b.roots + [node])
    else b.(stack := b.stack[|b.stack| - 1 := AddChild(b.stack[|b.stack| - 1], node)])
  }

  function Push(b: Builder, node: TraceNode): Builder {
    b.(stack := b.stack + [node])
  }

  function Report(b: Builder, message: string): Builder {
    b.(roots := b.roots + [ErrorNode(message)])
  }

  function Arrange(le: Order, order: ChildOrder, nodes: seq<TraceNode>): seq<TraceNode> {
    if order.Unordered? then Sort(le, nodes) else nodes
  }

  function Normalized(le: Order, node: TraceNode): TraceNode {
    node.(children := Arrange(le, node.childOrder, node.children))
  }

  function PhaseNode(phase: string, default: TracePhase): TraceNode {
    TraceNode(PhaseNamed(phase).Or(default), Sage, phase, Semantic(phase), Observed, Sequential, 1, [])
  }

  function SourceOf(source: InspectionSource): TraceSource {
    if source.SageSource? then Sage else Solver
  }

  function SpanNode(phase: TracePhase, operation: string, source: InspectionSource, order: ChildOrder): TraceNode {
    TraceNode(phase, SourceOf(source), operation, Semantic(operation), Observed, order, 1, [])
  }

  function QueryNode(phase: TracePhase, key: string, outcome: Outcome, observations: nat): TraceNode {
    TraceNode(phase, Salsa, QueryOperation(key), Unmapped(key), outcome, Sequential, observations, [])
  }

  function MetadataNode(phase: TracePhase, operation: string): TraceNode {
    TraceNode(phase, Metadata, BeforeParen(operation), Unmapped(operation), Did(Executed), Sequential, 1, [])
  }

  datatype Ending =
    PhaseEnd(phase: string) | SpanEnd(operation: string) | QueryEnd(key: string, disposition: Disposition)

  predicate Matches(ending: Ending, node: TraceNode) {
    match ending
    case PhaseEnd(phase) => node.operation == phase
    case SpanEnd(operation) => node.operation == operation
    case QueryEnd(key, _) => node.key == Unmapped(key)
  }

  function MissingMessage(ending: Ending): string {
    match ending
    case PhaseEnd(phase) => "phase exit without enter: " + phase
    case SpanEnd(operation) => "semantic span exit without enter: " + operation
    case QueryEnd(key, _) => "exit without enter: " + key
  }

  function MismatchMessage(ending: Ending, node: TraceNode): string {
    match ending
    case PhaseEnd(phase) => "phase exit `" + phase + "` did not match `" + node.operation + "`"
    case SpanEnd(operation) => "semantic span exit `" + operation + "` did not match `" + node.operation + "`"
    case QueryEnd(key, _) => "query exit `" + key + "` did not match the active span"
  }

  function Ended(ending: Ending, node: TraceNode): TraceNode {
    if ending.QueryEnd? then node.(outcome := Did(ending.disposition)) else node
  }

  /** An exit closes the innermost node, matching or not; a mismatch is reported among the roots first. */
  function Close(le: Order, b: Builder, ending: Ending): Builder {
    if b.stack == [] then Report(b, MissingMessage(ending))
    else
      var node := b.stack[|b.stack| - 1];
      var popped := b.(stack := b.stack[..|b.stack| - 1]);
      var reported := if Matches(ending, node) then popped else Report(popped, MismatchMessage(ending, node));
      Attach(reported, Normalized(le, Ended(ending, node)))
  }

  function Step(le: Order, default: TracePhase, b: Builder, event: InspectionEvent): Builder {
    match event
    case PhaseEnter(phase) => Push(b, PhaseNode(phase, default))
    case PhaseExit(phase) => Close(le, b, PhaseEnd(phase))
    case SpanEnter(operation, source, order) => Push(b, SpanNode(CurrentPhase(b, default), operation, source, order))
    case SpanExit(operation) => Close(le, b, SpanEnd(operation))
    case QueryEnter(key) => Push(b, QueryNode(CurrentPhase(b, default), key, Observed, 1))
    case QueryExit(key, disposition) => Close(le, b, QueryEnd(key, disposition))
    case QueryLeaf(key, disposition, n) => Attach(b, QueryNode(CurrentPhase(b, default), key, Did(disposition), n))
    case ExternalMetadata(operation) => Attach(b, MetadataNode(CurrentPhase(b, default), operation))
  }

  ghost function Run(le: Order, default: TracePhase, b: Builder, log: Log): Builder {
    if log == [] then b else Step(le, default, Run(le, default, b, log[..|log| - 1]), log[|log| - 1])
  }

  /** Nodes still open at the end are attached as they are. */
  ghost function CloseAll(b: Builder): seq<TraceNode>
    decreases |b.stack|
  {
    if b.stack == [] then b.roots
    else
      var node := b.stack[|b.stack| - 1];
      CloseAll(Attach(b.(stack := b.stack[..|b.stack| - 1]), node.(outcome := Observed)))
  }

  const EMPTY := Builder([], [])

  ghost function Build(le: Order, default: TracePhase, log: Log): seq<TraceNode> {
    CloseAll(Run(le, default, EMPTY, log))
  }

  method AttachTraceNode(roots: seq<TraceNode>, stack: seq<TraceNode>,
                         node: TraceNode) returns (roots': seq<TraceNode>, stack': seq<TraceNode>)
    ensures Builder(roots', stack') == Attach(Builder(roots, stack), node)
  {
    roots', stack' := roots, stack;
    if |stack| > 0 {
      var parent := stack[|stack| - 1];
      stack' := stack[|stack| - 1 := parent.(children := parent.children + [node])];
    } else {
      roots' := roots + [node];
    }
  }

  method CloseNode(le: Order, roots: seq<TraceNode>, stack: seq<TraceNode>, ending: Ending)
    returns (roots': seq<TraceNode>, stack': seq<TraceNode>)
    ensures Builder(roots', stack') == Close(le, Builder(roots, stack), ending)
  {
    hide Sort;
    roots', stack' := roots, stack;
    if |stack| == 0 {
      roots' := roots + [ErrorNode(MissingMessage(ending))];
      return;
    }
    var node := stack[|stack| - 1];
    stack' := stack[..|stack| - 1];
    if !Matches(ending, node) {
      roots' := roots + [ErrorNode(MismatchMessage(ending, node))];
    }
    node := Ended(ending, node);
    if node.childOrder == Unordered {
      node := node.(children := Sort(le, node.children));
    }
    roots', stack' := AttachTraceNode(roots', stack', node);
  }

  method HandleEvent(le: Order, roots: seq<TraceNode>, stack: seq<TraceNode>, event: InspectionEvent,
                     default: TracePhase)
    returns (roots': seq<TraceNode>, stack': seq<TraceNode>)
    ensures Builder(roots', stack') == Step(le, default, Builder(roots, stack), event)
  {
    hide Close, Attach, PhaseNode, SpanNode, QueryNode, MetadataNode;
    roots', stack' := roots, stack;
    var phase := if stack == [] then default else stack[|stack| - 1].phase;
    match event {
      case PhaseEnter(name) => stack' := stack + [PhaseNode(name, default)];
      case PhaseExit(name) => roots', stack' := CloseNode(le, roots, stack, PhaseEnd(name));
      case SpanEnter(operation, source, order) => stack' := stack + [SpanNode(phase, operation, source, order)];
      case SpanExit(operation) => roots', stack' := CloseNode(le, roots, stack, SpanEnd(operation));
      case QueryEnter(key) => stack' := stack + [QueryNode(phase, key, Observed, 1)];
      case QueryExit(key, disposition) => roots', stack' := CloseNode(le, roots, stack, QueryEnd(key, disposition));
      case QueryLeaf(key, disposition, n) =>
        roots', stack' := AttachTraceNode(roots, stack, QueryNode(phase, key, Did(disposition), n));
      case ExternalMetadata(operation) =>
        roots', stack' := AttachTraceNode(roots, stack, MetadataNode(phase, operation));
    }
  }

  method BuildDynamicTrace(le: Order, events: Log, default: TracePhase) returns (roots: seq<TraceNode>)
    ensures roots == Build(le, default, events)
  {
    hide Step, Attach;
    roots := [];
    var stack: seq<TraceNode> := [];
    for i := 0 to |events|
      invariant Builder(roots, stack) == Run(le, default, EMPTY, events[..i])
    {
      assert events[..i + 1][..i] == events[..i];
      roots, stack := HandleEvent(le, roots, stack, events[i], default);
    }
    assert events[..|events|] == events;
    while |stack| > 0
      invariant CloseAll(Builder(roots, stack)) == Build(le, default, events)
      decreases |stack|
    {
      var node := stack[|stack| - 1].(outcome := Observed);
      var before := Builder(roots, stack[..|stack| - 1]);
      AttachKeepsDepth(before, node);
      roots, stack := AttachTraceNode(roots, stack[..|stack| - 1], node);
    }
  }

  lemma AttachKeepsDepth(b: Builder, node: TraceNode)
    ensures |Attach(b, node).stack| == |b.stack|
  {
  }
}
