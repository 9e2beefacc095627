/** What the dynamic trace preserves: coalesced logs build the same forest as raw
    ones, balanced logs build exactly their own tree, child order under an
    unordered span is irrelevant, and no work is lost. */
module TraceMeaning {
  import opened QueryOutcomes
  import opened TraceLog
  import opened TraceForest

  lemma RunSnoc(le: Order, default: TracePhase, b: Builder, log: Log, event: InspectionEvent)
    ensures Run(le, default, b, log + [event]) == Step(le, default, Run(le, default, b, log), event)
  {
    assert (log + [event])[..|log|] == log;
  }

  lemma {:induction false} RunConcat(le: Order, default: TracePhase, b: Builder, first: Log, second: Log)
    ensures Run(le, default, b, first + second) == Run(le, default, Run(le, default, b, first), second)
  {
    hide Step;
    if second == [] {
      assert first + second == first;
    } else {
      var n := |second| - 1;
      RunConcat(le, default, b, first, second[..n]);
      assert first + second == (first + second[..n]) + [second[n]];
      RunSnoc(le, default, b, first + second[..n], second[n]);
    }
  }

  // ---------------------------------------------------------------- leaves against repeated requests

  function Repeat(node: TraceNode, n: nat): (nodes: seq<TraceNode>)
    ensures |nodes| == n && forall i :: 0 <= i < n ==> nodes[i] == node
  {
    if n == 0 then [] else Repeat(node, n - 1) + [node]
  }

  /** A node with its observation count written out as that many single nodes, at every
      depth, and unordered children put back into canonical order. */
  ghost function Spread(le: Order, node: TraceNode): seq<TraceNode>
    decreases node, 0
  {
    Repeat(node.(observations := 1, children := Arrange(le, node.childOrder, SpreadAll(le, node.children))),
           node.observations)
  }

  ghost function SpreadAll(le: Order, nodes: seq<TraceNode>): seq<TraceNode>
    decreases nodes, 1
  {
    if nodes == [] then []
    else
      assert nodes[|nodes| - 1] in nodes;
      SpreadAll(le, nodes[..|nodes| - 1]) + Spread(le, nodes[|nodes| - 1])
  }

  lemma SpreadSnoc(le: Order, nodes: seq<TraceNode>, node: TraceNode)
    ensures SpreadAll(le, nodes + [node]) == SpreadAll(le, nodes) + Spread(le, node)
  {
    assert (nodes + [node])[..|nodes|] == nodes;
  }

  lemma {:induction false} SpreadConcat(le: Order, a: seq<TraceNode>, b: seq<TraceNode>)
    ensures SpreadAll(le, a + b) == SpreadAll(le, a) + SpreadAll(le, b)
  {
    if b == [] {
      assert a + b == a;
    } else {
      hide *;
      var n := |b| - 1;
      var front, last := b[..n], b[n];
      assert b == front + [last];
      assert a + b == (a + front) + [last];
      SpreadConcat(le, a, front);
      SpreadSnoc(le, a + front, last);
      SpreadSnoc(le, front, last);
    }
  }

  lemma {:induction false} SpreadPermutes(le: Order, a: seq<TraceNode>, b: seq<TraceNode>)
    requires multiset(a) == multiset(b)
    ensures multiset(SpreadAll(le, a)) == multiset(SpreadAll(le, b))
    decreases |a|
  {
    hide Spread;
    assert |multiset(a)| == |a| && |multiset(b)| == |b|;
    if a != [] {
      var j := SplitPermuted(a, b);
      var n := |a| - 1;
      SpreadPermutes(le, a[..n], Without(b, j));
      SpreadConcat(le, b[..j] + [b[j]], b[j + 1..]);
      SpreadSnoc(le, b[..j], b[j]);
      SpreadConcat(le, b[..j], b[j + 1..]);
    }
  }

  /** Sorting a node's children before spreading makes no difference. */
  lemma SpreadNormalized(le: Order, node: TraceNode)
    requires Total(le)
    ensures Spread(le, Normalized(le, node)) == Spread(le, node)
  {
    if node.childOrder.Unordered? {
      var sorted := Sort(le, node.children);
      SortPermutes(le, node.children);
      SpreadPermutes(le, sorted, node.children);
      SortIsCanonical(le, SpreadAll(le, sorted), SpreadAll(le, node.children));
    }
  }

  /** Two open or attached nodes that differ only in how their children are counted. */
  ghost predicate Alike(le: Order, a: TraceNode, b: TraceNode) {
    a.(children := []) == b.(children := []) && SpreadAll(le, a.children) == SpreadAll(le, b.children)
  }

  ghost predicate AlikeStates(le: Order, a: Builder, b: Builder) {
    && SpreadAll(le, a.roots) == SpreadAll(le, b.roots)
    && |a.stack| == |b.stack|
    && forall i :: 0 <= i < |a.stack| ==> Alike(le, a.stack[i], b.stack[i])
  }

  lemma AlikeSpread(le: Order, a: TraceNode, b: TraceNode)
    requires Alike(le, a, b)
    ensures Spread(le, a) == Spread(le, b)
  {
    assert a.(observations := 1, children := Arrange(le, a.childOrder, SpreadAll(le, a.children)))
        == b.(observations := 1, children := Arrange(le, b.childOrder, SpreadAll(le, b.children))) by {
      assert a.(children := []).(children := Arrange(le, a.childOrder, SpreadAll(le, a.children)))
          == b.(children := []).(children := Arrange(le, b.childOrder, SpreadAll(le, b.children)));
    }
    assert a.(children := []).observations == b.(children := []).observations;
  }

  lemma AlikeAttach(le: Order, a: Builder, b: Builder, x: TraceNode, y: TraceNode)
    requires AlikeStates(le, a, b) && Spread(le, x) == Spread(le, y)
    ensures AlikeStates(le, Attach(a, x), Attach(b, y))
  {
    hide Spread;
    if a.stack == [] {
      SpreadSnoc(le, a.roots, x);
      SpreadSnoc(le, b.roots, y);
    } else {
      var n := |a.stack| - 1;
      SpreadSnoc(le, a.stack[n].children, x);
      SpreadSnoc(le, b.stack[n].children, y);
      assert Alike(le, a.stack[n], b.stack[n]);
      assert AddChild(a.stack[n], x).(children := []) == a.stack[n].(children := []);
      assert AddChild(b.stack[n], y).(children := []) == b.stack[n].(children := []);
      assert Alike(le, AddChild(a.stack[n], x), AddChild(b.stack[n], y));
    }
  }

  lemma AlikeReport(le: Order, a: Builder, b: Builder, message: string)
    requires AlikeStates(le, a, b)
    ensures AlikeStates(le, Report(a, message), Report(b, message))
  {
    SpreadSnoc(le, a.roots, ErrorNode(message));
    SpreadSnoc(le, b.roots, ErrorNode(message));
  }

  lemma AlikeHeader(le: Order, a: TraceNode, b: TraceNode)
    requires Alike(le, a, b)
    ensures a.phase == b.phase && a.operation == b.operation && a.key == b.key && a.childOrder == b.childOrder
  {
    var x, y := a.(children := []), b.(children := []);
    assert x.phase == y.phase && x.operation == y.operation && x.key == y.key && x.childOrder == y.childOrder;
  }

  lemma AlikeClose(le: Order, a: Builder, b: Builder, ending: Ending)
    requires Total(le) && AlikeStates(le, a, b)
    ensures AlikeStates(le, Close(le, a, ending), Close(le, b, ending))
  {
    hide Total, Attach, Spread, SpreadAll, Normalized;
    if a.stack == [] {
      AlikeReport(le, a, b, MissingMessage(ending));
    } else {
      var n := |a.stack| - 1;
      var x, y := a.stack[n], b.stack[n];
      assert Alike(le, x, y);
      AlikeHeader(le, x, y);
      var a', b' := a.(stack := a.stack[..n]), b.(stack := b.stack[..n]);
      assert AlikeStates(le, a', b');
      if !Matches(ending, x) {
        AlikeReport(le, a', b', MismatchMessage(ending, x));
        a', b' := Report(a', MismatchMessage(ending, x)), Report(b', MismatchMessage(ending, x));
      }
      var x', y' := Ended(ending, x), Ended(ending, y);
      assert x'.(children := []) == Ended(ending, x.(children := []));
      assert y'.(children := []) == Ended(ending, y.(children := []));
      assert Alike(le, x', y');
      AlikeSpread(le, x', y');
      SpreadNormalized(le, x');
      SpreadNormalized(le, y');
      AlikeAttach(le, a', b', Normalized(le, x'), Normalized(le, y'));
    }
  }

  lemma AlikePush(le: Order, a: Builder, b: Builder, node: TraceNode)
    requires AlikeStates(le, a, b)
    ensures AlikeStates(le, Push(a, node), Push(b, node))
  {
  }

  lemma AlikePhase(le: Order, a: Builder, b: Builder, default: TracePhase)
    requires AlikeStates(le, a, b)
    ensures CurrentPhase(a, default) == CurrentPhase(b, default)
  {
    if a.stack != [] {
      assert Alike(le, a.stack[|a.stack| - 1], b.stack[|b.stack| - 1]);
      AlikeHeader(le, a.stack[|a.stack| - 1], b.stack[|b.stack| - 1]);
    }
  }

  lemma AlikeStep(le: Order, default: TracePhase, a: Builder, b: Builder, event: InspectionEvent)
    requires Total(le) && AlikeStates(le, a, b)
    ensures AlikeStates(le, Step(le, default, a, event), Step(le, default, b, event))
  {
    hide Total, AlikeStates, Close, Attach, Push, PhaseNode, SpanNode, QueryNode, MetadataNode;
    AlikePhase(le, a, b, default);
    var phase := CurrentPhase(a, default);
    match event
    case PhaseEnter(name) => AlikePush(le, a, b, PhaseNode(name, default));
    case PhaseExit(name) => AlikeClose(le, a, b, PhaseEnd(name));
    case SpanEnter(operation, source, order) => AlikePush(le, a, b, SpanNode(phase, operation, source, order));
    case SpanExit(operation) => AlikeClose(le, a, b, SpanEnd(operation));
    case QueryEnter(key) => AlikePush(le, a, b, QueryNode(phase, key, Observed, 1));
    case QueryExit(key, disposition) => AlikeClose(le, a, b, QueryEnd(key, disposition));
    case QueryLeaf(key, disposition, n) =>
      AlikeAttach(le, a, b, QueryNode(phase, key, Did(disposition), n), QueryNode(phase, key, Did(disposition), n));
    case ExternalMetadata(operation) =>
      AlikeAttach(le, a, b, MetadataNode(phase, operation), MetadataNode(phase, operation));
  }

  /** A matching exit right after an entry attaches the finished node. */
  lemma ClosePushed(le: Order, b: Builder, node: TraceNode, ending: Ending)
    requires Matches(ending, node)
    ensures Close(le, Push(b, node), ending) == Attach(b, Normalized(le, Ended(ending, node)))
  {
    hide Attach, Normalized, Ended;
    var pushed := Push(b, node);
    assert pushed.stack[..|pushed.stack| - 1] == b.stack;
    assert pushed.(stack := b.stack) == b;
  }

  /** An idle request attaches one single-observation leaf. */
  lemma RunIdle(le: Order, default: TracePhase, b: Builder, key: string, disposition: Disposition)
    ensures Step(le, default, Step(le, default, b, QueryEnter(key)), QueryExit(key, disposition))
         == Attach(b, QueryNode(CurrentPhase(b, default), key, Did(disposition), 1))
  {
    hide Attach, Close;
    ClosePushed(le, b, QueryNode(CurrentPhase(b, default), key, Observed, 1), QueryEnd(key, disposition));
  }

  lemma AttachKeepsPhase(b: Builder, node: TraceNode, default: TracePhase)
    ensures CurrentPhase(Attach(b, node), default) == CurrentPhase(b, default)
  {
  }

  ghost function AttachMany(b: Builder, nodes: seq<TraceNode>): Builder {
    if nodes == [] then b else Attach(AttachMany(b, nodes[..|nodes| - 1]), nodes[|nodes| - 1])
  }

  lemma {:induction false} RunPairs(le: Order, default: TracePhase, b: Builder, key: string, disposition: Disposition,
                                    n: nat)
    ensures Run(le, default, b, Pairs(key, disposition, n))
         == AttachMany(b, Repeat(QueryNode(CurrentPhase(b, default), key, Did(disposition), 1), n))
    ensures CurrentPhase(Run(le, default, b, Pairs(key, disposition, n)), default) == CurrentPhase(b, default)
  {
    hide Step, Attach, QueryNode;
    if n > 0 {
      hide Run, AttachMany, Pairs, Repeat, CurrentPhase;
      RunPairs(le, default, b, key, disposition, n - 1);
      var earlier := Pairs(key, disposition, n - 1);
      var before := Run(le, default, b, earlier);
      PairsUnfold(key, disposition, n);
      RunSnoc(le, default, b, earlier, QueryEnter(key));
      RunSnoc(le, default, b, earlier + [QueryEnter(key)], QueryExit(key, disposition));
      RunIdle(le, default, before, key, disposition);
      var node := QueryNode(CurrentPhase(b, default), key, Did(disposition), 1);
      AttachKeepsPhase(before, node, default);
      AttachOneMore(b, node, n);
    }
  }

  lemma PairsUnfold(key: string, disposition: Disposition, n: nat)
    requires n > 0
    ensures Pairs(key, disposition, n)
         == Pairs(key, disposition, n - 1) + [QueryEnter(key)] + [QueryExit(key, disposition)]
  {
  }

  lemma AttachOneMore(b: Builder, node: TraceNode, n: nat)
    requires n > 0
    ensures AttachMany(b, Repeat(node, n)) == Attach(AttachMany(b, Repeat(node, n - 1)), node)
  {
    hide Attach;
    assert Repeat(node, n)[..n - 1] == Repeat(node, n - 1);
  }

  lemma {:induction false} LeafAgainstMany(le: Order, a: Builder, b: Builder, node: TraceNode, n: nat)
    requires AlikeStates(le, a, b) && node.observations == 1 && node.children == []
    ensures AlikeStates(le, Attach(a, node.(observations := n)), AttachMany(b, Repeat(node, n)))
  {
    if n == 0 {
      AlikeAttachNothing(le, a, b, node.(observations := 0));
    } else {
      LeafAgainstMany(le, a, b, node, n - 1);
      assert Repeat(node, n)[..n - 1] == Repeat(node, n - 1);
      var many := AttachMany(b, Repeat(node, n - 1));
      SpreadLeaf(le, node, n);
      SpreadLeaf(le, node, n - 1);
      SpreadLeaf(le, node, 1);
      MergeAttach(le, a, many, node.(observations := n - 1), node, node.(observations := n));
    }
  }

  lemma SpreadLeaf(le: Order, node: TraceNode, n: nat)
    requires node.children == [] && node.observations == 1
    ensures Spread(le, node.(observations := n)) == Repeat(node, n)
  {
    assert Sort(le, []) == [];
    assert node.(observations := n).(observations := 1, children := []) == node;
  }

  lemma AlikeAttachNothing(le: Order, a: Builder, b: Builder, node: TraceNode)
    requires AlikeStates(le, a, b) && node.observations == 0
    ensures AlikeStates(le, Attach(a, node), b)
  {
    if a.stack == [] {
      SpreadSnoc(le, a.roots, node);
    } else {
      var n := |a.stack| - 1;
      SpreadSnoc(le, a.stack[n].children, node);
      assert Alike(le, a.stack[n], b.stack[n]);
      assert AddChild(a.stack[n], node).(children := []) == a.stack[n].(children := []);
    }
  }

  lemma AlikeTransitive(le: Order, a: Builder, b: Builder, c: Builder)
    requires AlikeStates(le, a, b) && AlikeStates(le, b, c)
    ensures AlikeStates(le, a, c)
  {
    hide SpreadAll;
    forall i | 0 <= i < |a.stack|
      ensures Alike(le, a.stack[i], c.stack[i])
    {
      assert Alike(le, a.stack[i], b.stack[i]) && Alike(le, b.stack[i], c.stack[i]);
    }
  }

  lemma SpreadTwice(le: Order, nodes: seq<TraceNode>, part: TraceNode, next: TraceNode, whole: TraceNode)
    requires Spread(le, whole) == Spread(le, part) + Spread(le, next)
    ensures SpreadAll(le, nodes + [whole]) == SpreadAll(le, nodes + [part] + [next])
  {
    hide Spread, SpreadAll;
    SpreadSnoc(le, nodes, part);
    SpreadSnoc(le, nodes + [part], next);
    SpreadSnoc(le, nodes, whole);
  }

  lemma AttachTwice(le: Order, a: Builder, part: TraceNode, next: TraceNode, whole: TraceNode)
    requires Spread(le, whole) == Spread(le, part) + Spread(le, next)
    ensures AlikeStates(le, Attach(a, whole), Attach(Attach(a, part), next))
  {
    hide Spread, SpreadAll;
    var one, two := Attach(a, whole), Attach(Attach(a, part), next);
    if a.stack == [] {
      SpreadTwice(le, a.roots, part, next, whole);
    } else {
      var n := |a.stack| - 1;
      var top := a.stack[n];
      SpreadTwice(le, top.children, part, next, whole);
      var once, twice := AddChild(top, whole), AddChild(AddChild(top, part), next);
      assert once.(children := []) == top.(children := []) == twice.(children := []);
      assert Alike(le, once, twice);
      forall i | 0 <= i < |a.stack|
        ensures Alike(le, one.stack[i], two.stack[i])
      {
        assert one.stack[i] == (if i == n then once else a.stack[i]);
        assert two.stack[i] == (if i == n then twice else a.stack[i]);
      }
    }
  }

  /** Attaching `part` and then `next` counts like attaching `whole`. */
  lemma MergeAttach(le: Order, a: Builder, b: Builder, part: TraceNode, next: TraceNode, whole: TraceNode)
    requires AlikeStates(le, Attach(a, part), b)
    requires Spread(le, whole) == Spread(le, part) + Spread(le, next)
    ensures AlikeStates(le, Attach(a, whole), Attach(b, next))
  {
    hide AlikeStates, Attach;
    AttachTwice(le, a, part, next, whole);
    AlikeAttach(le, Attach(a, part), b, next, next);
    AlikeTransitive(le, Attach(a, whole), Attach(Attach(a, part), next), Attach(b, next));
  }

  /** Running the coalesced log and running what it stands for stay alike, event by event. */
  lemma {:induction false} RunExpanded(le: Order, default: TracePhase, log: Log)
    requires Total(le)
    ensures AlikeStates(le, Run(le, default, EMPTY, log), Run(le, default, EMPTY, Expand(log)))
  {
    if log != [] {
      hide Total, AlikeStates, Step;
      var n := |log| - 1;
      var front, last := log[..n], log[n];
      RunExpanded(le, default, front);
      var a, b := Run(le, default, EMPTY, front), Run(le, default, EMPTY, Expand(front));
      RunConcat(le, default, EMPTY, Expand(front), ExpandEvent(last));
      if last.QueryLeaf? {
        RunLeaf(le, default, a, b, last);
      } else {
        RunSnoc(le, default, EMPTY, Expand(front), last);
        AlikeStep(le, default, a, b, last);
      }
    }
  }

  lemma {:induction false} RunLeaf(le: Order, default: TracePhase, a: Builder, b: Builder, leaf: InspectionEvent)
    requires leaf.QueryLeaf? && AlikeStates(le, a, b)
    ensures AlikeStates(le, Step(le, default, a, leaf), Run(le, default, b, ExpandEvent(leaf)))
  {
    hide SpreadAll, Attach;
    AlikePhase(le, a, b, default);
    var node := QueryNode(CurrentPhase(a, default), leaf.key, Did(leaf.disposition), 1);
    RunPairs(le, default, b, leaf.key, leaf.disposition, leaf.observations);
    LeafAgainstMany(le, a, b, node, leaf.observations);
  }

  lemma {:induction false} AlikeCloseAll(le: Order, a: Builder, b: Builder)
    requires AlikeStates(le, a, b)
    ensures SpreadAll(le, CloseAll(a)) == SpreadAll(le, CloseAll(b))
    decreases |a.stack|
  {
    if a.stack != [] {
      var n := |a.stack| - 1;
      var a', b' := a.(stack := a.stack[..n]), b.(stack := b.stack[..n]);
      var x, y := a.stack[n].(outcome := Observed), b.stack[n].(outcome := Observed);
      assert Alike(le, a.stack[n], b.stack[n]);
      assert x.(children := []) == a.stack[n].(children := []).(outcome := Observed);
      assert y.(children := []) == b.stack[n].(children := []).(outcome := Observed);
      AlikeSpread(le, x, y);
      AlikeAttach(le, a', b', x, y);
      AttachKeepsDepth(a', x);
      AlikeCloseAll(le, Attach(a', x), Attach(b', y));
    }
  }

  /** For every log, balanced or not, the forest of the log and the forest of the
      events it stands for agree once counts are written out and unordered
      children are compared as collections. */
  lemma ForestOfExpansion(le: Order, default: TracePhase, log: Log)
    requires Total(le)
    ensures SpreadAll(le, Build(le, default, log)) == SpreadAll(le, Build(le, default, Expand(log)))
  {
    RunExpanded(le, default, log);
    AlikeCloseAll(le, Run(le, default, EMPTY, log), Run(le, default, EMPTY, Expand(log)));
  }

  /** The recorder never changes what the trace says. */
  lemma RecordedForestIsRawForest(le: Order, default: TracePhase, raw: Log)
    requires Total(le) && Raw(raw)
    ensures SpreadAll(le, Build(le, default, RecordAll(raw))) == SpreadAll(le, Build(le, default, raw))
  {
    RecordingIsLossless(raw);
    ForestOfExpansion(le, default, RecordAll(raw));
  }
}
