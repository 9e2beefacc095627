/** What each log event does to the trace under construction, node by node and field by field. */
module TraceAccounts {
  import opened Characters
  import opened QueryOutcomes
  import opened Wrappers
  import opened TraceLog
  import opened TraceForest
  import opened TraceSnapshot

  // ---------------------------------------------------------------- names

  /** The name a phase is written with. */
  function PhaseText(phase: TracePhase): string {
    match phase
    case Bootstrap => "bootstrap"
    case Selection => "selection"
    case Analysis => "analysis"
    case Reflection => "reflection"
    case ViewAssembly => "view-assembly"
  }

  /** Reading a phase name is the inverse of writing it. */
  lemma PhaseNamesInvert(name: string, phase: TracePhase)
    ensures PhaseNamed(name) == Some(phase) <==> PhaseText(phase) == name
  {
    assert |PhaseText(Bootstrap)| == 9 && |PhaseText(Analysis)| == 8 && |PhaseText(Reflection)| == 10;
    assert PhaseText(Selection)[0] == 's' && PhaseText(Bootstrap)[0] == 'b' && PhaseText(ViewAssembly)[0] == 'v';
  }

  /** Everything before the first opening parenthesis. */
  ghost predicate IsNameOf(text: string, name: string) {
    name <= text && '(' !in name && (|name| < |text| ==> text[|name|] == '(')
  }

  predicate AllSpace(text: string) {
    forall i :: 0 <= i < |text| ==> IsSpace(text[i])
  }

  predicate Trimmed(text: string) {
    text != "" ==> !IsSpace(text[0]) && !IsSpace(text[|text| - 1])
  }

  /** The name of a query key without the white space around it. */
  ghost predicate IsOperationOf(key: string, operation: string) {
    Trimmed(operation) && exists before, after ::
      AllSpace(before) && AllSpace(after) && IsNameOf(key, before + operation + after)
  }

  lemma {:induction false} BeforeParenIs(text: string)
    ensures IsNameOf(text, BeforeParen(text))
  {
    if text != "" && text[0] != '(' {
      BeforeParenIs(text[1..]);
      var rest := BeforeParen(text[1..]);
      assert text == [text[0]] + text[1..];
      assert ([text[0]] + rest) <= text;
      if |rest| + 1 < |text| {
        assert text[|rest| + 1] == text[1..][|rest|];
      }
    }
  }

  lemma {:induction false} TrimStartIs(text: string) returns (before: string)
    ensures AllSpace(before) && text == before + TrimStart(text)
    ensures TrimStart(text) != "" ==> !IsSpace(TrimStart(text)[0])
  {
    before := "";
    if text != "" && IsSpace(text[0]) {
      hide IsSpace;
      before := TrimStartIs(text[1..]);
      before := [text[0]] + before;
      assert text == [text[0]] + text[1..];
    }
  }

  lemma {:induction false} TrimEndIs(text: string) returns (after: string)
    ensures AllSpace(after) && text == TrimEnd(text) + after
    ensures TrimEnd(text) != "" ==> !IsSpace(TrimEnd(text)[|TrimEnd(text)| - 1])
  {
    after := "";
    if text != "" && IsSpace(text[|text| - 1]) {
      hide IsSpace;
      after := TrimEndIs(text[..|text| - 1]);
      after := after + [text[|text| - 1]];
      assert text == text[..|text| - 1] + [text[|text| - 1]];
    }
  }

  /** The operation of a query is its key up to the arguments, without white space around it. */
  lemma QueryOperationIs(key: string)
    ensures IsOperationOf(key, QueryOperation(key))
  {
    hide IsSpace, TrimStart, TrimEnd, BeforeParen;
    var name := BeforeParen(key);
    BeforeParenIs(key);
    var before := TrimStartIs(name);
    var after := TrimEndIs(TrimStart(name));
    var operation := QueryOperation(key);
    assert name == before + operation + after;
    if operation != "" {
      assert operation[0] == TrimStart(name)[0];
    }
  }

  // ---------------------------------------------------------------- sorting

  ghost predicate Ascending(le: Order, nodes: seq<TraceNode>) {
    forall i, j :: 0 <= i < j < |nodes| ==> le(nodes[i], nodes[j])
  }

  lemma {:induction false} InsertAscends(le: Order, node: TraceNode, nodes: seq<TraceNode>)
    requires Total(le) && Ascending(le, nodes)
    ensures Ascending(le, Insert(le, node, nodes))
  {
    if nodes != [] && !le(node, nodes[0]) {
      InsertAscends(le, node, nodes[1..]);
      var rest := Insert(le, node, nodes[1..]);
      InsertAdds(le, node, nodes[1..]);
      forall i | 0 <= i < |rest|
        ensures le(nodes[0], rest[i])
      {
        assert rest[i] in multiset(rest);
        assert rest[i] in multiset(nodes[1..]) || rest[i] == node;
        if rest[i] != node {
          var j :| 0 <= j < |nodes[1..]| && nodes[1..][j] == rest[i];
          assert nodes[1..][j] == nodes[j + 1];
        }
      }
    }
  }

  /** Sorted children are in order. */
  lemma {:induction false} SortAscends(le: Order, nodes: seq<TraceNode>)
    requires Total(le)
    ensures Ascending(le, Sort(le, nodes))
  {
    if nodes != [] {
      SortAscends(le, nodes[..|nodes| - 1]);
      InsertAscends(le, nodes[|nodes| - 1], Sort(le, nodes[..|nodes| - 1]));
    }
  }

  /** Sequential children stay as they are; unordered ones are the same collection in ascending order. */
  ghost predicate Arranged(le: Order, order: ChildOrder, nodes: seq<TraceNode>, arranged: seq<TraceNode>) {
    match order
    case Sequential => arranged == nodes
    case Unordered => multiset(arranged) == multiset(nodes) && Ascending(le, arranged)
  }

  lemma ArrangeArranges(le: Order, order: ChildOrder, nodes: seq<TraceNode>)
    requires Total(le)
    ensures Arranged(le, order, nodes, Arrange(le, order, nodes))
  {
    SortPermutes(le, nodes);
    SortAscends(le, nodes);
  }

  // ---------------------------------------------------------------- one event

  function InheritedPhase(b: Builder, default: TracePhase): TracePhase {
    if b.stack == [] then default else b.stack[|b.stack| - 1].phase
  }

  /** The node an entry opens. */
  ghost predicate Opens(default: TracePhase, inherited: TracePhase, event: InspectionEvent, node: TraceNode) {
    match event
    case PhaseEnter(name) =>
      && node == TraceNode(node.phase, Sage, name, Semantic(name), Observed, Sequential, 1, [])
      && (PhaseText(node.phase) == name || (node.phase == default && forall phase :: PhaseText(phase) != name))
    case SpanEnter(operation, source, order) =>
      node == TraceNode(inherited, node.source, operation, Semantic(operation), Observed, order, 1, [])
      && (node.source == if source == SageSource then Sage else Solver)
    case QueryEnter(key) =>
      node == TraceNode(inherited, Salsa, node.operation, Unmapped(key), Observed, Sequential, 1, [])
      && IsOperationOf(key, node.operation)
    case _ => false
  }

  /** The finished node of a leaf or of external metadata. */
  ghost predicate Adds(inherited: TracePhase, event: InspectionEvent, node: TraceNode) {
    match event
    case QueryLeaf(key, disposition, n) =>
      node == TraceNode(inherited, Salsa, node.operation, Unmapped(key), Did(disposition), Sequential, n, [])
      && IsOperationOf(key, node.operation)
    case ExternalMetadata(text) =>
      node == TraceNode(inherited, Metadata, node.operation, Unmapped(text), Did(Executed), Sequential, 1, [])
      && IsNameOf(text, node.operation)
    case _ => false
  }

  /** What an exit makes of the innermost node: arranged children and, for queries, the disposition. */
  ghost predicate Finishes(le: Order, event: InspectionEvent, node: TraceNode, closed: TraceNode) {
    && closed == node.(outcome := closed.outcome, children := closed.children)
    && closed.outcome == (if event.QueryExit? then Did(event.disposition) else node.outcome)
    && Arranged(le, node.childOrder, node.children, closed.children)
  }

  predicate Fits(event: InspectionEvent, node: TraceNode) {
    match event
    case PhaseExit(phase) => node.operation == phase
    case SpanExit(operation) => node.operation == operation
    case QueryExit(key, _) => node.key == Unmapped(key)
    case _ => false
  }

  /** The finished node goes to the end of the innermost open node's children, or of the roots. */
  ghost predicate Lands(roots: seq<TraceNode>, stack: seq<TraceNode>, node: TraceNode, after: Builder) {
    if stack == [] then after == Builder(roots + [node], [])
    else
      var n := |stack| - 1;
      && after.roots == roots && |after.stack| == n + 1 && after.stack[..n] == stack[..n]
      && after.stack[n] == stack[n].(children := stack[n].children + [node])
  }

  predicate IsErrorNode(node: TraceNode) {
    node.key.Unmapped?
    && node == TraceNode(Analysis, Sage, "trace-recorder-error", Unmapped(node.key.ingredient), Observed, Sequential,
                         1, [])
  }

  function ExitName(event: InspectionEvent): string {
    match event
    case PhaseExit(phase) => phase
    case SpanExit(operation) => operation
    case QueryExit(key, _) => key
    case _ => ""
  }

  /** An error node names the exit that does not fit. */
  ghost predicate Blames(error: TraceNode, event: InspectionEvent) {
    IsErrorNode(error) && exists before, after :: error.key.ingredient == before + ExitName(event) + after
  }

  /** Nothing where the exit fits, one error node where it does not. */
  ghost predicate Complains(event: InspectionEvent, node: TraceNode, errors: seq<TraceNode>) {
    if Fits(event, node) then errors == [] else |errors| == 1 && Blames(errors[0], event)
  }

  /** Everything one event does. */
  ghost predicate EventAccount(le: Order, default: TracePhase, b: Builder, event: InspectionEvent, after: Builder) {
    var inherited := InheritedPhase(b, default);
    if event.PhaseEnter? || event.SpanEnter? || event.QueryEnter? then
      exists node :: Opens(default, inherited, event, node) && after == Builder(b.roots, b.stack + [node])
    else if event.QueryLeaf? || event.ExternalMetadata? then
      exists node :: Adds(inherited, event, node) && Lands(b.roots, b.stack, node, after)
    else if b.stack == [] then
      exists error :: Blames(error, event) && after == Builder(b.roots + [error], [])
    else
      var n := |b.stack| - 1;
      exists errors, closed :: Complains(event, b.stack[n], errors) && Finishes(le, event, b.stack[n], closed)
        && Lands(b.roots + errors, b.stack[..n], closed, after)
  }

  lemma AttachLands(b: Builder, node: TraceNode)
    ensures Lands(b.roots, b.stack, node, Attach(b, node))
  {
  }

  lemma EntryOpens(default: TracePhase, inherited: TracePhase)
    ensures forall name :: Opens(default, inherited, PhaseEnter(name), PhaseNode(name, default))
    ensures forall operation, source, order ::
      Opens(default, inherited, SpanEnter(operation, source, order), SpanNode(inherited, operation, source, order))
    ensures forall key :: Opens(default, inherited, QueryEnter(key), QueryNode(inherited, key, Observed, 1))
    ensures forall key, disposition, n ::
      Adds(inherited, QueryLeaf(key, disposition, n), QueryNode(inherited, key, Did(disposition), n))
    ensures forall text :: Adds(inherited, ExternalMetadata(text), MetadataNode(inherited, text))
  {
    hide IsNameOf, IsOperationOf, PhaseText, PhaseNamed, QueryOperation, BeforeParen;
    forall name
      ensures Opens(default, inherited, PhaseEnter(name), PhaseNode(name, default))
    {
      forall phase
        ensures PhaseNamed(name) == Some(phase) <==> PhaseText(phase) == name
      {
        PhaseNamesInvert(name, phase);
      }
    }
    forall key: string
      ensures IsOperationOf(key, QueryOperation(key)) && IsNameOf(key, BeforeParen(key))
    {
      QueryOperationIs(key);
      BeforeParenIs(key);
    }
  }

  predicate EndsBy(event: InspectionEvent, ending: Ending) {
    match event
    case PhaseExit(phase) => ending == PhaseEnd(phase)
    case SpanExit(operation) => ending == SpanEnd(operation)
    case QueryExit(key, disposition) => ending == QueryEnd(key, disposition)
    case _ => false
  }

  lemma MessageBlames(event: InspectionEvent, before: string, after: string)
    ensures Blames(ErrorNode(before + ExitName(event) + after), event)
  {
    assert ErrorNode(before + ExitName(event) + after).key.ingredient == before + ExitName(event) + after;
  }

  lemma MissingBlames(event: InspectionEvent, ending: Ending)
    requires EndsBy(event, ending)
    ensures Blames(ErrorNode(MissingMessage(ending)), event)
  {
    hide Blames, ErrorNode;
    var name := ExitName(event);
    assert name + "" == name;
    match ending
    case PhaseEnd(phase) =>
      MessageBlames(event, "phase exit without enter: ", "");
      assert MissingMessage(ending) == "phase exit without enter: " + name + "";
    case SpanEnd(operation) =>
      MessageBlames(event, "semantic span exit without enter: ", "");
      assert MissingMessage(ending) == "semantic span exit without enter: " + name + "";
    case QueryEnd(key, _) =>
      MessageBlames(event, "exit without enter: ", "");
      assert MissingMessage(ending) == "exit without enter: " + name + "";
  }

  lemma Regroup(a: string, b: string, c: string, d: string, e: string)
    ensures a + b + c + d + e == a + b + (c + d + e)
  {
  }

  lemma MismatchBlames(event: InspectionEvent, ending: Ending, node: TraceNode)
    requires EndsBy(event, ending)
    ensures Blames(ErrorNode(MismatchMessage(ending, node)), event)
  {
    hide Blames, ErrorNode;
    var name, operation := ExitName(event), node.operation;
    match ending
    case PhaseEnd(_) =>
      Regroup("phase exit `", name, "` did not match `", operation, "`");
      MessageBlames(event, "phase exit `", "` did not match `" + operation + "`");
    case SpanEnd(_) =>
      Regroup("semantic span exit `", name, "` did not match `", operation, "`");
      MessageBlames(event, "semantic span exit `", "` did not match `" + operation + "`");
    case QueryEnd(_, _) => MessageBlames(event, "query exit `", "` did not match the active span");
  }

  lemma CloseAccounts(le: Order, default: TracePhase, b: Builder, event: InspectionEvent, ending: Ending)
    requires Total(le)
    requires EndsBy(event, ending)
    ensures EventAccount(le, default, b, event, Close(le, b, ending))
  {
    hide Total, Sort, Attach, Lands, Arranged, MissingMessage, MismatchMessage, Arrange, Blames;
    if b.stack == [] {
      MissingBlames(event, ending);
      assert Blames(ErrorNode(MissingMessage(ending)), event);
    } else {
      var n := |b.stack| - 1;
      var node := b.stack[n];
      var errors := if Matches(ending, node) then [] else [ErrorNode(MismatchMessage(ending, node))];
      var closed := Normalized(le, Ended(ending, node));
      ArrangeArranges(le, node.childOrder, node.children);
      MismatchBlames(event, ending, node);
      assert Complains(event, node, errors);
      assert Finishes(le, event, node, closed);
      AttachLands(Builder(b.roots + errors, b.stack[..n]), closed);
      assert b.roots + [] == b.roots;
    }
  }

  /** Every event does exactly what its account says, whatever is open. */
  lemma StepAccounts(le: Order, default: TracePhase, b: Builder, event: InspectionEvent)
    requires Total(le)
    ensures EventAccount(le, default, b, event, Step(le, default, b, event))
  {
    hide Total, Sort, Opens, Adds, Lands, Finishes, Close, Attach, PhaseNode, SpanNode, QueryNode, MetadataNode;
    var inherited := InheritedPhase(b, default);
    EntryOpens(default, inherited);
    match event
    case PhaseEnter(name) => assert Opens(default, inherited, event, PhaseNode(name, default));
    case SpanEnter(operation, source, order) =>
      assert Opens(default, inherited, event, SpanNode(inherited, operation, source, order));
    case QueryEnter(key) => assert Opens(default, inherited, event, QueryNode(inherited, key, Observed, 1));
    case QueryLeaf(key, disposition, n) => AttachLands(b, QueryNode(inherited, key, Did(disposition), n));
    case ExternalMetadata(text) => AttachLands(b, MetadataNode(inherited, text));
    case PhaseExit(phase) => CloseAccounts(le, default, b, event, PhaseEnd(phase));
    case SpanExit(operation) => CloseAccounts(le, default, b, event, SpanEnd(operation));
    case QueryExit(key, disposition) => CloseAccounts(le, default, b, event, QueryEnd(key, disposition));
  }

  // ---------------------------------------------------------------- the end of a log

  /** The open nodes from the outside in, each the last child of the one around it, all only observed. */
  ghost function Nest(stack: seq<TraceNode>): TraceNode
    requires stack != []
  {
    var inner := if |stack| == 1 then [] else [Nest(stack[1..])];
    stack[0].(outcome := Observed, children := stack[0].children + inner)
  }

  lemma {:induction false} NestLast(front: seq<TraceNode>, parent: TraceNode, last: TraceNode)
    ensures Nest(front + [parent, last]) ==
      Nest(front + [parent.(children := parent.children + [last.(outcome := Observed)])])
    decreases |front|
  {
    var stack := front + [parent, last];
    var grown := front + [parent.(children := parent.children + [last.(outcome := Observed)])];
    if front == [] {
      assert stack[1..] == [last];
      assert last.children + [] == last.children;
      assert grown[0].children + [] == grown[0].children;
    } else {
      NestLast(front[1..], parent, last);
      assert stack[1..] == front[1..] + [parent, last];
      assert grown[1..] == front[1..] + [parent.(children := parent.children + [last.(outcome := Observed)])];
    }
  }

  lemma CloseAllStep(b: Builder)
    requires b.stack != []
    ensures var n := |b.stack| - 1;
      CloseAll(b) == CloseAll(Attach(b.(stack := b.stack[..n]), b.stack[n].(outcome := Observed)))
  {
    hide Attach;
  }

  lemma NestOne(node: TraceNode)
    ensures Nest([node]) == node.(outcome := Observed)
  {
    assert node.children + [] == node.children;
  }

  /** Nodes still open when a log ends become one last tree, nested as they were open. */
  lemma {:induction false} CloseAllNests(b: Builder)
    ensures CloseAll(b) == if b.stack == [] then b.roots else b.roots + [Nest(b.stack)]
    decreases |b.stack|
  {
    if b.stack != [] {
      hide CloseAll, Nest;
      var n := |b.stack| - 1;
      var last := b.stack[n].(outcome := Observed);
      var popped := b.(stack := b.stack[..n]);
      CloseAllStep(b);
      AttachKeepsDepth(popped, last);
      CloseAllNests(Attach(popped, last));
      if n == 0 {
        NestOne(b.stack[0]);
        assert b.stack == [b.stack[0]];
      } else {
        var front, parent := b.stack[..n - 1], b.stack[n - 1];
        NestLast(front, parent, b.stack[n]);
        assert b.stack == front + [parent, b.stack[n]];
        assert Attach(popped, last).stack == front + [parent.(children := parent.children + [last])];
      }
    }
  }

  // ---------------------------------------------------------------- snapshots

  /** The stable form of a node: only unmapped keys are replaced, by the operation, and unordered
      children are put in ascending order again, at every depth. */
  ghost predicate IsStable(le: Order, node: TraceNode, stable: TraceNode)
    decreases node
  {
    && stable == node.(key := stable.key, children := stable.children)
    && stable.key == (if node.key.Unmapped? then Unmapped(node.operation) else node.key)
    && exists children: seq<TraceNode> ::
         |children| == |node.children| && Arranged(le, node.childOrder, children, stable.children)
         && forall i :: 0 <= i < |children| ==> IsStable(le, node.children[i], children[i])
  }

  lemma {:induction false} ErasedAllAt(le: Order, nodes: seq<TraceNode>, i: nat)
    requires i < |nodes|
    ensures ErasedAll(le, nodes)[i] == Erased(le, nodes[i])
    decreases |nodes|
  {
    if i < |nodes| - 1 {
      ErasedAllAt(le, nodes[..|nodes| - 1], i);
    }
  }

  lemma {:induction false} ErasedIsStable(le: Order, node: TraceNode)
    requires Total(le)
    ensures IsStable(le, node, Erased(le, node))
    decreases node
  {
    hide Total, Sort, Arranged;
    var children := ErasedAll(le, node.children);
    forall i | 0 <= i < |children|
      ensures IsStable(le, node.children[i], children[i])
    {
      ErasedAllAt(le, node.children, i);
      ErasedIsStable(le, node.children[i]);
    }
    ArrangeArranges(le, node.childOrder, children);
  }

  /** A snapshot has the trees of the trace, one by one and in order, in stable form. */
  lemma SnapshotIsStable(le: Order, log: Log)
    requires Total(le)
    ensures |Snapshot(le, log)| == |Build(le, Analysis, log)|
    ensures forall i :: 0 <= i < |Snapshot(le, log)| ==>
      IsStable(le, Build(le, Analysis, log)[i], Snapshot(le, log)[i])
  {
    hide Total, Erased, IsStable, Build, ErasedAll;
    var built := Build(le, Analysis, log);
    forall i | 0 <= i < |built|
      ensures IsStable(le, built[i], Snapshot(le, log)[i])
    {
      ErasedAllAt(le, built, i);
      ErasedIsStable(le, built[i]);
    }
  }
}
