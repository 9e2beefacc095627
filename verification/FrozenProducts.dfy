/** Freezing an inspected product: continuation handles are renumbered in visiting
    order so that values from different runs can be compared. */
module FrozenProducts {
  import opened Decimals
  import opened Wrappers

  type Handle = string

  datatype ScalarValue = Null | BoolValue(b: bool) | NumberValue(n: int) | StringValue(s: string)

  datatype SymbolReference = SymbolReference(path: string, label_: string)

  datatype ValueField = ValueField(name: string, value: ValueNode)

  datatype ValueNode =
    | Record(typeName: string, fields: seq<ValueField>)
    | Variant(enumName: string, variantName: string, fields: seq<ValueField>)
    | Sequence(typeName: string, items: seq<ValueNode>)
    | Scalar(typeName: string, value: ScalarValue)
    | Reference(target: SymbolReference)
    | Cycle(identity: string)
    | Truncated(summary: string, continuation: Option<Handle>)

  /** `Other` stands for headings, text, code, notices and navigation, which hold no values. */
  datatype RenderNode =
    | Group(layout: string, children: seq<RenderNode>)
    | Value(value: ValueNode)
    | Other(content: string)

  datatype ProductPage = ProductPage(id: string, title: string, content: RenderNode)

  datatype FrozenProduct = FrozenProduct(page: ProductPage, continuationPages: seq<seq<ValueNode>>)

  type Pages = map<Handle, seq<ValueNode>>

  /** A missing page counts as an empty one. */
  function PageOf(source: Pages, handle: Handle): seq<ValueNode> {
    if handle in source then source[handle] else []
  }

  // ---------------------------------------------------------------- canonical handles

  function CanonicalHandle(index: nat): Handle {
    "continuation-" + Decimal(index)
  }

  lemma CanonicalInjective(a: nat, b: nat)
    requires CanonicalHandle(a) == CanonicalHandle(b)
    ensures a == b
  {
    assert CanonicalHandle(a)[13..] == Decimal(a) && CanonicalHandle(b)[13..] == Decimal(b);
    DecimalInjective(a, b);
  }

  // ---------------------------------------------------------------- the walk

  datatype State = State(handles: map<Handle, nat>, pages: seq<seq<ValueNode>>)

  predicate Extends(before: State, after: State) {
    && before.handles.Keys <= after.handles.Keys && |before.pages| <= |after.pages|
    && forall h :: h in before.handles ==> after.handles[h] == before.handles[h]
  }

  /** Handles whose pages are still to be numbered; this is what shrinks on every cycle. */
  function Pending(source: Pages, s: State): set<Handle> {
    source.Keys - s.handles.Keys
  }

  function Visit(source: Pages, node: ValueNode, s: State): (r: (ValueNode, State))
    ensures Extends(s, r.1)
    decreases Pending(source, s), 1, node
  {
    match node
    case Record(typeName, fields) =>
      var (fields', s') := VisitFields(source, fields, s);
      (Record(typeName, fields'), s')
    case Variant(enumName, variantName, fields) =>
      var (fields', s') := VisitFields(source, fields, s);
      (Variant(enumName, variantName, fields'), s')
    case Sequence(typeName, items) =>
      var (items', s') := VisitAll(source, items, s);
      (Sequence(typeName, items'), s')
    case Truncated(summary, Some(handle)) =>
      var (index, s') := VisitHandle(source, handle, s);
      (Truncated(summary, Some(CanonicalHandle(index))), s')
    case _ => (node, s)
  }

  function VisitHandle(source: Pages, handle: Handle, s: State): (r: (nat, State))
    ensures Extends(s, r.1) && handle in r.1.handles && r.1.handles[handle] == r.0
    decreases Pending(source, s), 0
  {
    if handle in s.handles then (s.handles[handle], s)
    else
      var index := |s.pages|;
      var entered := State(s.handles[handle := index], s.pages + [[]]);
      if handle in source then
        assert handle in Pending(source, s) && handle !in Pending(source, entered);
        var (page, s') := VisitAll(source, source[handle], entered);
        (index, s'.(pages := s'.pages[index := page]))
      else
        (index, entered.(pages := entered.pages[index := []]))
  }

  function VisitAll(source: Pages, nodes: seq<ValueNode>, s: State): (r: (seq<ValueNode>, State))
    ensures Extends(s, r.1)
    decreases Pending(source, s), 1, nodes
  {
    if nodes == [] then ([], s)
    else
      var n := |nodes| - 1;
      var (front, middle) := VisitAll(source, nodes[..n], s);
      var (last, s') := Visit(source, nodes[n], middle);
      (front + [last], s')
  }

  function VisitFields(source: Pages, fields: seq<ValueField>, s: State): (r: (seq<ValueField>, State))
    ensures Extends(s, r.1)
    decreases Pending(source, s), 1, fields
  {
    if fields == [] then ([], s)
    else
      var n := |fields| - 1;
      var (front, middle) := VisitFields(source, fields[..n], s);
      var (last, s') := Visit(source, fields[n].value, middle);
      (front + [ValueField(fields[n].name, last)], s')
  }

  function VisitRender(source: Pages, node: RenderNode, s: State): (r: (RenderNode, State))
    ensures Extends(s, r.1)
    decreases node
  {
    match node
    case Group(layout, children) =>
      var (children', s') := VisitRenders(source, children, s);
      (Group(layout, children'), s')
    case Value(value) =>
      var (value', s') := Visit(source, value, s);
      (Value(value'), s')
    case Other(_) => (node, s)
  }

  function VisitRenders(source: Pages, nodes: seq<RenderNode>, s: State): (r: (seq<RenderNode>, State))
    ensures Extends(s, r.1)
    decreases nodes
  {
    if nodes == [] then ([], s)
    else
      var n := |nodes| - 1;
      var (front, middle) := VisitRenders(source, nodes[..n], s);
      var (last, s') := VisitRender(source, nodes[n], middle);
      (front + [last], s')
  }

  const START := State(map[], [])

  function Freeze(page: ProductPage, continuations: Pages): FrozenProduct {
    var (content, s) := VisitRender(continuations, page.content, START);
    FrozenProduct(page.(content := content), s.pages)
  }

  // ---------------------------------------------------------------- the in-place form

  method NormalizeValue(node: ValueNode, source: Pages, handles: map<Handle, nat>, pages: seq<seq<ValueNode>>)
    returns (node': ValueNode, handles': map<Handle, nat>, pages': seq<seq<ValueNode>>)
    ensures (node', State(handles', pages')) == Visit(source, node, State(handles, pages))
    decreases source.Keys - handles.Keys, 1, node
  {
    node', handles', pages' := node, handles, pages;
    match node {
      case Record(typeName, fields) =>
        var fields';
        fields', handles', pages' := NormalizeFields(fields, source, handles, pages);
        node' := Record(typeName, fields');
      case Variant(enumName, variantName, fields) =>
        var fields';
        fields', handles', pages' := NormalizeFields(fields, source, handles, pages);
        node' := Variant(enumName, variantName, fields');
      case Sequence(typeName, items) =>
        var items';
        items', handles', pages' := NormalizeValues(items, source, handles, pages);
        node' := Sequence(typeName, items');
      case Truncated(summary, Some(handle)) =>
        var index: nat;
        if handle in handles {
          index := handles[handle];
        } else {
          index := |pages|;
          handles' := handles'[handle := index];
          pages' := pages' + [[]];
          var page := [];
          if handle in source {
            assert handle in source.Keys - handles.Keys && handle !in source.Keys - handles'.Keys;
            page, handles', pages' := NormalizeValues(source[handle], source, handles', pages');
          }
          pages' := pages'[index := page];
        }
        node' := Truncated(summary, Some(CanonicalHandle(index)));
      case _ =>
    }
  }

  method NormalizeValues(nodes: seq<ValueNode>, source: Pages, handles: map<Handle, nat>, pages: seq<seq<ValueNode>>)
    returns (nodes': seq<ValueNode>, handles': map<Handle, nat>, pages': seq<seq<ValueNode>>)
    ensures (nodes', State(handles', pages')) == VisitAll(source, nodes, State(handles, pages))
    decreases source.Keys - handles.Keys, 1, nodes
  {
    nodes', handles', pages' := [], handles, pages;
    for i := 0 to |nodes|
      invariant (nodes', State(handles', pages')) == VisitAll(source, nodes[..i], State(handles, pages))
      invariant handles.Keys <= handles'.Keys
    {
      assert nodes[..i + 1][..i] == nodes[..i];
      var node;
      node, handles', pages' := NormalizeValue(nodes[i], source, handles', pages');
      nodes' := nodes' + [node];
    }
    assert nodes[..|nodes|] == nodes;
  }

  method NormalizeFields(fields: seq<ValueField>, source: Pages, handles: map<Handle, nat>, pages: seq<seq<ValueNode>>)
    returns (fields': seq<ValueField>, handles': map<Handle, nat>, pages': seq<seq<ValueNode>>)
    ensures (fields', State(handles', pages')) == VisitFields(source, fields, State(handles, pages))
    decreases source.Keys - handles.Keys, 1, fields
  {
    fields', handles', pages' := [], handles, pages;
    for i := 0 to |fields|
      invariant (fields', State(handles', pages')) == VisitFields(source, fields[..i], State(handles, pages))
      invariant handles.Keys <= handles'.Keys
    {
      assert fields[..i + 1][..i] == fields[..i];
      var value;
      value, handles', pages' := NormalizeValue(fields[i].value, source, handles', pages');
      fields' := fields' + [ValueField(fields[i].name, value)];
    }
    assert fields[..|fields|] == fields;
  }

  method NormalizeRender(node: RenderNode, source: Pages, handles: map<Handle, nat>, pages: seq<seq<ValueNode>>)
    returns (node': RenderNode, handles': map<Handle, nat>, pages': seq<seq<ValueNode>>)
    ensures (node', State(handles', pages')) == VisitRender(source, node, State(handles, pages))
    decreases node
  {
    node', handles', pages' := node, handles, pages;
    match node {
      case Group(layout, children) =>
        var children': seq<RenderNode> := [];
        for i := 0 to |children|
          invariant (children', State(handles', pages')) == VisitRenders(source, children[..i], State(handles, pages))
        {
          assert children[..i + 1][..i] == children[..i];
          var child;
          child, handles', pages' := NormalizeRender(children[i], source, handles', pages');
          children' := children' + [child];
        }
        assert children[..|children|] == children;
        node' := Group(layout, children');
      case Value(value) =>
        var value';
        value', handles', pages' := NormalizeValue(value, source, handles, pages);
        node' := Value(value');
      case Other(_) =>
    }
  }

  /** Terminates on every input, however the continuation pages refer to each other. */
  method FreezeProduct(page: ProductPage, continuations: Pages) returns (frozen: FrozenProduct)
    ensures frozen == Freeze(page, continuations)
  {
    var content, handles, pages := NormalizeRender(page.content, continuations, map[], []);
    frozen := FrozenProduct(page.(content := content), pages);
  }
}
