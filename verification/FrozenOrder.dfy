/** What freezing does to a product: it renames handles in depth-first order and changes nothing else. */
module FrozenOrder {
  import opened Wrappers
  import opened FrozenProducts
  import opened FrozenEquality

  // ---------------------------------------------------------------- handles in reading order

  function Mentions(node: ValueNode): seq<Handle>
    decreases node
  {
    match node
    case Record(_, fields) => MentionsOfFields(fields)
    case Variant(_, _, fields) => MentionsOfFields(fields)
    case Sequence(_, items) => MentionsOfAll(items)
    case Truncated(_, Some(handle)) => [handle]
    case _ => []
  }

  function MentionsOfAll(nodes: seq<ValueNode>): seq<Handle>
    decreases nodes
  {
    if nodes == [] then [] else MentionsOfAll(nodes[..|nodes| - 1]) + Mentions(nodes[|nodes| - 1])
  }

  function MentionsOfFields(fields: seq<ValueField>): seq<Handle>
    decreases fields
  {
    if fields == [] then [] else MentionsOfFields(fields[..|fields| - 1]) + Mentions(fields[|fields| - 1].value)
  }

  function MentionsOfRender(node: RenderNode): seq<Handle>
    decreases node
  {
    match node
    case Group(_, children) => MentionsOfRenders(children)
    case Value(value) => Mentions(value)
    case Other(_) => []
  }

  function MentionsOfRenders(nodes: seq<RenderNode>): seq<Handle>
    decreases nodes
  {
    if nodes == [] then [] else MentionsOfRenders(nodes[..|nodes| - 1]) + MentionsOfRender(nodes[|nodes| - 1])
  }

  /** Depth-first search with an agenda: a handle not yet seen is followed by the handles of its page. */
  function DepthFirst(source: Pages, agenda: seq<Handle>, seen: seq<Handle>): seq<Handle>
    decreases source.Keys - Elements(seen), |agenda|
  {
    if agenda == [] then seen
    else if agenda[0] in seen then DepthFirst(source, agenda[1..], seen)
    else if agenda[0] in source then
      assert agenda[0] in source.Keys - Elements(seen) && agenda[0] !in source.Keys - Elements(seen + [agenda[0]]);
      DepthFirst(source, MentionsOfAll(source[agenda[0]]) + agenda[1..], seen + [agenda[0]])
    else
      DepthFirst(source, agenda[1..], seen + [agenda[0]])
  }

  function Elements(handles: seq<Handle>): set<Handle> {
    set h | h in handles
  }

  /** `seen` lists the numbered handles by number. */
  ghost predicate Ordered(s: State, seen: seq<Handle>) {
    && |seen| == |s.pages| && Elements(seen) == s.handles.Keys
    && forall i :: 0 <= i < |seen| ==> seen[i] in s.handles && s.handles[seen[i]] == i
  }

  /** The walk has done the part `handles` of the agenda and has `later` still to do. */
  ghost predicate Advanced(source: Pages, handles: seq<Handle>, later: seq<Handle>, seen: seq<Handle>,
                           seen': seq<Handle>)
  {
    DepthFirst(source, handles + later, seen) == DepthFirst(source, later, seen')
  }

  lemma AdvancedBoth(source: Pages, a: seq<Handle>, b: seq<Handle>, later: seq<Handle>, seen: seq<Handle>,
                     middle: seq<Handle>, seen': seq<Handle>)
    requires Advanced(source, a, b + later, seen, middle) && Advanced(source, b, later, middle, seen')
    ensures Advanced(source, a + b, later, seen, seen')
  {
    assert (a + b) + later == a + (b + later);
  }

  lemma NoneAdvanced(source: Pages, later: seq<Handle>, seen: seq<Handle>)
    ensures Advanced(source, [], later, seen, seen)
  {
    assert [] + later == later;
  }

  lemma {:induction false} VisitOrder(source: Pages, node: ValueNode, s: State, seen: seq<Handle>,
                                      later: seq<Handle>) returns (seen': seq<Handle>)
    requires Ordered(s, seen)
    ensures Ordered(Visit(source, node, s).1, seen') && Advanced(source, Mentions(node), later, seen, seen')
    decreases Pending(source, s), 1, node
  {
    hide Ordered, Advanced;
    match node
    case Record(_, fields) => seen' := VisitFieldsOrder(source, fields, s, seen, later);
    case Variant(_, _, fields) => seen' := VisitFieldsOrder(source, fields, s, seen, later);
    case Sequence(_, items) => seen' := VisitAllOrder(source, items, s, seen, later);
    case Truncated(_, Some(handle)) => seen' := VisitHandleOrder(source, handle, s, seen, later);
    case _ =>
      seen' := seen;
      NoneAdvanced(source, later, seen);
  }

  lemma {:induction false} VisitHandleOrder(source: Pages, handle: Handle, s: State, seen: seq<Handle>,
                                            later: seq<Handle>) returns (seen': seq<Handle>)
    requires Ordered(s, seen)
    ensures Ordered(VisitHandle(source, handle, s).1, seen') && Advanced(source, [handle], later, seen, seen')
    decreases Pending(source, s), 0
  {
    var agenda := [handle] + later;
    assert agenda[1..] == later;
    if handle in s.handles {
      seen' := seen;
    } else {
      var entered := State(s.handles[handle := |s.pages|], s.pages + [[]]);
      EnterOrdered(handle, s, seen);
      if handle in source {
        hide Ordered, MentionsOfAll;
        assert handle in Pending(source, s) && handle !in Pending(source, entered);
        var page := MentionsOfAll(source[handle]);
        seen' := VisitAllOrder(source, source[handle], entered, seen + [handle], later);
        assert handle !in seen by { NotSeen(handle, s, seen); }
        var (stored, s') := VisitAll(source, source[handle], entered);
        StoredOrdered(s', seen', |s.pages|, stored);
      } else {
        seen' := seen + [handle];
      }
    }
  }

  lemma EnterOrdered(handle: Handle, s: State, seen: seq<Handle>)
    requires Ordered(s, seen) && handle !in s.handles
    ensures Ordered(State(s.handles[handle := |s.pages|], s.pages + [[]]), seen + [handle])
  {
  }

  lemma NotSeen(handle: Handle, s: State, seen: seq<Handle>)
    requires Ordered(s, seen) && handle !in s.handles
    ensures handle !in seen
  {
  }

  lemma StoredOrdered(s: State, seen: seq<Handle>, index: nat, page: seq<ValueNode>)
    requires Ordered(s, seen) && index < |s.pages|
    ensures Ordered(s.(pages := s.pages[index := page]), seen)
  {
  }

  lemma {:induction false} VisitAllOrder(source: Pages, nodes: seq<ValueNode>, s: State, seen: seq<Handle>,
                                         later: seq<Handle>) returns (seen': seq<Handle>)
    requires Ordered(s, seen)
    ensures Ordered(VisitAll(source, nodes, s).1, seen') && Advanced(source, MentionsOfAll(nodes), later, seen, seen')
    decreases Pending(source, s), 1, nodes
  {
    hide Ordered, Advanced, Mentions, Visit;
    if nodes == [] {
      seen' := seen;
      NoneAdvanced(source, later, seen);
    } else {
      var n := |nodes| - 1;
      var last := Mentions(nodes[n]);
      var middle := VisitAllOrder(source, nodes[..n], s, seen, last + later);
      seen' := VisitOrder(source, nodes[n], VisitAll(source, nodes[..n], s).1, middle, later);
      AdvancedBoth(source, MentionsOfAll(nodes[..n]), last, later, seen, middle, seen');
    }
  }

  lemma {:induction false} VisitFieldsOrder(source: Pages, fields: seq<ValueField>, s: State, seen: seq<Handle>,
                                            later: seq<Handle>) returns (seen': seq<Handle>)
    requires Ordered(s, seen)
    ensures Ordered(VisitFields(source, fields, s).1, seen')
    ensures Advanced(source, MentionsOfFields(fields), later, seen, seen')
    decreases Pending(source, s), 1, fields
  {
    hide Ordered, Advanced, Mentions, Visit;
    if fields == [] {
      seen' := seen;
      NoneAdvanced(source, later, seen);
    } else {
      var n := |fields| - 1;
      var last := Mentions(fields[n].value);
      var middle := VisitFieldsOrder(source, fields[..n], s, seen, last + later);
      seen' := VisitOrder(source, fields[n].value, VisitFields(source, fields[..n], s).1, middle, later);
      AdvancedBoth(source, MentionsOfFields(fields[..n]), last, later, seen, middle, seen');
    }
  }

  lemma {:induction false} VisitRenderOrder(source: Pages, node: RenderNode, s: State, seen: seq<Handle>,
                                            later: seq<Handle>) returns (seen': seq<Handle>)
    requires Ordered(s, seen)
    ensures Ordered(VisitRender(source, node, s).1, seen')
    ensures Advanced(source, MentionsOfRender(node), later, seen, seen')
    decreases node
  {
    hide Ordered, Advanced, Mentions, Visit;
    match node
    case Group(_, children) => seen' := VisitRendersOrder(source, children, s, seen, later);
    case Value(value) => seen' := VisitOrder(source, value, s, seen, later);
    case Other(_) =>
      seen' := seen;
      NoneAdvanced(source, later, seen);
  }

  lemma {:induction false} VisitRendersOrder(source: Pages, nodes: seq<RenderNode>, s: State, seen: seq<Handle>,
                                             later: seq<Handle>) returns (seen': seq<Handle>)
    requires Ordered(s, seen)
    ensures Ordered(VisitRenders(source, nodes, s).1, seen')
    ensures Advanced(source, MentionsOfRenders(nodes), later, seen, seen')
    decreases nodes
  {
    hide Ordered, Advanced, MentionsOfRender, VisitRender;
    if nodes == [] {
      seen' := seen;
      NoneAdvanced(source, later, seen);
    } else {
      var n := |nodes| - 1;
      var last := MentionsOfRender(nodes[n]);
      var middle := VisitRendersOrder(source, nodes[..n], s, seen, last + later);
      seen' := VisitRenderOrder(source, nodes[n], VisitRenders(source, nodes[..n], s).1, middle, later);
      AdvancedBoth(source, MentionsOfRenders(nodes[..n]), last, later, seen, middle, seen');
    }
  }

  // ---------------------------------------------------------------- the frozen product

  /** Numbers follow the positions in `order`. */
  function NamesInOrder(order: seq<Handle>): Renaming {
    map h | h in order :: CanonicalHandle(PositionIn(order, h))
  }

  function PositionIn(order: seq<Handle>, h: Handle): (i: nat)
    requires h in order
    ensures i < |order| && order[i] == h && h !in order[..i]
  {
    if order[0] == h then 0
    else
      var i := 1 + PositionIn(order[1..], h);
      assert order[..i] == [order[0]] + order[1..][..i - 1];
      i
  }

  /** A frozen product is the inspected page with its handles renamed in depth-first
      order, followed by the page of each handle in that order, renamed likewise. */
  lemma FreezeRenames(page: ProductPage, continuations: Pages)
    ensures var order := DepthFirst(continuations, MentionsOfRender(page.content), []);
      var names := NamesInOrder(order);
      var frozen := Freeze(page, continuations);
      && frozen.page == page.(content := MappedRender(names, page.content))
      && |frozen.continuationPages| == |order|
      && forall i :: 0 <= i < |order| ==>
           frozen.continuationPages[i] == MappedAll(names, PageOf(continuations, order[i]))
  {
    var s := VisitRender(continuations, page.content, START).1;
    var mentions := MentionsOfRender(page.content);
    assert Ordered(START, []);
    var order := VisitRenderOrder(continuations, page.content, START, [], []);
    assert mentions + [] == mentions;
    assert order == DepthFirst(continuations, mentions, []);
    VisitRenderWalks(continuations, page.content, START);
    assert NamesInOrder(order) == Names(s) by {
      OrderedNames(s, order);
    }
    forall i | 0 <= i < |order|
      ensures s.pages[i] == MappedAll(Names(s), PageOf(continuations, order[i]))
    {
      assert Stored(continuations, s, order[i]);
    }
  }

  lemma OrderedNames(s: State, order: seq<Handle>)
    requires Ordered(s, order)
    ensures NamesInOrder(order) == Names(s)
  {
  }

  // ---------------------------------------------------------------- renaming can be undone

  ghost predicate Undoes(g: Renaming, f: Renaming) {
    g.Keys == f.Values && forall h :: h in f ==> g[f[h]] == h
  }

  /** Renaming changes nothing but handles: naming them back gives the node again. */
  lemma {:induction false} MappedBack(f: Renaming, g: Renaming, node: ValueNode)
    requires Undoes(g, f) && Handles(node) <= f.Keys
    ensures Mapped(g, Mapped(f, node)) == node
    decreases node
  {
    match node
    case Record(_, fields) => MappedFieldsBack(f, g, fields);
    case Variant(_, _, fields) => MappedFieldsBack(f, g, fields);
    case Sequence(_, items) => MappedAllBack(f, g, items);
    case Truncated(_, Some(handle)) => assert handle in Handles(node);
    case _ =>
  }

  lemma MappedAllSnoc(f: Renaming, nodes: seq<ValueNode>, last: ValueNode)
    ensures MappedAll(f, nodes + [last]) == MappedAll(f, nodes) + [Mapped(f, last)]
  {
    assert (nodes + [last])[..|nodes|] == nodes;
  }

  lemma {:induction false} MappedAllBack(f: Renaming, g: Renaming, nodes: seq<ValueNode>)
    requires Undoes(g, f) && HandlesOfAll(nodes) <= f.Keys
    ensures MappedAll(g, MappedAll(f, nodes)) == nodes
    decreases nodes
  {
    if nodes != [] {
      var front, last := nodes[..|nodes| - 1], nodes[|nodes| - 1];
      assert HandlesOfAll(front) <= f.Keys && Handles(last) <= f.Keys;
      hide Undoes, Mapped, MappedAll, HandlesOfAll;
      assert nodes == front + [last];
      MappedAllSnoc(f, front, last);
      MappedAllSnoc(g, MappedAll(f, front), Mapped(f, last));
      MappedAllBack(f, g, front);
      MappedBack(f, g, last);
    }
  }

  lemma MappedFieldsSnoc(f: Renaming, fields: seq<ValueField>, last: ValueField)
    ensures MappedFields(f, fields + [last]) == MappedFields(f, fields) + [ValueField(last.name, Mapped(f, last.value))]
  {
    assert (fields + [last])[..|fields|] == fields;
  }

  lemma {:induction false} MappedFieldsBack(f: Renaming, g: Renaming, fields: seq<ValueField>)
    requires Undoes(g, f) && HandlesOfFields(fields) <= f.Keys
    ensures MappedFields(g, MappedFields(f, fields)) == fields
    decreases fields
  {
    if fields != [] {
      var front, last := fields[..|fields| - 1], fields[|fields| - 1];
      assert HandlesOfFields(front) <= f.Keys && Handles(last.value) <= f.Keys;
      hide Undoes, Mapped, MappedFields, HandlesOfFields;
      assert fields == front + [last];
      MappedFieldsSnoc(f, front, last);
      MappedFieldsSnoc(g, MappedFields(f, front), ValueField(last.name, Mapped(f, last.value)));
      MappedFieldsBack(f, g, front);
      MappedBack(f, g, last.value);
    }
  }

  lemma {:induction false} MappedRenderBack(f: Renaming, g: Renaming, node: RenderNode)
    requires Undoes(g, f) && HandlesOfRender(node) <= f.Keys
    ensures MappedRender(g, MappedRender(f, node)) == node
    decreases node
  {
    hide Undoes, Mapped;
    match node
    case Group(_, children) => MappedRendersBack(f, g, children);
    case Value(value) => MappedBack(f, g, value);
    case Other(_) =>
  }

  lemma MappedRendersSnoc(f: Renaming, nodes: seq<RenderNode>, last: RenderNode)
    ensures MappedRenders(f, nodes + [last]) == MappedRenders(f, nodes) + [MappedRender(f, last)]
  {
    assert (nodes + [last])[..|nodes|] == nodes;
  }

  lemma {:induction false} MappedRendersBack(f: Renaming, g: Renaming, nodes: seq<RenderNode>)
    requires Undoes(g, f) && HandlesOfRenders(nodes) <= f.Keys
    ensures MappedRenders(g, MappedRenders(f, nodes)) == nodes
    decreases nodes
  {
    if nodes != [] {
      var front, last := nodes[..|nodes| - 1], nodes[|nodes| - 1];
      assert HandlesOfRenders(front) <= f.Keys && HandlesOfRender(last) <= f.Keys;
      hide Undoes, MappedRender, MappedRenders, HandlesOfRenders;
      assert nodes == front + [last];
      MappedRendersSnoc(f, front, last);
      MappedRendersSnoc(g, MappedRenders(f, front), MappedRender(f, last));
      MappedRendersBack(f, g, front);
      MappedRenderBack(f, g, last);
    }
  }

  ghost function Inverse(f: Renaming): (g: Renaming)
    requires Injective(f)
    ensures Undoes(g, f)
  {
    map v | v in f.Values :: HandleFor(f, v)
  }

  ghost function HandleFor(f: Renaming, v: Handle): (h: Handle)
    requires v in f.Values
    ensures h in f && f[h] == v
  {
    var h :| h in f && f[h] == v; h
  }

  lemma NamesAreDistinct(s: State)
    requires Numbered(s)
    ensures Injective(Names(s))
  {
    forall g, h | g in s.handles && h in s.handles && Names(s)[g] == Names(s)[h]
      ensures g == h
    {
      CanonicalInjective(s.handles[g], s.handles[h]);
    }
  }

  /** Nothing but the names of handles is lost: some renaming turns a frozen product back into
      the page that was frozen and its numbered pages back into the pages they stand for. */
  lemma FreezeLosesOnlyNames(page: ProductPage, continuations: Pages) returns (back: Renaming)
    ensures var frozen := Freeze(page, continuations);
      && frozen.page.(content := MappedRender(back, frozen.page.content)) == page
      && forall i :: 0 <= i < |frozen.continuationPages| ==>
           CanonicalHandle(i) in back
           && MappedAll(back, frozen.continuationPages[i]) == PageOf(continuations, back[CanonicalHandle(i)])
  {
    var s := VisitRender(continuations, page.content, START).1;
    VisitRenderWalks(continuations, page.content, START);
    var names := Names(s);
    NamesAreDistinct(s);
    back := Inverse(names);
    MappedRenderBack(names, back, page.content);
    forall i | 0 <= i < |s.pages|
      ensures CanonicalHandle(i) in back
      ensures MappedAll(back, s.pages[i]) == PageOf(continuations, back[CanonicalHandle(i)])
    {
      PageComesBack(continuations, s, back, i);
    }
  }

  lemma PageComesBack(source: Pages, s: State, back: Renaming, i: nat)
    requires Walked(source, s, {}) && Undoes(back, Names(s)) && i < |s.pages|
    ensures CanonicalHandle(i) in back
    ensures MappedAll(back, s.pages[i]) == PageOf(source, back[CanonicalHandle(i)])
  {
    assert NumberUsed(s, i);
    var h := HandleAt(s, i);
    assert Names(s)[h] == CanonicalHandle(i) && Names(s)[h] in Names(s).Values;
    assert Stored(source, s, h);
    MappedAllBack(Names(s), back, PageOf(source, h));
  }
}
