/** Equality of frozen products is isomorphism of the pages reachable from them. */
module FrozenEquality {
  import opened Wrappers
  import opened FrozenProducts

  type Renaming = map<Handle, Handle>

  // ---------------------------------------------------------------- handles and renaming

  function Handles(node: ValueNode): set<Handle>
    decreases node
  {
    match node
    case Record(_, fields) => HandlesOfFields(fields)
    case Variant(_, _, fields) => HandlesOfFields(fields)
    case Sequence(_, items) => HandlesOfAll(items)
    case Truncated(_, Some(handle)) => {handle}
    case _ => {}
  }

  function HandlesOfAll(nodes: seq<ValueNode>): set<Handle>
    decreases nodes
  {
    if nodes == [] then {} else HandlesOfAll(nodes[..|nodes| - 1]) + Handles(nodes[|nodes| - 1])
  }

  function HandlesOfFields(fields: seq<ValueField>): set<Handle>
    decreases fields
  {
    if fields == [] then {} else HandlesOfFields(fields[..|fields| - 1]) + Handles(fields[|fields| - 1].value)
  }

  function HandlesOfRender(node: RenderNode): set<Handle>
    decreases node
  {
    match node
    case Group(_, children) => HandlesOfRenders(children)
    case Value(value) => Handles(value)
    case Other(_) => {}
  }

  function HandlesOfRenders(nodes: seq<RenderNode>): set<Handle>
    decreases nodes
  {
    if nodes == [] then {} else HandlesOfRenders(nodes[..|nodes| - 1]) + HandlesOfRender(nodes[|nodes| - 1])
  }

  /** The node with every handle in the map's domain replaced. */
  function Mapped(f: Renaming, node: ValueNode): ValueNode
    decreases node
  {
    match node
    case Record(typeName, fields) => Record(typeName, MappedFields(f, fields))
    case Variant(enumName, variantName, fields) => Variant(enumName, variantName, MappedFields(f, fields))
    case Sequence(typeName, items) => Sequence(typeName, MappedAll(f, items))
    case Truncated(summary, Some(handle)) => Truncated(summary, Some(if handle in f then f[handle] else handle))
    case _ => node
  }

  function MappedAll(f: Renaming, nodes: seq<ValueNode>): (r: seq<ValueNode>)
    ensures |r| == |nodes|
    decreases nodes
  {
    if nodes == [] then [] else MappedAll(f, nodes[..|nodes| - 1]) + [Mapped(f, nodes[|nodes| - 1])]
  }

  function MappedFields(f: Renaming, fields: seq<ValueField>): (r: seq<ValueField>)
    ensures |r| == |fields|
    decreases fields
  {
    if fields == [] then []
    else
      var last := fields[|fields| - 1];
      MappedFields(f, fields[..|fields| - 1]) + [ValueField(last.name, Mapped(f, last.value))]
  }

  function MappedRender(f: Renaming, node: RenderNode): RenderNode
    decreases node
  {
    match node
    case Group(layout, children) => Group(layout, MappedRenders(f, children))
    case Value(value) => Value(Mapped(f, value))
    case Other(_) => node
  }

  function MappedRenders(f: Renaming, nodes: seq<RenderNode>): (r: seq<RenderNode>)
    ensures |r| == |nodes|
    decreases nodes
  {
    if nodes == [] then [] else MappedRenders(f, nodes[..|nodes| - 1]) + [MappedRender(f, nodes[|nodes| - 1])]
  }

  ghost predicate Injective(f: Renaming) {
    forall a, b :: a in f && b in f && f[a] == f[b] ==> a == b
  }

  ghost predicate Agree(f: Renaming, g: Renaming, handles: set<Handle>) {
    forall h :: h in handles ==> (h in f && h in g && f[h] == g[h])
  }

  // ---------------------------------------------------------------- the isomorphism

  /** `f` covers the handles of `roots`, is closed under the pages of `a`, and turns
      each covered page of `a` into the page of `b` under the renamed handle. */
  ghost predicate PagesMatch(f: Renaming, a: Pages, b: Pages) {
    && Injective(f)
    && forall h :: h in f ==> HandlesOfAll(PageOf(a, h)) <= f.Keys && PageOf(b, f[h]) == MappedAll(f, PageOf(a, h))
  }

  ghost predicate Isomorphic(f: Renaming, p: ProductPage, a: Pages, q: ProductPage, b: Pages) {
    && PagesMatch(f, a, b)
    && HandlesOfRender(p.content) <= f.Keys
    && q == p.(content := MappedRender(f, p.content))
  }

  // ---------------------------------------------------------------- freezing respects isomorphism

  /** Corresponding states of two walks. */
  ghost predicate InStep(f: Renaming, s: State, t: State) {
    && s.handles.Keys <= f.Keys && s.pages == t.pages
    && (forall h :: h in s.handles ==> f[h] in t.handles && t.handles[f[h]] == s.handles[h])
    && (forall h :: h in f && f[h] in t.handles ==> h in s.handles)
  }

  lemma {:induction false} VisitInStep(f: Renaming, a: Pages, b: Pages, node: ValueNode, s: State, t: State)
    requires PagesMatch(f, a, b) && InStep(f, s, t) && Handles(node) <= f.Keys
    ensures var (x, s') := Visit(a, node, s);
      var (y, t') := Visit(b, Mapped(f, node), t);
      x == y && InStep(f, s', t')
    decreases Pending(a, s), 1, node
  {
    match node
    case Record(_, fields) => VisitFieldsInStep(f, a, b, fields, s, t);
    case Variant(_, _, fields) => VisitFieldsInStep(f, a, b, fields, s, t);
    case Sequence(_, items) => VisitAllInStep(f, a, b, items, s, t);
    case Truncated(_, Some(handle)) => VisitHandleInStep(f, a, b, handle, s, t);
    case _ =>
  }

  /** Entering a new handle, seen through the page it has, missing or not. */
  lemma EnterHandle(source: Pages, handle: Handle, s: State)
    requires handle !in s.handles
    ensures var entered := State(s.handles[handle := |s.pages|], s.pages + [[]]);
      var (page, s') := VisitAll(source, PageOf(source, handle), entered);
      VisitHandle(source, handle, s) == (|s.pages|, s'.(pages := s'.pages[|s.pages| := page]))
  {
  }

  lemma {:induction false} VisitHandleInStep(f: Renaming, a: Pages, b: Pages, handle: Handle, s: State, t: State)
    requires PagesMatch(f, a, b) && InStep(f, s, t) && handle in f
    ensures var (i, s') := VisitHandle(a, handle, s);
      var (j, t') := VisitHandle(b, f[handle], t);
      i == j && InStep(f, s', t')
    decreases Pending(a, s), 0
  {
    if handle !in s.handles {
      EnterHandle(a, handle, s);
      EnterHandle(b, f[handle], t);
      var entered := State(s.handles[handle := |s.pages|], s.pages + [[]]);
      var entered' := State(t.handles[f[handle] := |t.pages|], t.pages + [[]]);
      assert InStep(f, entered, entered');
      if handle in a {
        assert handle in Pending(a, s) && handle !in Pending(a, entered);
        VisitAllInStep(f, a, b, PageOf(a, handle), entered, entered');
      }
    }
  }

  lemma {:induction false} VisitAllInStep(f: Renaming, a: Pages, b: Pages, nodes: seq<ValueNode>, s: State, t: State)
    requires PagesMatch(f, a, b) && InStep(f, s, t) && HandlesOfAll(nodes) <= f.Keys
    ensures var (x, s') := VisitAll(a, nodes, s);
      var (y, t') := VisitAll(b, MappedAll(f, nodes), t);
      x == y && InStep(f, s', t')
    decreases Pending(a, s), 1, nodes
  {
    if nodes != [] {
      hide PagesMatch, InStep, Visit, Mapped;
      var n := |nodes| - 1;
      VisitAllInStep(f, a, b, nodes[..n], s, t);
      VisitInStep(f, a, b, nodes[n], VisitAll(a, nodes[..n], s).1, VisitAll(b, MappedAll(f, nodes[..n]), t).1);
      assert MappedAll(f, nodes)[..n] == MappedAll(f, nodes[..n]);
    }
  }

  lemma {:induction false} VisitFieldsInStep(f: Renaming, a: Pages, b: Pages, fields: seq<ValueField>, s: State,
                                             t: State)
    requires PagesMatch(f, a, b) && InStep(f, s, t) && HandlesOfFields(fields) <= f.Keys
    ensures var (x, s') := VisitFields(a, fields, s);
      var (y, t') := VisitFields(b, MappedFields(f, fields), t);
      x == y && InStep(f, s', t')
    decreases Pending(a, s), 1, fields
  {
    if fields != [] {
      hide PagesMatch, InStep, Visit, Mapped;
      var n := |fields| - 1;
      VisitFieldsInStep(f, a, b, fields[..n], s, t);
      VisitInStep(f, a, b, fields[n].value, VisitFields(a, fields[..n], s).1,
                  VisitFields(b, MappedFields(f, fields[..n]), t).1);
      assert MappedFields(f, fields)[..n] == MappedFields(f, fields[..n]);
    }
  }

  lemma {:induction false} VisitRenderInStep(f: Renaming, a: Pages, b: Pages, node: RenderNode, s: State, t: State)
    requires PagesMatch(f, a, b) && InStep(f, s, t) && HandlesOfRender(node) <= f.Keys
    ensures var (x, s') := VisitRender(a, node, s);
      var (y, t') := VisitRender(b, MappedRender(f, node), t);
      x == y && InStep(f, s', t')
    decreases node
  {
    match node
    case Group(_, children) => VisitRendersInStep(f, a, b, children, s, t);
    case Value(value) => VisitInStep(f, a, b, value, s, t);
    case Other(_) =>
  }

  lemma {:induction false} VisitRendersInStep(f: Renaming, a: Pages, b: Pages, nodes: seq<RenderNode>, s: State,
                                              t: State)
    requires PagesMatch(f, a, b) && InStep(f, s, t) && HandlesOfRenders(nodes) <= f.Keys
    ensures var (x, s') := VisitRenders(a, nodes, s);
      var (y, t') := VisitRenders(b, MappedRenders(f, nodes), t);
      x == y && InStep(f, s', t')
    decreases nodes
  {
    if nodes != [] {
      hide PagesMatch, InStep, VisitRender, MappedRender;
      var n := |nodes| - 1;
      VisitRendersInStep(f, a, b, nodes[..n], s, t);
      VisitRenderInStep(f, a, b, nodes[n], VisitRenders(a, nodes[..n], s).1,
                        VisitRenders(b, MappedRenders(f, nodes[..n]), t).1);
      assert MappedRenders(f, nodes)[..n] == MappedRenders(f, nodes[..n]);
    }
  }

  /** Any renaming of the handles that keeps the page graph gives the same frozen product. */
  lemma IsomorphicFreezeAlike(f: Renaming, p: ProductPage, a: Pages, q: ProductPage, b: Pages)
    requires Isomorphic(f, p, a, q, b)
    ensures Freeze(p, a) == Freeze(q, b)
  {
    VisitRenderInStep(f, a, b, p.content, START, START);
  }

  // ---------------------------------------------------------------- what a walk leaves behind

  function Names(s: State): Renaming {
    map h | h in s.handles :: CanonicalHandle(s.handles[h])
  }

  ghost predicate NumberUsed(s: State, i: nat) {
    exists h :: h in s.handles && s.handles[h] == i
  }

  /** Numbers are exactly the page positions, each used once. */
  ghost predicate Numbered(s: State) {
    && (forall h :: h in s.handles ==> s.handles[h] < |s.pages|)
    && (forall g, h :: g in s.handles && h in s.handles && s.handles[g] == s.handles[h] ==> g == h)
    && (forall i: nat :: i < |s.pages| ==> NumberUsed(s, i))
  }

  /** The stored page of `h` is its source page with every handle renumbered. */
  ghost predicate Stored(source: Pages, s: State, h: Handle)
    requires h in s.handles && s.handles[h] < |s.pages|
  {
    && HandlesOfAll(PageOf(source, h)) <= s.handles.Keys
    && s.pages[s.handles[h]] == MappedAll(Names(s), PageOf(source, h))
  }

  /** All numbered handles outside `unfinished` have their final page. */
  ghost predicate Walked(source: Pages, s: State, unfinished: set<Handle>) {
    && Numbered(s) && unfinished <= s.handles.Keys
    && forall h :: h in s.handles && h !in unfinished ==> Stored(source, s, h)
  }

  lemma {:induction false} MappedAgree(f: Renaming, g: Renaming, node: ValueNode)
    requires Agree(f, g, Handles(node))
    ensures Mapped(f, node) == Mapped(g, node)
    decreases node
  {
    match node
    case Record(_, fields) => MappedFieldsAgree(f, g, fields);
    case Variant(_, _, fields) => MappedFieldsAgree(f, g, fields);
    case Sequence(_, items) => MappedAllAgree(f, g, items);
    case _ =>
  }

  lemma {:induction false} MappedAllAgree(f: Renaming, g: Renaming, nodes: seq<ValueNode>)
    requires Agree(f, g, HandlesOfAll(nodes))
    ensures MappedAll(f, nodes) == MappedAll(g, nodes)
    decreases nodes
  {
    if nodes != [] {
      MappedAllAgree(f, g, nodes[..|nodes| - 1]);
      MappedAgree(f, g, nodes[|nodes| - 1]);
    }
  }

  lemma {:induction false} MappedFieldsAgree(f: Renaming, g: Renaming, fields: seq<ValueField>)
    requires Agree(f, g, HandlesOfFields(fields))
    ensures MappedFields(f, fields) == MappedFields(g, fields)
    decreases fields
  {
    if fields != [] {
      MappedFieldsAgree(f, g, fields[..|fields| - 1]);
      MappedAgree(f, g, fields[|fields| - 1].value);
    }
  }

  lemma {:induction false} MappedRenderAgree(f: Renaming, g: Renaming, node: RenderNode)
    requires Agree(f, g, HandlesOfRender(node))
    ensures MappedRender(f, node) == MappedRender(g, node)
    decreases node
  {
    match node
    case Group(_, children) => MappedRendersAgree(f, g, children);
    case Value(value) => MappedAgree(f, g, value);
    case Other(_) =>
  }

  lemma {:induction false} MappedRendersAgree(f: Renaming, g: Renaming, nodes: seq<RenderNode>)
    requires Agree(f, g, HandlesOfRenders(nodes))
    ensures MappedRenders(f, nodes) == MappedRenders(g, nodes)
    decreases nodes
  {
    if nodes != [] {
      MappedRendersAgree(f, g, nodes[..|nodes| - 1]);
      MappedRenderAgree(f, g, nodes[|nodes| - 1]);
    }
  }

  lemma NamesAgree(s: State, t: State, handles: set<Handle>)
    requires Extends(s, t) && handles <= s.handles.Keys
    ensures Agree(Names(s), Names(t), handles)
  {
  }

  lemma {:induction false} VisitWalks(source: Pages, node: ValueNode, s: State, unfinished: set<Handle>)
    requires Walked(source, s, unfinished)
    ensures var (x, s') := Visit(source, node, s);
      Walked(source, s', unfinished) && Handles(node) <= s'.handles.Keys && x == Mapped(Names(s'), node)
    decreases Pending(source, s), 1, node
  {
    hide Walked, Names;
    match node
    case Record(_, fields) => VisitFieldsWalks(source, fields, s, unfinished);
    case Variant(_, _, fields) => VisitFieldsWalks(source, fields, s, unfinished);
    case Sequence(_, items) => VisitAllWalks(source, items, s, unfinished);
    case Truncated(_, Some(handle)) =>
      VisitHandleWalks(source, handle, s, unfinished);
      NamesAre(VisitHandle(source, handle, s).1);
    case _ =>
  }

  lemma NamesAre(s: State)
    ensures Names(s).Keys == s.handles.Keys && forall h :: h in s.handles ==>
      Names(s)[h] == CanonicalHandle(s.handles[h])
  {
  }

  lemma WalkedEnter(source: Pages, handle: Handle, s: State, unfinished: set<Handle>)
    requires Walked(source, s, unfinished) && handle !in s.handles
    ensures Walked(source, State(s.handles[handle := |s.pages|], s.pages + [[]]), unfinished + {handle})
  {
    var entered := State(s.handles[handle := |s.pages|], s.pages + [[]]);
    forall i: nat | i < |entered.pages|
      ensures NumberUsed(entered, i)
    {
      if i < |s.pages| {
        assert NumberUsed(s, i);
        var h :| h in s.handles && s.handles[h] == i;
        assert h in entered.handles && entered.handles[h] == i;
      } else {
        assert handle in entered.handles && entered.handles[handle] == i;
      }
    }
    assert Numbered(entered);
    forall h | h in entered.handles && h !in unfinished + {handle}
      ensures Stored(source, entered, h)
    {
      assert Stored(source, s, h);
      NamesAgree(s, entered, HandlesOfAll(PageOf(source, h)));
      MappedAllAgree(Names(s), Names(entered), PageOf(source, h));
    }
  }

  /** Putting the finished page of an open handle in its place. */
  lemma WalkedStore(source: Pages, handle: Handle, s: State, unfinished: set<Handle>)
    requires Walked(source, s, unfinished + {handle}) && handle in s.handles && handle !in unfinished
    requires HandlesOfAll(PageOf(source, handle)) <= s.handles.Keys && s.handles[handle] < |s.pages|
    ensures Walked(source, s.(pages := s.pages[s.handles[handle] := MappedAll(Names(s), PageOf(source, handle))]),
                   unfinished)
  {
    var page := MappedAll(Names(s), PageOf(source, handle));
    var stored := s.(pages := s.pages[s.handles[handle] := page]);
    assert Names(stored) == Names(s);
    forall i: nat | i < |stored.pages|
      ensures NumberUsed(stored, i)
    {
      assert NumberUsed(s, i);
      var h :| h in s.handles && s.handles[h] == i;
      assert stored.handles[h] == i;
    }
    assert Numbered(stored);
    forall h | h in stored.handles && h !in unfinished
      ensures Stored(source, stored, h)
    {
      if h != handle {
        assert Stored(source, s, h);
        assert stored.pages[stored.handles[h]] == s.pages[s.handles[h]];
      }
    }
  }

  lemma {:induction false} VisitHandleWalks(source: Pages, handle: Handle, s: State, unfinished: set<Handle>)
    requires Walked(source, s, unfinished)
    ensures Walked(source, VisitHandle(source, handle, s).1, unfinished)
    decreases Pending(source, s), 0
  {
    hide Walked, Names;
    if handle !in s.handles {
      assert unfinished <= s.handles.Keys by {
        WalkedOpen(source, s, unfinished);
      }
      EnterHandle(source, handle, s);
      var entered := State(s.handles[handle := |s.pages|], s.pages + [[]]);
      WalkedEnter(source, handle, s, unfinished);
      if handle in source {
        assert handle in Pending(source, s) && handle !in Pending(source, entered);
        VisitAllWalks(source, PageOf(source, handle), entered, unfinished + {handle});
      }
      var (page, s') := VisitAll(source, PageOf(source, handle), entered);
      assert s'.handles[handle] == |s.pages|;
      WalkedStore(source, handle, s', unfinished);
    }
  }

  lemma WalkedOpen(source: Pages, s: State, unfinished: set<Handle>)
    requires Walked(source, s, unfinished)
    ensures unfinished <= s.handles.Keys && Numbered(s)
  {
  }

  lemma {:induction false} VisitAllWalks(source: Pages, nodes: seq<ValueNode>, s: State, unfinished: set<Handle>)
    requires Walked(source, s, unfinished)
    ensures var (x, s') := VisitAll(source, nodes, s);
      Walked(source, s', unfinished) && HandlesOfAll(nodes) <= s'.handles.Keys && x == MappedAll(Names(s'), nodes)
    decreases Pending(source, s), 1, nodes
  {
    if nodes != [] {
      hide Walked, Names, Visit;
      var n := |nodes| - 1;
      VisitAllWalks(source, nodes[..n], s, unfinished);
      var middle := VisitAll(source, nodes[..n], s).1;
      VisitWalks(source, nodes[n], middle, unfinished);
      var s' := Visit(source, nodes[n], middle).1;
      NamesAgree(middle, s', HandlesOfAll(nodes[..n]));
      MappedAllAgree(Names(middle), Names(s'), nodes[..n]);
    }
  }

  lemma {:induction false} VisitFieldsWalks(source: Pages, fields: seq<ValueField>, s: State, unfinished: set<Handle>)
    requires Walked(source, s, unfinished)
    ensures var (x, s') := VisitFields(source, fields, s);
      Walked(source, s', unfinished) && HandlesOfFields(fields) <= s'.handles.Keys
        && x == MappedFields(Names(s'), fields)
    decreases Pending(source, s), 1, fields
  {
    if fields != [] {
      hide Walked, Names, Visit;
      var n := |fields| - 1;
      VisitFieldsWalks(source, fields[..n], s, unfinished);
      var middle := VisitFields(source, fields[..n], s).1;
      VisitWalks(source, fields[n].value, middle, unfinished);
      var s' := Visit(source, fields[n].value, middle).1;
      NamesAgree(middle, s', HandlesOfFields(fields[..n]));
      MappedFieldsAgree(Names(middle), Names(s'), fields[..n]);
    }
  }

  lemma {:induction false} VisitRenderWalks(source: Pages, node: RenderNode, s: State)
    requires Walked(source, s, {})
    ensures var (x, s') := VisitRender(source, node, s);
      Walked(source, s', {}) && HandlesOfRender(node) <= s'.handles.Keys && x == MappedRender(Names(s'), node)
    decreases node
  {
    match node
    case Group(_, children) => VisitRendersWalks(source, children, s);
    case Value(value) => VisitWalks(source, value, s, {});
    case Other(_) =>
  }

  lemma {:induction false} VisitRendersWalks(source: Pages, nodes: seq<RenderNode>, s: State)
    requires Walked(source, s, {})
    ensures var (x, s') := VisitRenders(source, nodes, s);
      Walked(source, s', {}) && HandlesOfRenders(nodes) <= s'.handles.Keys && x == MappedRenders(Names(s'), nodes)
    decreases nodes
  {
    if nodes != [] {
      hide Walked, Names, VisitRender;
      var n := |nodes| - 1;
      VisitRendersWalks(source, nodes[..n], s);
      var middle := VisitRenders(source, nodes[..n], s).1;
      VisitRenderWalks(source, nodes[n], middle);
      var s' := VisitRender(source, nodes[n], middle).1;
      NamesAgree(middle, s', HandlesOfRenders(nodes[..n]));
      MappedRendersAgree(Names(middle), Names(s'), nodes[..n]);
    }
  }

  // ---------------------------------------------------------------- equal frozen products

  /** The handle that number `i` was given to. */
  ghost function HandleAt(s: State, i: nat): (h: Handle)
    requires NumberUsed(s, i)
    ensures h in s.handles && s.handles[h] == i
  {
    var h :| h in s.handles && s.handles[h] == i; h
  }

  /** Two walks that number their handles alike. */
  ghost predicate Paired(s: State, t: State) {
    Numbered(s) && Numbered(t) && |s.pages| == |t.pages|
  }

  /** Sends each handle of the first walk to the handle with the same number in the second. */
  ghost function Pairing(s: State, t: State): (f: Renaming)
    requires Paired(s, t)
    ensures f.Keys == s.handles.Keys
    ensures forall h :: h in f ==> f[h] in t.handles && t.handles[f[h]] == s.handles[h]
    ensures Injective(f)
  {
    map h | h in s.handles :: HandleAt(t, s.handles[h])
  }

  lemma PairingAt(s: State, t: State, h: Handle, g: Handle)
    requires Paired(s, t) && h in s.handles && g in t.handles
    requires CanonicalHandle(s.handles[h]) == CanonicalHandle(t.handles[g])
    ensures Pairing(s, t)[h] == g
  {
    CanonicalInjective(s.handles[h], t.handles[g]);
  }

  lemma {:induction false} SameNames(s: State, t: State, x: ValueNode, y: ValueNode)
    requires Paired(s, t) && Handles(x) <= s.handles.Keys && Handles(y) <= t.handles.Keys
    requires Mapped(Names(s), x) == Mapped(Names(t), y)
    ensures Mapped(Pairing(s, t), x) == y
    decreases x
  {
    hide Paired, Pairing;
    match x
    case Record(_, fields) => SameNamesFields(s, t, fields, y.fields);
    case Variant(_, _, fields) => SameNamesFields(s, t, fields, y.fields);
    case Sequence(_, items) => SameNamesAll(s, t, items, y.items);
    case Truncated(_, Some(handle)) =>
      assert y.Truncated? && y.continuation.Some?;
      assert handle in Handles(x) && y.continuation.value in Handles(y);
      PairingAt(s, t, handle, y.continuation.value);
    case _ =>
  }

  lemma {:induction false} SameNamesAll(s: State, t: State, x: seq<ValueNode>, y: seq<ValueNode>)
    requires Paired(s, t) && HandlesOfAll(x) <= s.handles.Keys && HandlesOfAll(y) <= t.handles.Keys
    requires MappedAll(Names(s), x) == MappedAll(Names(t), y)
    ensures MappedAll(Pairing(s, t), x) == y
    decreases x
  {
    hide Paired, Pairing, Names, Mapped;
    if x != [] {
      var n := |x| - 1;
      assert MappedAll(Names(s), x)[..n] == MappedAll(Names(s), x[..n]);
      assert MappedAll(Names(t), y)[..n] == MappedAll(Names(t), y[..n]);
      SameNamesAll(s, t, x[..n], y[..n]);
      assert MappedAll(Names(s), x)[n] == Mapped(Names(s), x[n]);
      assert MappedAll(Names(t), y)[n] == Mapped(Names(t), y[n]);
      SameNames(s, t, x[n], y[n]);
    }
  }

  lemma {:induction false} SameNamesFields(s: State, t: State, x: seq<ValueField>, y: seq<ValueField>)
    requires Paired(s, t) && HandlesOfFields(x) <= s.handles.Keys && HandlesOfFields(y) <= t.handles.Keys
    requires MappedFields(Names(s), x) == MappedFields(Names(t), y)
    ensures MappedFields(Pairing(s, t), x) == y
    decreases x
  {
    hide Paired, Pairing, Names, Mapped;
    if x != [] {
      var n := |x| - 1;
      assert MappedFields(Names(s), x)[..n] == MappedFields(Names(s), x[..n]);
      assert MappedFields(Names(t), y)[..n] == MappedFields(Names(t), y[..n]);
      SameNamesFields(s, t, x[..n], y[..n]);
      assert MappedFields(Names(s), x)[n] == ValueField(x[n].name, Mapped(Names(s), x[n].value));
      assert MappedFields(Names(t), y)[n] == ValueField(y[n].name, Mapped(Names(t), y[n].value));
      SameNames(s, t, x[n].value, y[n].value);
    }
  }

  lemma {:induction false} SameNamesRender(s: State, t: State, x: RenderNode, y: RenderNode)
    requires Paired(s, t) && HandlesOfRender(x) <= s.handles.Keys && HandlesOfRender(y) <= t.handles.Keys
    requires MappedRender(Names(s), x) == MappedRender(Names(t), y)
    ensures MappedRender(Pairing(s, t), x) == y
    decreases x
  {
    hide Paired, Pairing, Names;
    match x
    case Group(_, children) => SameNamesRenders(s, t, children, y.children);
    case Value(value) => SameNames(s, t, value, y.value);
    case Other(_) =>
  }

  lemma {:induction false} SameNamesRenders(s: State, t: State, x: seq<RenderNode>, y: seq<RenderNode>)
    requires Paired(s, t) && HandlesOfRenders(x) <= s.handles.Keys && HandlesOfRenders(y) <= t.handles.Keys
    requires MappedRenders(Names(s), x) == MappedRenders(Names(t), y)
    ensures MappedRenders(Pairing(s, t), x) == y
    decreases x
  {
    hide Paired, Pairing, Names, MappedRender;
    if x != [] {
      var n := |x| - 1;
      assert MappedRenders(Names(s), x)[..n] == MappedRenders(Names(s), x[..n]);
      assert MappedRenders(Names(t), y)[..n] == MappedRenders(Names(t), y[..n]);
      SameNamesRenders(s, t, x[..n], y[..n]);
      assert MappedRenders(Names(s), x)[n] == MappedRender(Names(s), x[n]);
      assert MappedRenders(Names(t), y)[n] == MappedRender(Names(t), y[n]);
      SameNamesRender(s, t, x[n], y[n]);
    }
  }

  /** Every page of the first walk is turned by the pairing into its partner in the second. */
  lemma PagesArePaired(a: Pages, b: Pages, s: State, t: State)
    requires Walked(a, s, {}) && Walked(b, t, {}) && s.pages == t.pages
    ensures Paired(s, t) && PagesMatch(Pairing(s, t), a, b)
  {
    var f := Pairing(s, t);
    forall h | h in f
      ensures HandlesOfAll(PageOf(a, h)) <= f.Keys && PageOf(b, f[h]) == MappedAll(f, PageOf(a, h))
    {
      assert Stored(a, s, h) && Stored(b, t, f[h]);
      SameNamesAll(s, t, PageOf(a, h), PageOf(b, f[h]));
    }
  }

  lemma EqualFreezeIsomorphic(p: ProductPage, a: Pages, q: ProductPage, b: Pages) returns (f: Renaming)
    requires Freeze(p, a) == Freeze(q, b)
    ensures Isomorphic(f, p, a, q, b)
  {
    var (x, s) := VisitRender(a, p.content, START);
    var (y, t) := VisitRender(b, q.content, START);
    VisitRenderWalks(a, p.content, START);
    VisitRenderWalks(b, q.content, START);
    var v, w := Freeze(p, a), Freeze(q, b);
    assert v.page.content == x && w.page.content == y && v.continuationPages == s.pages
        && w.continuationPages == t.pages;
    PagesArePaired(a, b, s, t);
    f := Pairing(s, t);
    SameNamesRender(s, t, p.content, q.content);
    assert q.id == w.page.id && q.title == w.page.title && p.id == v.page.id && p.title == v.page.title;
  }

  /** Two products freeze alike exactly when a renaming of handles turns one reachable
      page graph into the other, a missing page counting as an empty one. */
  lemma FrozenEqualIffIsomorphic(p: ProductPage, a: Pages, q: ProductPage, b: Pages)
    ensures Freeze(p, a) == Freeze(q, b) <==> exists f :: Isomorphic(f, p, a, q, b)
  {
    if Freeze(p, a) == Freeze(q, b) {
      var f := EqualFreezeIsomorphic(p, a, q, b);
    }
    if f :| Isomorphic(f, p, a, q, b) {
      IsomorphicFreezeAlike(f, p, a, q, b);
    }
  }
}
