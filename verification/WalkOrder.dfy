/** The order of the eager walk: every symbol before what it contains, siblings in canonical order. */
module WalkOrder {
  import opened Wrappers
  import opened PathSegments
  import opened SlashPaths
  import opened SymbolPaths

  /** `a` leads to an owner of what `b` leads to, or parts from `b` at an earlier child. */
  ghost predicate Before(symbols: seq<Symbol>, a: seq<string>, b: seq<string>)
    decreases |a|
  {
    && a != [] && b != []
    && exists k: nat, l: nat :: k < |Canonical(symbols)| && l < |Canonical(symbols)| && BeforeAt(symbols, k, l, a, b)
  }

  ghost predicate BeforeAt(symbols: seq<Symbol>, k: nat, l: nat, a: seq<string>, b: seq<string>)
    requires k < |Canonical(symbols)| && l < |Canonical(symbols)| && a != [] && b != []
    decreases |a|, 0
  {
    var children := Canonical(symbols);
    && children[k].segment == a[0] && children[l].segment == b[0]
    && (k < l || (k == l && ((|a| == 1 && |b| > 1) || Before(children[k].symbol.children, a[1..], b[1..]))))
  }

  /** `segments` begins with child `k` and leads to the entry. */
  ghost predicate LeadsBy(symbols: seq<Symbol>, parent: string, k: nat, segments: seq<string>, entry: Entry)
    requires k < |Canonical(symbols)|
  {
    segments != [] && segments[0] == Canonical(symbols)[k].segment
    && Leads(symbols, parent, segments, entry.path, entry.symbol)
  }

  /** What lies under child `k` is reached through it. */
  lemma BelowLeads(symbols: seq<Symbol>, parent: string, k: nat, later: seq<string>, entry: Entry)
    requires WellNamed(symbols) && k < |Canonical(symbols)|
    requires var child := Canonical(symbols)[k];
      var here := parent + "/" + child.segment;
      if later == [] then entry == Entry(here, child.symbol)
      else Leads(child.symbol.children, here, later, entry.path, entry.symbol)
    ensures LeadsBy(symbols, parent, k, [Canonical(symbols)[k].segment] + later, entry)
  {
    var children := Canonical(symbols);
    FindDistinct(children, k);
    var segments := [children[k].segment] + later;
    assert segments[1..] == later;
    assert JoinSegments(parent, segments) == JoinSegments(parent + "/" + segments[0], segments[1..]);
    assert later == [] ==> Replay(symbols, segments) == Some(children[k].symbol);
    assert later != [] ==> Replay(symbols, segments) == Replay(children[k].symbol.children, later);
  }

  lemma LeadsSomewhere(symbols: seq<Symbol>, parent: string, segments: seq<string>, entry: Entry)
    requires Leads(symbols, parent, segments, entry.path, entry.symbol)
    ensures segments != []
  {
  }

  lemma EntryLeads(symbols: seq<Symbol>, parent: string, n: nat, entry: Entry)
    returns (k: nat, segments: seq<string>)
    requires WellNamed(symbols) && n <= |Canonical(symbols)|
    requires forall j :: 0 <= j < |Canonical(symbols)| ==> IsChild(symbols, Canonical(symbols)[j])
    requires entry in WalkChildren(symbols, Canonical(symbols)[..n], parent)
    ensures k < n && LeadsBy(symbols, parent, k, segments, entry)
  {
    hide WalkChildren, Canonical;
    k := WalkSplits(symbols, Canonical(symbols)[..n], parent, entry);
    segments := ChildLeads(symbols, parent, k, entry);
  }

  lemma ChildLeads(symbols: seq<Symbol>, parent: string, k: nat, entry: Entry) returns (segments: seq<string>)
    requires WellNamed(symbols) && k < |Canonical(symbols)| && IsChild(symbols, Canonical(symbols)[k])
    requires var child := Canonical(symbols)[k];
      var here := parent + "/" + child.segment;
      entry == Entry(here, child.symbol) || entry in Walk(child.symbol.children, here)
    ensures LeadsBy(symbols, parent, k, segments, entry)
    ensures var child := Canonical(symbols)[k];
      entry in Walk(child.symbol.children, parent + "/" + child.segment) ==> |segments| > 1
  {
    var child := Canonical(symbols)[k];
    var here := parent + "/" + child.segment;
    if entry in Walk(child.symbol.children, here) {
      var later := ListedLeads(child.symbol.children, here, entry.path, entry.symbol);
      BelowLeads(symbols, parent, k, later, entry);
      segments := [child.segment] + later;
    } else {
      BelowLeads(symbols, parent, k, [], entry);
      segments := [child.segment] + [];
    }
  }

  /** Of two entries of the walk, the first comes before the second. */
  lemma {:induction false} WalkIsOrdered(symbols: seq<Symbol>, parent: string, i: nat, j: nat)
    returns (a: seq<string>, b: seq<string>)
    requires WellNamed(symbols) && i < j < |Walk(symbols, parent)|
    ensures var entries := Walk(symbols, parent);
      && Leads(symbols, parent, a, entries[i].path, entries[i].symbol)
      && Leads(symbols, parent, b, entries[j].path, entries[j].symbol)
      && Before(symbols, a, b)
    decreases symbols, 1, 0
  {
    hide WalkChildren, Canonical, WellNamed;
    ChildrenBelong(symbols);
    WalkIsOfChildren(symbols, parent);
    assert Canonical(symbols)[..|Canonical(symbols)|] == Canonical(symbols);
    a, b := ChildrenAreOrdered(symbols, parent, |Canonical(symbols)|, i, j);
  }

  lemma {:induction false} ChildrenAreOrdered(symbols: seq<Symbol>, parent: string, n: nat, i: nat, j: nat)
    returns (a: seq<string>, b: seq<string>)
    requires WellNamed(symbols) && n <= |Canonical(symbols)|
    requires forall k :: 0 <= k < |Canonical(symbols)| ==> IsChild(symbols, Canonical(symbols)[k])
    requires i < j < |WalkChildren(symbols, Canonical(symbols)[..n], parent)|
    ensures var entries := WalkChildren(symbols, Canonical(symbols)[..n], parent);
      && Leads(symbols, parent, a, entries[i].path, entries[i].symbol)
      && Leads(symbols, parent, b, entries[j].path, entries[j].symbol)
      && Before(symbols, a, b)
    decreases symbols, 0, n
  {
    hide WalkChildren, Walk, Canonical, Leads, Before;
    var children := Canonical(symbols);
    if n == 0 {
      WalkChildrenOfNone(symbols, parent);
      assert false;
    }
    var k := n - 1;
    WalkChildrenSnoc(symbols, children, k, parent);
    var front := WalkChildren(symbols, children[..k], parent);
    var here := parent + "/" + children[k].segment;
    var below := Walk(children[k].symbol.children, here);
    var entries := front + [Entry(here, children[k].symbol)] + below;
    assert entries == WalkChildren(symbols, children[..n], parent);
    if j < |front| {
      a, b := ChildrenAreOrdered(symbols, parent, k, i, j);
    } else if i < |front| {
      var l: nat;
      l, a := EntryLeads(symbols, parent, k, front[i]);
      b := ChildLeads(symbols, parent, k, entries[j]);
      PutBefore(symbols, l, k, a, b);
    } else if i == |front| {
      a := [children[k].segment] + [];
      BelowLeads(symbols, parent, k, [], entries[i]);
      b := ChildLeads(symbols, parent, k, entries[j]);
      PutBefore(symbols, k, k, a, b);
    } else {
      var m := |front| + 1;
      a, b := WalkIsOrdered(children[k].symbol.children, here, i - m, j - m);
      LeadsSomewhere(children[k].symbol.children, here, a, entries[i]);
      LeadsSomewhere(children[k].symbol.children, here, b, entries[j]);
      BelowLeads(symbols, parent, k, a, entries[i]);
      BelowLeads(symbols, parent, k, b, entries[j]);
      PutBefore(symbols, k, k, [children[k].segment] + a, [children[k].segment] + b);
      a, b := [children[k].segment] + a, [children[k].segment] + b;
    }
  }

  lemma PutBefore(symbols: seq<Symbol>, k: nat, l: nat, a: seq<string>, b: seq<string>)
    requires k < |Canonical(symbols)| && l < |Canonical(symbols)| && a != [] && b != []
    requires BeforeAt(symbols, k, l, a, b)
    ensures Before(symbols, a, b)
  {
  }

  lemma PartsAt(symbols: seq<Symbol>, a: seq<string>, b: seq<string>) returns (k: nat, l: nat)
    requires Before(symbols, a, b)
    ensures a != [] && b != [] && k < |Canonical(symbols)| && l < |Canonical(symbols)| && BeforeAt(symbols, k, l, a, b)
  {
    k, l :| k < |Canonical(symbols)| && l < |Canonical(symbols)| && BeforeAt(symbols, k, l, a, b);
  }

  /** Nothing comes before itself. */
  lemma {:induction false} NotBeforeItself(symbols: seq<Symbol>, a: seq<string>)
    requires WellNamed(symbols)
    ensures !Before(symbols, a, a)
    decreases |a|
  {
    hide Canonical;
    if Before(symbols, a, a) {
      var k, l := PartsAt(symbols, a, a);
      CanonicalNumbers(symbols);
      assert IsChild(symbols, Canonical(symbols)[k]);
      NotBeforeItself(Canonical(symbols)[k].symbol.children, a[1..]);
    }
  }

  /** No path is listed twice. */
  lemma PathsAreDistinct(symbols: seq<Symbol>, parent: string, i: nat, j: nat)
    requires WellNamed(symbols) && i < j < |Walk(symbols, parent)|
    ensures Walk(symbols, parent)[i].path != Walk(symbols, parent)[j].path
  {
    hide Walk, WellNamed, Before, Replay;
    var entries := Walk(symbols, parent);
    var a, b := WalkIsOrdered(symbols, parent, i, j);
    if entries[i].path == entries[j].path {
      JoinedOnce(symbols, parent, a, entries[i].symbol, b, entries[j].symbol);
      NotBeforeItself(symbols, a);
    }
  }

  lemma JoinedOnce(symbols: seq<Symbol>, parent: string, a: seq<string>, x: Symbol, b: seq<string>, y: Symbol)
    requires WellNamed(symbols) && Replay(symbols, a) == Some(x) && Replay(symbols, b) == Some(y)
    requires JoinSegments(parent, a) == JoinSegments(parent, b)
    ensures a == b
  {
    assert a != [] && b != [];
    hide Replay, WellNamed;
    ReplayedHaveNoSlash(symbols, a, x);
    ReplayedHaveNoSlash(symbols, b, y);
    JoinIsSlashed(parent, a);
    JoinIsSlashed(parent, b);
    assert (parent + "/" + Slashed(a))[|parent| + 1..] == Slashed(a);
    assert (parent + "/" + Slashed(b))[|parent| + 1..] == Slashed(b);
    SplitSlashed(a);
    SplitSlashed(b);
  }
}
