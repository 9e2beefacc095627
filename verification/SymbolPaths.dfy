/** The three ways paths of local symbols are made and read: the eager walk, replaying
    a path, and rebuilding a path from the chain of owners. */
module SymbolPaths {
  import opened Wrappers
  import opened PathSegments
  import opened SlashPaths

  datatype Entry = Entry(path: string, symbol: Symbol)

  lemma ChildrenBelong(symbols: seq<Symbol>)
    ensures forall k :: 0 <= k < |Canonical(symbols)| ==> IsChild(symbols, Canonical(symbols)[k])
  {
    CanonicalNumbers(symbols);
  }

  // ---------------------------------------------------------------- the eager walk

  /** Everything below `symbols`, parents before children. */
  function Walk(symbols: seq<Symbol>, parentPath: string): seq<Entry>
    decreases symbols, 1, 0
  {
    ChildrenBelong(symbols);
    WalkChildren(symbols, Canonical(symbols), parentPath)
  }

  function WalkChildren(symbols: seq<Symbol>, children: seq<Child>, parentPath: string): seq<Entry>
    requires forall k :: 0 <= k < |children| ==> IsChild(symbols, children[k])
    decreases symbols, 0, |children|
  {
    if children == [] then []
    else
      var n := |children| - 1;
      var last := children[n];
      assert IsChild(symbols, last);
      var path := parentPath + "/" + last.segment;
      WalkChildren(symbols, children[..n], parentPath) + [Entry(path, last.symbol)] + Walk(last.symbol.children, path)
  }

  lemma WalkIsOfChildren(symbols: seq<Symbol>, parentPath: string)
    requires forall k :: 0 <= k < |Canonical(symbols)| ==> IsChild(symbols, Canonical(symbols)[k])
    ensures Walk(symbols, parentPath) == WalkChildren(symbols, Canonical(symbols), parentPath)
  {
  }

  lemma WalkChildrenOfNone(symbols: seq<Symbol>, parentPath: string)
    ensures WalkChildren(symbols, [], parentPath) == []
  {
  }

  lemma WalkChildrenSnoc(symbols: seq<Symbol>, children: seq<Child>, i: nat, parentPath: string)
    requires i < |children| && forall k :: 0 <= k < |children| ==> IsChild(symbols, children[k])
    ensures var path := parentPath + "/" + children[i].segment;
      WalkChildren(symbols, children[..i + 1], parentPath) ==
      WalkChildren(symbols, children[..i], parentPath) + [Entry(path, children[i].symbol)]
        + Walk(children[i].symbol.children, path)
  {
    hide Walk;
    assert children[..i + 1][..i] == children[..i];
  }

  method WalkSymbols(symbols: seq<Symbol>, parentPath: string, output: seq<Entry>) returns (output': seq<Entry>)
    ensures output' == output + Walk(symbols, parentPath)
    decreases symbols
  {
    var children := CanonicalChildren(symbols);
    CanonicalNumbers(symbols);
    output' := output;
    hide Walk, WalkChildren, Canonical;
    WalkChildrenOfNone(symbols, parentPath);
    for i := 0 to |children|
      invariant output' == output + WalkChildren(symbols, children[..i], parentPath)
    {
      var child := children[i];
      var path := parentPath + "/" + child.segment;
      assert IsChild(symbols, child);
      WalkChildrenSnoc(symbols, children, i, parentPath);
      output' := output' + [Entry(path, child.symbol)];
      output' := WalkSymbols(child.symbol.children, path, output');
    }
    assert children[..|children|] == children;
    WalkIsOfChildren(symbols, parentPath);
  }

  // ---------------------------------------------------------------- replaying a path

  /** The first child with the segment. */
  function FindSegment(children: seq<Child>, segment: string): (found: Option<Symbol>)
    ensures found.Some? ==>
      exists k :: 0 <= k < |children| && children[k].symbol == found.value && children[k].segment == segment
  {
    if children == [] then None
    else if children[0].segment == segment then Some(children[0].symbol)
    else
      assert forall k :: 0 <= k < |children[1..]| ==> children[1..][k] == children[k + 1];
      FindSegment(children[1..], segment)
  }

  /** The symbol reached from `symbols` by a nonempty list of segments. */
  function Replay(symbols: seq<Symbol>, segments: seq<string>): Option<Symbol>
    decreases |segments|
  {
    if segments == [] then None
    else match FindSegment(Canonical(symbols), segments[0])
         case None => None
         case Some(next) => if |segments| == 1 then Some(next) else Replay(next.children, segments[1..])
  }

  /** Walks only the chain of owners named by the path. */
  function Resolve(root: Symbol, rootPath: string, path: string): Option<Symbol> {
    if rootPath + "/" <= path then Replay(root.children, Split(path[|rootPath| + 1..])) else None
  }

  method ResolveLocalSymbol(root: Symbol, rootPath: string, path: string) returns (found: Option<Symbol>)
    ensures found == Resolve(root, rootPath, path)
  {
    if !(rootPath + "/" <= path) {
      return None;
    }
    var segments := Split(path[|rootPath| + 1..]);
    var children := root.children;
    found := None;
    for i := 0 to |segments|
      invariant i < |segments| ==> Replay(children, segments[i..]) == Resolve(root, rootPath, path)
      invariant i == |segments| ==> found == Resolve(root, rootPath, path)
    {
      assert segments[i..][1..] == segments[i + 1..];
      var canonical := CanonicalChildren(children);
      var next := FindSegment(canonical, segments[i]);
      if next.None? {
        return None;
      }
      found := next;
      children := next.value.children;
    }
  }

  // ---------------------------------------------------------------- the walk lists exactly what replays

  /** At every level, siblings have distinct segments without slashes. */
  ghost predicate WellNamed(symbols: seq<Symbol>)
    decreases symbols
  {
    && SegmentsDistinct(Canonical(symbols))
    && (forall k :: 0 <= k < |Canonical(symbols)| ==> '/' !in Canonical(symbols)[k].segment)
    && forall i :: 0 <= i < |symbols| && !symbols[i].external ==> WellNamed(symbols[i].children)
  }

  ghost predicate ReallyNamed(symbols: seq<Symbol>)
    decreases symbols
  {
    forall i :: 0 <= i < |symbols| && !symbols[i].external ==>
      RealBase(symbols[i].base) && ReallyNamed(symbols[i].children)
  }

  /** The bases symbols really have make a well-named tree. */
  lemma {:induction false} RealNamesAreGood(symbols: seq<Symbol>)
    requires ReallyNamed(symbols)
    ensures WellNamed(symbols)
    decreases symbols
  {
    hide RealBase, SegmentOf;
    RealSegmentsDistinct(symbols);
    CanonicalNumbers(symbols);
    forall k | 0 <= k < |Canonical(symbols)|
      ensures '/' !in Canonical(symbols)[k].segment
    {
      var child := Canonical(symbols)[k];
      assert IsChild(symbols, child);
      RealBaseHasNoSlash(child.symbol.base);
      SegmentHasNoSlash(child.symbol.base, child.occurrence);
    }
    forall i | 0 <= i < |symbols| && !symbols[i].external
      ensures WellNamed(symbols[i].children)
    {
      RealNamesAreGood(symbols[i].children);
    }
  }

  lemma SegmentHasNoSlash(base: string, n: nat)
    requires '/' !in base
    ensures '/' !in SegmentOf(base, n)
  {
    Decimals.DecimalDigits(n);
  }

  function JoinSegments(parent: string, segments: seq<string>): string
    decreases |segments|
  {
    if segments == [] then parent else JoinSegments(parent + "/" + segments[0], segments[1..])
  }

  lemma {:induction false} FindDistinct(children: seq<Child>, k: nat)
    requires SegmentsDistinct(children) && k < |children|
    ensures FindSegment(children, children[k].segment) == Some(children[k].symbol)
  {
    if k > 0 {
      assert children[0].segment != children[k].segment;
      assert forall j :: 0 <= j < |children[1..]| ==> children[1..][j] == children[j + 1];
      FindDistinct(children[1..], k - 1);
    }
  }

  /** A list of segments that replays to `symbol` and makes `path`. */
  ghost predicate Leads(symbols: seq<Symbol>, parent: string, segments: seq<string>, path: string, symbol: Symbol) {
    Replay(symbols, segments) == Some(symbol) && path == JoinSegments(parent, segments)
  }

  /** Every entry comes from one of the children: it is the child or lies below it. */
  lemma {:induction false} WalkSplits(symbols: seq<Symbol>, children: seq<Child>, parent: string,
                                      entry: Entry) returns (k: nat)
    requires forall j :: 0 <= j < |children| ==> IsChild(symbols, children[j])
    requires entry in WalkChildren(symbols, children, parent)
    ensures k < |children|
    ensures var here := parent + "/" + children[k].segment;
      entry == Entry(here, children[k].symbol) || entry in Walk(children[k].symbol.children, here)
    decreases |children|
  {
    var n := |children| - 1;
    if entry in WalkChildren(symbols, children[..n], parent) {
      k := WalkSplits(symbols, children[..n], parent, entry);
    } else {
      k := n;
    }
  }

  lemma {:induction false} ListedLeads(symbols: seq<Symbol>, parent: string, path: string,
                                       symbol: Symbol) returns (segments: seq<string>)
    requires WellNamed(symbols) && Entry(path, symbol) in Walk(symbols, parent)
    ensures Leads(symbols, parent, segments, path, symbol)
    decreases symbols
  {
    ChildrenBelong(symbols);
    var children := Canonical(symbols);
    var k := WalkSplits(symbols, children, parent, Entry(path, symbol));
    var here := parent + "/" + children[k].segment;
    FindDistinct(children, k);
    assert IsChild(symbols, children[k]);
    if Entry(path, symbol) == Entry(here, children[k].symbol) {
      segments := [children[k].segment];
    } else {
      var later := ListedLeads(children[k].symbol.children, here, path, symbol);
      segments := [children[k].segment] + later;
      assert segments[1..] == later;
    }
  }

  lemma ReplayUnfolds(symbols: seq<Symbol>, segments: seq<string>, symbol: Symbol) returns (k: nat)
    requires Replay(symbols, segments) == Some(symbol)
    ensures segments != [] && k < |Canonical(symbols)| && Canonical(symbols)[k].segment == segments[0]
    ensures FindSegment(Canonical(symbols), segments[0]) == Some(Canonical(symbols)[k].symbol)
    ensures if |segments| == 1 then symbol == Canonical(symbols)[k].symbol
            else Replay(Canonical(symbols)[k].symbol.children, segments[1..]) == Some(symbol)
  {
    var next := FindSegment(Canonical(symbols), segments[0]).value;
    k :| 0 <= k < |Canonical(symbols)| && Canonical(symbols)[k].symbol == next
      && Canonical(symbols)[k].segment == segments[0];
  }

  lemma {:induction false} LeadsListed(symbols: seq<Symbol>, parent: string, segments: seq<string>, symbol: Symbol)
    requires Replay(symbols, segments) == Some(symbol)
    ensures Entry(JoinSegments(parent, segments), symbol) in Walk(symbols, parent)
    decreases |segments|
  {
    hide Replay, FindSegment, Canonical, WalkChildren;
    CanonicalNumbers(symbols);
    var k := ReplayUnfolds(symbols, segments, symbol);
    var next := Canonical(symbols)[k].symbol;
    var here := parent + "/" + segments[0];
    var entry := Entry(JoinSegments(parent, segments), symbol);
    if |segments| > 1 {
      LeadsListed(next.children, here, segments[1..], symbol);
    } else {
      assert segments[1..] == [];
    }
    assert JoinSegments(parent, segments) == JoinSegments(here, segments[1..]);
    WalkHolds(symbols, Canonical(symbols), parent, k, entry);
  }

  lemma {:induction false} WalkHolds(symbols: seq<Symbol>, children: seq<Child>, parent: string, k: nat, entry: Entry)
    requires k < |children| && forall j :: 0 <= j < |children| ==> IsChild(symbols, children[j])
    requires var here := parent + "/" + children[k].segment;
      entry == Entry(here, children[k].symbol) || entry in Walk(children[k].symbol.children, here)
    ensures entry in WalkChildren(symbols, children, parent)
    decreases |children|
  {
    if k < |children| - 1 {
      WalkHolds(symbols, children[..|children| - 1], parent, k, entry);
    }
  }

  // ---------------------------------------------------------------- paths as text

  lemma {:induction false} JoinIsSlashed(parent: string, segments: seq<string>)
    requires segments != []
    ensures JoinSegments(parent, segments) == parent + "/" + Slashed(segments)
    decreases |segments|
  {
    if |segments| > 1 {
      JoinIsSlashed(parent + "/" + segments[0], segments[1..]);
    } else {
      assert segments[1..] == [];
    }
  }

  lemma {:induction false} ReplayedHaveNoSlash(symbols: seq<Symbol>, segments: seq<string>, symbol: Symbol)
    requires WellNamed(symbols) && Replay(symbols, segments) == Some(symbol)
    ensures forall i :: 0 <= i < |segments| ==> '/' !in segments[i]
    decreases |segments|
  {
    hide Replay, FindSegment, Canonical;
    var k := ReplayUnfolds(symbols, segments, symbol);
    CanonicalNumbers(symbols);
    assert IsChild(symbols, Canonical(symbols)[k]);
    if |segments| > 1 {
      ReplayedHaveNoSlash(Canonical(symbols)[k].symbol.children, segments[1..], symbol);
      assert forall i :: 1 <= i < |segments| ==> segments[i] == segments[1..][i - 1];
    }
  }

  /** The walk lists a symbol under a path exactly when the path replays to that symbol. */
  lemma WalkIffResolves(root: Symbol, rootPath: string, path: string, symbol: Symbol)
    requires WellNamed(root.children)
    ensures Entry(path, symbol) in Walk(root.children, rootPath) <==> Resolve(root, rootPath, path) == Some(symbol)
  {
    hide WellNamed, Walk, Split;
    if Entry(path, symbol) in Walk(root.children, rootPath) {
      var segments := ListedLeads(root.children, rootPath, path, symbol);
      ReplayedHaveNoSlash(root.children, segments, symbol);
      JoinIsSlashed(rootPath, segments);
      SplitSlashed(segments);
      assert path[..|rootPath| + 1] == rootPath + "/" && path[|rootPath| + 1..] == Slashed(segments);
    }
    if Resolve(root, rootPath, path) == Some(symbol) {
      var rest := path[|rootPath| + 1..];
      SlashedSplit(rest);
      JoinIsSlashed(rootPath, Split(rest));
      assert path == rootPath + "/" + rest;
      LeadsListed(root.children, rootPath, Split(rest), symbol);
    }
  }

  // ---------------------------------------------------------------- rebuilding a path from owners

  /** The segment of the first child that is `symbol`. */
  function FindChild(children: seq<Child>, symbol: Symbol): Option<string> {
    if children == [] then None
    else if children[0].symbol == symbol then Some(children[0].segment)
    else FindChild(children[1..], symbol)
  }

  /** The symbols from below `root` down to `symbol`, found through at most `limit` owners. */
  function Descent(owner: Symbol -> Option<Symbol>, root: Symbol, symbol: Symbol, limit: nat): Option<seq<Symbol>>
    decreases limit
  {
    if symbol == root then Some([])
    else if limit == 0 || owner(symbol).None? then None
    else match Descent(owner, root, owner(symbol).value, limit - 1)
         case Some(above) => Some(above + [symbol])
         case None => None
  }

  function PathAlong(parent: Symbol, path: string, chain: seq<Symbol>): Option<string>
    decreases |chain|
  {
    if chain == [] then Some(path)
    else match FindChild(Canonical(parent.children), chain[0])
         case Some(segment) => PathAlong(chain[0], path + "/" + segment, chain[1..])
         case None => None
  }

  const OWNER_LIMIT: nat := 256

  function Reference(owner: Symbol -> Option<Symbol>, root: Symbol, rootPath: string, target: Symbol): Option<string> {
    match Descent(owner, root, target, OWNER_LIMIT - 1)
    case Some(chain) => PathAlong(root, rootPath, chain)
    case None => None
  }

  function Reversed(chain: seq<Symbol>): seq<Symbol> {
    if chain == [] then [] else Reversed(chain[1..]) + [chain[0]]
  }

  /** The whole descent, given the part `below` already found in reverse. */
  function Remaining(owner: Symbol -> Option<Symbol>, root: Symbol, current: Symbol, limit: nat,
                     below: seq<Symbol>): Option<seq<Symbol>> {
    match Descent(owner, root, current, limit)
    case Some(above) => Some(above + Reversed(below))
    case None => None
  }

  lemma RemainingStep(owner: Symbol -> Option<Symbol>, root: Symbol, current: Symbol, limit: nat, below: seq<Symbol>)
    ensures Remaining(owner, root, current, limit, below) ==
      if current == root then Some(Reversed(below))
      else if limit == 0 || owner(current).None? then None
      else Remaining(owner, root, owner(current).value, limit - 1, below + [current])
    ensures below == [] ==> Remaining(owner, root, current, limit, below) == Descent(owner, root, current, limit)
  {
    hide Reversed;
    var descent := Descent(owner, root, current, limit);
    ReversedSnoc(below, current);
    assert [] + Reversed(below) == Reversed(below);
    if descent.Some? && current != root {
      var above := Descent(owner, root, owner(current).value, limit - 1).value;
      assert (above + [current]) + Reversed(below) == above + ([current] + Reversed(below));
    }
    assert Reversed([]) == [] by {
      NothingReversed();
    }
    if descent.Some? {
      assert descent.value + [] == descent.value;
    }
  }

  lemma NothingReversed()
    ensures Reversed([]) == []
  {
  }

  method FindLocalReference(owner: Symbol -> Option<Symbol>, root: Symbol, rootPath: string,
                            target: Symbol) returns (found: Option<string>)
    ensures found == Reference(owner, root, rootPath, target)
  {
    hide Descent, Reversed, Remaining, FindChild;
    RemainingStep(owner, root, target, OWNER_LIMIT - 1, []);
    if target == root {
      NothingReversed();
      return Some(rootPath);
    }
    var chain := [target];
    var current := target;
    assert chain[..0] == [];
    while current != root
      invariant 1 <= |chain| <= OWNER_LIMIT && chain[|chain| - 1] == current
      invariant Descent(owner, root, target, OWNER_LIMIT - 1) ==
        Remaining(owner, root, current, OWNER_LIMIT - |chain|, chain[..|chain| - 1])
      decreases OWNER_LIMIT - |chain|
    {
      RemainingStep(owner, root, current, OWNER_LIMIT - |chain|, chain[..|chain| - 1]);
      var next := owner(current);
      if next.None? {
        return None;
      }
      assert chain[..|chain| - 1] + [current] == chain;
      current := next.value;
      chain := chain + [current];
      if |chain| > OWNER_LIMIT {
        return None;
      }
      assert chain[..|chain| - 1] + [current] == chain;
    }
    RemainingStep(owner, root, current, OWNER_LIMIT - |chain|, chain[..|chain| - 1]);
    var ordered := Reversed(chain[..|chain| - 1]);
    var path, parent := rootPath, root;
    assert ordered[0..] == ordered;
    for i := 0 to |ordered|
      invariant PathAlong(parent, path, ordered[i..]) == Reference(owner, root, rootPath, target)
    {
      assert ordered[i..][1..] == ordered[i + 1..];
      var children := CanonicalChildren(parent.children);
      var segment := FindChild(children, ordered[i]);
      if segment.None? {
        return None;
      }
      path := path + "/" + segment.value;
      parent := ordered[i];
    }
    found := Some(path);
  }

  lemma {:induction false} ReversedSnoc(chain: seq<Symbol>, last: Symbol)
    ensures Reversed(chain + [last]) == [last] + Reversed(chain)
  {
    if chain == [] {
      assert [] + [last] == [last] && [last][1..] == [];
    } else {
      ReversedSnoc(chain[1..], last);
      assert (chain + [last])[1..] == chain[1..] + [last];
    }
  }

  // ---------------------------------------------------------------- owners rebuild the walk's paths

  /** Every local child names its owner, and siblings are different symbols. */
  ghost predicate Owned(owner: Symbol -> Option<Symbol>, parent: Symbol)
    decreases parent
  {
    && (forall i, j :: 0 <= i < j < |Canonical(parent.children)| ==>
          Canonical(parent.children)[i].symbol != Canonical(parent.children)[j].symbol)
    && forall i :: 0 <= i < |parent.children| && !parent.children[i].external ==>
         owner(parent.children[i]) == Some(parent) && Owned(owner, parent.children[i])
  }

  function Weight(symbol: Symbol): nat
    decreases symbol
  {
    1 + WeightAll(symbol.children)
  }

  function WeightAll(symbols: seq<Symbol>): nat
    decreases symbols
  {
    if symbols == [] then 0 else WeightAll(symbols[..|symbols| - 1]) + Weight(symbols[|symbols| - 1])
  }

  lemma {:induction false} ChildrenAreLighter(symbols: seq<Symbol>, i: nat)
    requires i < |symbols|
    ensures Weight(symbols[i]) <= WeightAll(symbols)
  {
    if i < |symbols| - 1 {
      ChildrenAreLighter(symbols[..|symbols| - 1], i);
    }
  }

  /** The symbols a replay passes through. */
  ghost function Passed(symbols: seq<Symbol>, segments: seq<string>): seq<Symbol>
    decreases |segments|
  {
    if segments == [] then []
    else match FindSegment(Canonical(symbols), segments[0])
         case None => []
         case Some(next) => [next] + Passed(next.children, segments[1..])
  }

  lemma {:induction false} FindChildDistinct(children: seq<Child>, k: nat)
    requires k < |children| && forall i, j :: 0 <= i < j < |children| ==> children[i].symbol != children[j].symbol
    ensures FindChild(children, children[k].symbol) == Some(children[k].segment)
  {
    if k > 0 {
      assert children[0].symbol != children[k].symbol;
      assert forall j :: 0 <= j < |children[1..]| ==> children[1..][j] == children[j + 1];
      FindChildDistinct(children[1..], k - 1);
    }
  }

  /** One replayed step: the child, its place among its siblings, and its owner. */
  lemma StepDown(owner: Symbol -> Option<Symbol>, parent: Symbol, segments: seq<string>,
                 symbol: Symbol) returns (next: Symbol)
    requires Owned(owner, parent) && Replay(parent.children, segments) == Some(symbol)
    ensures segments != [] && Passed(parent.children, segments) == [next] + Passed(next.children, segments[1..])
    ensures owner(next) == Some(parent) && Owned(owner, next) && Weight(next) < Weight(parent)
    ensures FindChild(Canonical(parent.children), next) == Some(segments[0])
    ensures if |segments| == 1 then symbol == next else Replay(next.children, segments[1..]) == Some(symbol)
  {
    hide Replay, Canonical, FindSegment, FindChild;
    var children := Canonical(parent.children);
    var k := ReplayUnfolds(parent.children, segments, symbol);
    next := children[k].symbol;
    CanonicalNumbers(parent.children);
    assert IsChild(parent.children, children[k]);
    var i :| 0 <= i < |parent.children| && parent.children[i] == next;
    ChildrenAreLighter(parent.children, i);
    FindChildDistinct(children, k);
  }

  lemma {:induction false} PathAlongPassed(owner: Symbol -> Option<Symbol>, parent: Symbol, path: string,
                                           segments: seq<string>, symbol: Symbol)
    requires Owned(owner, parent) && Replay(parent.children, segments) == Some(symbol)
    ensures PathAlong(parent, path, Passed(parent.children, segments)) == Some(JoinSegments(path, segments))
    ensures |Passed(parent.children, segments)| == |segments|
    decreases |segments|
  {
    hide Owned, Replay, Passed, FindChild, Canonical;
    var next := StepDown(owner, parent, segments, symbol);
    var chain := Passed(parent.children, segments);
    assert chain[1..] == Passed(next.children, segments[1..]);
    if |segments| > 1 {
      PathAlongPassed(owner, next, path + "/" + segments[0], segments[1..], symbol);
    } else {
      assert segments[1..] == [] && Passed(next.children, []) == [] by {
        NothingPassed(next.children);
      }
    }
  }

  lemma NothingPassed(symbols: seq<Symbol>)
    ensures Passed(symbols, []) == []
  {
  }

  /** The owner chain of `symbol` is `chain`, and nothing shorter than it is found. */
  ghost predicate ChainIs(owner: Symbol -> Option<Symbol>, root: Symbol, symbol: Symbol, chain: seq<Symbol>) {
    forall limit: nat :: Descent(owner, root, symbol, limit) == if |chain| <= limit then Some(chain) else None
  }

  lemma ChainStep(owner: Symbol -> Option<Symbol>, root: Symbol, parent: Symbol, above: seq<Symbol>, next: Symbol)
    requires ChainIs(owner, root, parent, above) && owner(next) == Some(parent) && next != root
    ensures ChainIs(owner, root, next, above + [next])
  {
    forall limit: nat
      ensures Descent(owner, root, next, limit) == if |above + [next]| <= limit then Some(above + [next]) else None
    {
      if limit > 0 {
        assert Descent(owner, root, parent, limit - 1) == if |above| <= limit - 1 then Some(above) else None;
      }
    }
  }

  lemma {:induction false} ChainPassed(owner: Symbol -> Option<Symbol>, root: Symbol, parent: Symbol,
                                       above: seq<Symbol>,
                                       segments: seq<string>, symbol: Symbol)
    requires Owned(owner, parent) && Replay(parent.children, segments) == Some(symbol)
    requires Weight(parent) <= Weight(root) && ChainIs(owner, root, parent, above)
    ensures ChainIs(owner, root, symbol, above + Passed(parent.children, segments))
    decreases |segments|
  {
    hide Owned, Replay, Passed, Weight;
    var next := StepDown(owner, parent, segments, symbol);
    assert next != root;
    ChainStep(owner, root, parent, above, next);
    assert (above + [next]) + Passed(next.children, segments[1..]) == above + Passed(parent.children, segments);
    if |segments| > 1 {
      ChainPassed(owner, root, next, above + [next], segments[1..], symbol);
    } else {
      assert segments[1..] == [];
      NothingPassed(next.children);
      assert (above + [next]) + [] == above + [next];
    }
  }

  /** How many segments a path has below the root. */
  function Depth(rootPath: string, path: string): nat {
    if |rootPath| < |path| then |Split(path[|rootPath| + 1..])| else 0
  }

  /** Rebuilding a path from the owners of a listed symbol gives the path it is listed
      under, and nothing exactly when the symbol lies deeper than the owner limit allows. */
  lemma ReferenceMatchesWalk(owner: Symbol -> Option<Symbol>, root: Symbol, rootPath: string, path: string,
                             symbol: Symbol)
    requires WellNamed(root.children) && Owned(owner, root) && Entry(path, symbol) in Walk(root.children, rootPath)
    ensures Reference(owner, root, rootPath, symbol) == if Depth(rootPath, path) < OWNER_LIMIT then Some(path) else None
  {
    hide WellNamed, Walk, Split, Owned, PathAlong, Descent, Passed;
    var segments := ListedLeads(root.children, rootPath, path, symbol);
    ReplayedHaveNoSlash(root.children, segments, symbol);
    JoinIsSlashed(rootPath, segments);
    SplitSlashed(segments);
    assert path[|rootPath| + 1..] == Slashed(segments);
    PathAlongPassed(owner, root, rootPath, segments, symbol);
    assert ChainIs(owner, root, root, []) by {
      RootChain(owner, root);
    }
    ChainPassed(owner, root, root, [], segments, symbol);
    assert [] + Passed(root.children, segments) == Passed(root.children, segments);
  }

  lemma RootChain(owner: Symbol -> Option<Symbol>, root: Symbol)
    ensures ChainIs(owner, root, root, [])
  {
  }

  // ---------------------------------------------------------------- a listed symbol without a rebuilt path

  const NESTED_BASE := "type-module-m"

  /** A module with `n` modules nested below it, one in the other. */
  function Nest(n: nat): Symbol {
    Symbol(n, false, NESTED_BASE, if n == 0 then [] else [Nest(n - 1)])
  }

  function NestOwner(symbol: Symbol): Option<Symbol> {
    Some(Nest(symbol.id + 1))
  }

  function NestSegments(n: nat): (segments: seq<string>)
    ensures |segments| == n
  {
    if n == 0 then [] else [NESTED_BASE] + NestSegments(n - 1)
  }

  lemma OnlyChild(symbol: Symbol)
    requires !symbol.external
    ensures Canonical([symbol]) == [Child(symbol, 0, symbol.base)]
  {
    assert [symbol][..0] == [];
  }

  lemma NestedBaseIsReal()
    ensures RealBase(NESTED_BASE)
  {
    var name: seq<Byte> := ['m' as int];
    assert name[1..] == [];
    assert PercentEncode(name) == "m";
    assert PREFIXES[10] + "-" + PercentEncode(name) == NESTED_BASE;
  }

  lemma {:induction false} NestIsOrderly(n: nat)
    ensures ReallyNamed([Nest(n)]) && Owned(NestOwner, Nest(n))
  {
    hide RealBase, Canonical;
    NestedBaseIsReal();
    if n > 0 {
      NestIsOrderly(n - 1);
      OnlyChild(Nest(n - 1));
    } else {
      assert Canonical([]) == [] by {
        NoChildren();
      }
    }
  }

  lemma NoChildren()
    ensures Canonical([]) == []
  {
  }

  lemma {:induction false} NestReplays(n: nat)
    requires n > 0
    ensures Replay(Nest(n).children, NestSegments(n)) == Some(Nest(0))
  {
    hide Canonical;
    OnlyChild(Nest(n - 1));
    assert NestSegments(n)[1..] == NestSegments(n - 1);
    assert FindSegment(Canonical(Nest(n).children), NESTED_BASE) == Some(Nest(n - 1));
    if n > 1 {
      NestReplays(n - 1);
    }
  }

  lemma {:induction false} NestIsTooDeep(top: nat, k: nat, limit: nat)
    requires k <= top && limit < top - k
    ensures Descent(NestOwner, Nest(top), Nest(k), limit) == None
    decreases limit
  {
    assert Nest(k).id != Nest(top).id;
    if limit > 0 {
      NestIsTooDeep(top, k + 1, limit - 1);
    }
  }

  /** The innermost of `OWNER_LIMIT` nested modules is listed and replays, and has no rebuilt path. */
  lemma DeepSymbolHasNoReference(rootPath: string)
    ensures var root := Nest(OWNER_LIMIT);
      && Owned(NestOwner, root) && WellNamed(root.children)
      && Entry(JoinSegments(rootPath, NestSegments(OWNER_LIMIT)), Nest(0)) in Walk(root.children, rootPath)
      && Reference(NestOwner, root, rootPath, Nest(0)) == None
  {
    hide Owned, ReallyNamed, WellNamed, Walk, Replay, JoinSegments, NestSegments, Descent;
    NestIsOrderly(OWNER_LIMIT);
    NestIsOrderly(OWNER_LIMIT - 1);
    assert Nest(OWNER_LIMIT).children == [Nest(OWNER_LIMIT - 1)];
    RealNamesAreGood([Nest(OWNER_LIMIT - 1)]);
    NestReplays(OWNER_LIMIT);
    LeadsListed(Nest(OWNER_LIMIT).children, rootPath, NestSegments(OWNER_LIMIT), Nest(0));
    NestIsTooDeep(OWNER_LIMIT, 0, OWNER_LIMIT - 1);
  }
}
