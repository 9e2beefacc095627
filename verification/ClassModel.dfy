/** The resolved architectural model: classes, single inheritance and virtual
    dispatch. Names such as `compiler::types::Ty::fold` are kept as the sequence
    of their `::`-separated segments; identifiers never contain a colon, so
    joining and splitting them is lossless. */
module ClassModel {
  import opened Wrappers

  type Key = seq<string>

  datatype Span = Span(start: nat, end: nat)

  /** `root` is `crate`, `self` or an external crate written `$name`. */
  datatype Path = Path(root: string, segments: seq<string>, span: Span)

  datatype Effect =
    | Invokes(path: Path)
    | ForbidTransitive(path: Path)
    | Reads(path: Path)
    | Creates(name: string, context: Path)

  datatype MethodKind = Function | Query

  /** `envelope.None?` is an abstract declaration, `Some([])` a leaf computation. */
  datatype Method = Method(name: string, kind: MethodKind, isOverride: bool, envelope: Option<seq<Effect>>)

  datatype ClassKind = Class | Abstract | Context

  datatype ClassDecl = ClassDecl(kind: ClassKind, base: Option<Path>, methods: seq<Method>)

  datatype Entry = Entry(file: string, namespace: Key, decl: ClassDecl)

  datatype Model = Model(classes: map<Key, Entry>, dependencies: map<string, set<string>>)

  datatype ResolveError =
    | UndeclaredDependency(crate: string)
    | SelfNotAllowed
    | NotAMethodPath
    | UnknownClass(class_: Key)
    | UnknownMethod(class_: Key, name: string)

  // ---------------------------------------------------------------- paths

  function Owner(namespace: Key): string {
    if namespace == [] then "" else namespace[0]
  }

  function ResolvePath(m: Model, namespace: Key, path: Path): Result<Key, ResolveError> {
    var owner := Owner(namespace);
    if path.root == "crate" then
      Ok([owner] + path.segments)
    else if path.root != [] && path.root[0] == '$' then
      var external := path.root[1..];
      if external != owner && !(owner in m.dependencies && external in m.dependencies[owner]) then
        Err(UndeclaredDependency(external))
      else
        Ok([external] + path.segments)
    else
      Err(SelfNotAllowed)
  }

  /** A class without a base, an unknown class and an unresolvable base all end the chain. */
  function Base(m: Model, key: Key): Option<Key> {
    if key in m.classes && m.classes[key].decl.base.Some? then
      match ResolvePath(m, m.classes[key].namespace, m.classes[key].decl.base.value)
      case Ok(target) => Some(target)
      case Err(_) => None
    else
      None
  }

  // ---------------------------------------------------------------- inheritance chains

  ghost function Unvisited(m: Model, seen: seq<Key>): set<Key> {
    m.classes.Keys - (set k | k in seen)
  }

  /** The walk of the base chain with the classes already visited in `seen`. */
  ghost function AncestorsFrom(m: Model, key: Key, seen: seq<Key>): seq<Key>
    decreases |Unvisited(m, seen)|
  {
    if key in seen then seen
    else match Base(m, key)
      case None => seen + [key]
      case Some(base) =>
        assert Unvisited(m, seen + [key]) == Unvisited(m, seen) - {key};
        AncestorsFrom(m, base, seen + [key])
  }

  /** `key` itself first, then its bases, stopping at the first repetition. */
  ghost function Ancestors(m: Model, key: Key): seq<Key> {
    AncestorsFrom(m, key, [])
  }

  method ComputeAncestors(m: Model, key: Key) returns (ancestors: seq<Key>)
    ensures ancestors == Ancestors(m, key)
  {
    ancestors := [];
    var next := Some(key);
    while next.Some?
      invariant next.Some? ==> AncestorsFrom(m, next.value, ancestors) == Ancestors(m, key)
      invariant next.None? ==> ancestors == Ancestors(m, key)
      decreases if next.Some? then 1 else 0, |Unvisited(m, ancestors)|,
                if next.Some? && next.value in m.classes then 1 else 0
    {
      var current := next.value;
      if current in ancestors {
        break;
      }
      next := Base(m, current);
      assert current in m.classes ==> Unvisited(m, ancestors + [current]) == Unvisited(m, ancestors) - {current};
      ancestors := ancestors + [current];
    }
  }

  /** The reference meaning of the base relation: `n` steps up, without any visited set. */
  ghost function BaseN(m: Model, key: Key, n: nat): Option<Key>
    decreases n
  {
    if n == 0 then Some(key)
    else match Base(m, key)
      case None => None
      case Some(base) => BaseN(m, base, n - 1)
  }

  ghost predicate Inherits(m: Model, key: Key, ancestor: Key) {
    exists n: nat :: BaseN(m, key, n) == Some(ancestor)
  }

  lemma {:induction false} BaseNComposes(m: Model, key: Key, i: nat, j: nat)
    requires BaseN(m, key, i).Some?
    ensures BaseN(m, key, i + j) == BaseN(m, BaseN(m, key, i).value, j)
    decreases i
  {
    if i > 0 {
      BaseNComposes(m, Base(m, key).value, i - 1, j);
    }
  }

  ghost predicate IsChain(m: Model, chain: seq<Key>) {
    && (forall i, j :: 0 <= i < j < |chain| ==> chain[i] != chain[j])
    && (forall i :: 0 < i < |chain| ==> BaseStep(m, chain, i))
  }

  ghost predicate BaseStep(m: Model, chain: seq<Key>, i: nat) {
    0 < i < |chain| && Base(m, chain[i - 1]) == Some(chain[i])
  }

  ghost predicate ClosedUpward(m: Model, chain: seq<Key>) {
    chain != [] && (Base(m, chain[|chain| - 1]).Some? ==> Base(m, chain[|chain| - 1]).value in chain)
  }

  lemma ChainGrows(m: Model, chain: seq<Key>, key: Key)
    requires IsChain(m, chain) && key !in chain
    requires chain != [] ==> Base(m, chain[|chain| - 1]) == Some(key)
    ensures IsChain(m, chain + [key])
  {
    var grown := chain + [key];
    forall i | 0 < i < |grown|
      ensures BaseStep(m, grown, i)
    {
      assert i < |chain| ==> BaseStep(m, chain, i);
    }
  }

  /** The walk returns the whole chain, in order and without repetition, and it is
      closed: the base of its last element is absent or already listed. */
  lemma {:induction false} AncestorsFromChain(m: Model, key: Key, seen: seq<Key>)
    requires IsChain(m, seen)
    requires seen != [] ==> Base(m, seen[|seen| - 1]) == Some(key)
    ensures var a := AncestorsFrom(m, key, seen);
      IsChain(m, a) && ClosedUpward(m, a) && seen <= a && (seen == [] ==> a[0] == key)
    decreases |Unvisited(m, seen)|
  {
    if key !in seen {
      ChainGrows(m, seen, key);
      match Base(m, key)
      case None =>
      case Some(base) =>
        assert Unvisited(m, seen + [key]) == Unvisited(m, seen) - {key};
        AncestorsFromChain(m, base, seen + [key]);
    }
  }

  lemma {:induction false} ChainIsBaseN(m: Model, chain: seq<Key>, i: nat)
    requires IsChain(m, chain) && i < |chain|
    ensures BaseN(m, chain[0], i) == Some(chain[i])
    decreases i
  {
    if i > 0 {
      ChainIsBaseN(m, chain, i - 1);
      BaseNComposes(m, chain[0], i - 1, 1);
      var k := chain[i - 1];
      assert BaseN(m, k, 1) == match Base(m, k) case None => None case Some(b) => BaseN(m, b, 0);
      assert BaseStep(m, chain, i);
    }
  }

  lemma ClosedChainStep(m: Model, chain: seq<Key>, key: Key)
    requires IsChain(m, chain) && ClosedUpward(m, chain) && key in chain && Base(m, key).Some?
    ensures Base(m, key).value in chain
  {
    var i :| 0 <= i < |chain| && chain[i] == key;
    if i + 1 < |chain| {
      assert BaseStep(m, chain, i + 1);
    }
  }

  lemma {:induction false} BaseNStaysInChain(m: Model, chain: seq<Key>, key: Key, n: nat, top: Key)
    requires IsChain(m, chain) && ClosedUpward(m, chain) && key in chain
    requires BaseN(m, key, n) == Some(top)
    ensures top in chain
    decreases n
  {
    if n > 0 {
      ClosedChainStep(m, chain, key);
      BaseNStaysInChain(m, chain, Base(m, key).value, n - 1, top);
    }
  }

  /** The bounded walk computes exactly the unbounded relation, cyclic or not. */
  lemma AncestorsAreInherited(m: Model, key: Key, ancestor: Key)
    ensures ancestor in Ancestors(m, key) <==> Inherits(m, key, ancestor)
  {
    AncestorsFromChain(m, key, []);
    var a := Ancestors(m, key);
    if ancestor in a {
      var i :| 0 <= i < |a| && a[i] == ancestor;
      ChainIsBaseN(m, a, i);
    }
    if Inherits(m, key, ancestor) {
      var n: nat :| BaseN(m, key, n) == Some(ancestor);
      BaseNStaysInChain(m, a, key, n, ancestor);
    }
  }

  lemma AncestorsTransitive(m: Model, a: Key, b: Key, c: Key)
    requires b in Ancestors(m, a) && c in Ancestors(m, b)
    ensures c in Ancestors(m, a)
  {
    AncestorsAreInherited(m, a, b);
    AncestorsAreInherited(m, b, c);
    AncestorsAreInherited(m, a, c);
    var i: nat :| BaseN(m, a, i) == Some(b);
    var j: nat :| BaseN(m, b, j) == Some(c);
    BaseNComposes(m, a, i, j);
  }

  lemma OwnAncestor(m: Model, key: Key)
    ensures Ancestors(m, key) != [] && Ancestors(m, key)[0] == key
  {
    AncestorsFromChain(m, key, []);
  }

  /** A resolved path names a class or method of the own crate, or of a declared dependency. */
  lemma ResolvedPathIs(m: Model, namespace: Key, path: Path, key: Key)
    ensures ResolvePath(m, namespace, path) == Ok(key) <==> NamesKey(m, namespace, path, key)
    ensures forall crate :: ResolvePath(m, namespace, path) == Err(UndeclaredDependency(crate)) <==>
      path.root == "$" + crate && !Visible(m, Owner(namespace), crate)
    ensures ResolvePath(m, namespace, path) == Err(SelfNotAllowed) <==>
      path.root != "crate" && !("$" <= path.root)
  {
    if "$" <= path.root {
      assert path.root == "$" + path.root[1..];
    }
    assert forall crate :: path.root == "$" + crate ==> path.root[1..] == crate;
    if key != [] {
      assert key == [key[0]] + key[1..];
    }
  }

  /** Paths may lead into `crate` from the crate `owner`. */
  ghost predicate Visible(m: Model, owner: string, crate: string) {
    crate == owner || (owner in m.dependencies && crate in m.dependencies[owner])
  }

  /** `key` is a visible crate followed by the path's segments; the root names the crate. */
  ghost predicate NamesKey(m: Model, namespace: Key, path: Path, key: Key) {
    && key != [] && key[1..] == path.segments && Visible(m, Owner(namespace), key[0])
    && (if path.root == "crate" then key[0] == Owner(namespace) else path.root == "$" + key[0])
  }

  /** One base step: the class a declared base path names, if it is declared and names one. */
  lemma BaseStepIs(m: Model, key: Key, base: Key)
    ensures Base(m, key) == Some(base) <==>
      key in m.classes && m.classes[key].decl.base.Some?
        && NamesKey(m, m.classes[key].namespace, m.classes[key].decl.base.value, base)
  {
    if key in m.classes && m.classes[key].decl.base.Some? {
      ResolvedPathIs(m, m.classes[key].namespace, m.classes[key].decl.base.value, base);
    }
  }

  /** Later elements of a chain are ancestors of earlier ones. */
  lemma ChainOrder(m: Model, key: Key, i: nat, j: nat)
    requires i <= j < |Ancestors(m, key)|
    ensures Ancestors(m, key)[j] in Ancestors(m, Ancestors(m, key)[i])
  {
    var a := Ancestors(m, key);
    AncestorsFromChain(m, key, []);
    ChainIsBaseN(m, a, i);
    ChainIsBaseN(m, a, j);
    BaseNComposes(m, key, i, j - i);
    AncestorsAreInherited(m, a[i], a[j]);
  }

  // ---------------------------------------------------------------- virtual dispatch

  predicate DeclaresIn(methods: seq<Method>, name: string) {
    exists i :: 0 <= i < |methods| && methods[i].name == name
  }

  predicate Declares(m: Model, key: Key, name: string) {
    key in m.classes && DeclaresIn(m.classes[key].decl.methods, name)
  }

  function FirstDeclaring(m: Model, chain: seq<Key>, name: string): (owner: Option<Key>)
    ensures owner.Some? <==> exists i :: 0 <= i < |chain| && Declares(m, chain[i], name)
    ensures owner.Some? ==> exists i :: 0 <= i < |chain| && chain[i] == owner.value && Declares(m, chain[i], name)
                                        && forall j :: 0 <= j < i ==> !Declares(m, chain[j], name)
  {
    if chain == [] then None
    else if Declares(m, chain[0], name) then Some(chain[0])
    else
      var rest := FirstDeclaring(m, chain[1..], name);
      assert forall i :: 0 <= i < |chain[1..]| ==> chain[1..][i] == chain[i + 1];
      rest
  }

  /** The implementation a call of `name` on class `key` selects: the nearest declaration. */
  ghost function Selected(m: Model, key: Key, name: string): Option<Key> {
    match FirstDeclaring(m, Ancestors(m, key), name)
    case None => None
    case Some(owner) => Some(owner + [name])
  }

  method ComputeSelected(m: Model, key: Key, name: string) returns (selected: Option<Key>)
    ensures selected == Selected(m, key, name)
    ensures forall t :: selected == Some(t) <==> Nearest(m, key, name, t)
  {
    forall t {
      SelectedIsNearest(m, key, name, t);
    }
    var ancestors := ComputeAncestors(m, key);
    var owner := FirstDeclaring(m, ancestors, name);
    selected := if owner.Some? then Some(owner.value + [name]) else None;
  }

  /** The implementations reached from every class that has `owner` among its ancestors. */
  ghost function Implementations(m: Model, owner: Key, name: string): set<Key> {
    set d | d in m.classes && owner in Ancestors(m, d) && Selected(m, d, name).Some? :: Selected(m, d, name).value
  }

  method ComputeImplementations(m: Model, owner: Key, name: string) returns (found: set<Key>)
    ensures found == Implementations(m, owner, name)
    ensures forall t :: t in found <==> RunsBelow(m, owner, name, t)
  {
    hide Nearest, RunsBelow;
    ImplementationsRunBelow(m, owner, name);
    found := {};
    var rest := m.classes.Keys;
    while rest != {}
      invariant rest <= m.classes.Keys
      invariant found == set d | d in m.classes.Keys - rest && owner in Ancestors(m, d)
             && Selected(m, d, name).Some? :: Selected(m, d, name).value
      decreases |rest|
    {
      var d :| d in rest;
      var ancestors := ComputeAncestors(m, d);
      if owner in ancestors {
        var target := ComputeSelected(m, d, name);
        if target.Some? {
          found := found + {target.value};
        }
      }
      assert m.classes.Keys - (rest - {d}) == (m.classes.Keys - rest) + {d};
      rest := rest - {d};
    }
  }

  /** The class and method a call path names, before dispatch. */
  function CalleeOf(m: Model, key: Key, entry: Entry, path: Path): Result<(Key, string), ResolveError> {
    if path.root == "self" && |path.segments| == 1 then
      Ok((key, path.segments[0]))
    else
      match ResolvePath(m, entry.namespace, path)
      case Err(error) => Err(error)
      case Ok(resolved) =>
        if |resolved| < 2 then Err(NotAMethodPath)
        else Ok((resolved[..|resolved| - 1], resolved[|resolved| - 1]))
  }

  /** Conservative virtual dispatch: everything a call written `path` may run. */
  ghost function Targets(m: Model, key: Key, entry: Entry, path: Path): Result<set<Key>, ResolveError> {
    match CalleeOf(m, key, entry, path)
    case Err(error) => Err(error)
    case Ok((callee, name)) =>
      if callee !in m.classes then Err(UnknownClass(callee))
      else if Selected(m, callee, name).None? then Err(UnknownMethod(callee, name))
      else Ok({Selected(m, callee, name).value} + Implementations(m, callee, name))
  }

  method ComputeTargets(m: Model, key: Key, entry: Entry, path: Path) returns (targets: Result<set<Key>, ResolveError>)
    ensures targets == Targets(m, key, entry, path)
    ensures Dispatches(m, key, entry, path, targets)
  {
    hide Dispatches;
    TargetsDispatch(m, key, entry, path);
    var callee := CalleeOf(m, key, entry, path);
    match callee {
      case Err(error) => targets := Err(error);
      case Ok((owner, name)) =>
        if owner !in m.classes {
          return Err(UnknownClass(owner));
        }
        var declared := ComputeSelected(m, owner, name);
        if declared.None? {
          return Err(UnknownMethod(owner, name));
        }
        var found := ComputeImplementations(m, owner, name);
        targets := Ok({declared.value} + found);
    }
  }

  // ---------------------------------------------------------------- dispatch without chains

  /** `t` is the declaration of `name` nearest to `d` on its base steps. */
  ghost predicate NearestAfter(m: Model, d: Key, name: string, k: nat, t: Key) {
    && BaseN(m, d, k).Some? && t == BaseN(m, d, k).value + [name] && Declares(m, BaseN(m, d, k).value, name)
    && forall j: nat :: j < k ==> !DeclaresAfter(m, d, name, j)
  }

  ghost predicate DeclaresAfter(m: Model, d: Key, name: string, j: nat) {
    BaseN(m, d, j).Some? && Declares(m, BaseN(m, d, j).value, name)
  }

  ghost predicate Nearest(m: Model, d: Key, name: string, t: Key) {
    exists k: nat :: NearestAfter(m, d, name, k, t)
  }

  lemma AncestorsAreAChain(m: Model, d: Key)
    ensures IsChain(m, Ancestors(m, d)) && ClosedUpward(m, Ancestors(m, d)) && Ancestors(m, d)[0] == d
  {
    AncestorsFromChain(m, d, []);
  }

  lemma ChainPosition(m: Model, d: Key, k: nat)
    requires BaseN(m, d, k).Some?
    ensures exists i :: 0 <= i < |Ancestors(m, d)| && i <= k && Ancestors(m, d)[i] == BaseN(m, d, k).value
  {
    var chain := Ancestors(m, d);
    AncestorsAreAChain(m, d);
    BaseNStaysInChain(m, chain, d, k, BaseN(m, d, k).value);
    var i :| 0 <= i < |chain| && chain[i] == BaseN(m, d, k).value;
    if k < i {
      ChainIsBaseN(m, chain, k);
    }
  }

  /** Looking a method up along the bounded chain finds the nearest declaration, cyclic bases or not. */
  lemma SelectedIsNearest(m: Model, d: Key, name: string, t: Key)
    ensures Selected(m, d, name) == Some(t) <==> Nearest(m, d, name, t)
  {
    hide Ancestors, Declares;
    var chain := Ancestors(m, d);
    AncestorsAreAChain(m, d);
    forall i | 0 <= i < |chain|
      ensures BaseN(m, d, i) == Some(chain[i])
    {
      ChainIsBaseN(m, chain, i);
    }
    if Selected(m, d, name) == Some(t) {
      var owner := FirstDeclaring(m, chain, name).value;
      var i :| 0 <= i < |chain| && chain[i] == owner && Declares(m, chain[i], name)
        && forall j :: 0 <= j < i ==> !Declares(m, chain[j], name);
      assert NearestAfter(m, d, name, i, t);
    }
    if k: nat :| NearestAfter(m, d, name, k, t) {
      ChainPosition(m, d, k);
      var i :| 0 <= i < |chain| && i <= k && chain[i] == BaseN(m, d, k).value;
      assert DeclaresAfter(m, d, name, i);
      var owner := FirstDeclaring(m, chain, name).value;
      var first :| 0 <= first < |chain| && chain[first] == owner && Declares(m, chain[first], name)
        && forall j :: 0 <= j < first ==> !Declares(m, chain[j], name);
      assert DeclaresAfter(m, d, name, first);
    }
  }

  /** What a call path names before dispatch: `self.name`, or a class path followed by a method name. */
  ghost predicate NamesMethod(m: Model, key: Key, entry: Entry, path: Path, callee: Key, name: string) {
    if path.root == "self" && |path.segments| == 1 then callee == key && [name] == path.segments
    else callee != [] && NamesKey(m, entry.namespace, path, callee + [name])
  }

  /** Some class that inherits from `callee`, or `callee` itself, runs `t` when `name` is called on it. */
  ghost predicate MayRun(m: Model, callee: Key, name: string, t: Key) {
    exists d :: (d in m.classes || d == callee) && Inherits(m, d, callee) && Nearest(m, d, name, t)
  }

  /** The whole answer to a call path: what it may run, or why it names nothing. */
  ghost predicate Dispatches(m: Model, key: Key, entry: Entry, path: Path, answer: Result<set<Key>, ResolveError>) {
    match answer
    case Ok(targets) =>
      exists callee, name :: NamesMethod(m, key, entry, path, callee, name) && callee in m.classes
        && targets != {} && forall t :: t in targets <==> MayRun(m, callee, name, t)
    case Err(UnknownClass(callee)) =>
      exists name :: NamesMethod(m, key, entry, path, callee, name) && callee !in m.classes
    case Err(UnknownMethod(callee, name)) =>
      NamesMethod(m, key, entry, path, callee, name) && callee in m.classes
      && forall k: nat :: !DeclaresAfter(m, callee, name, k)
    case Err(NotAMethodPath) => path.segments == [] && exists crate :: NamesKey(m, entry.namespace, path, [crate])
    case Err(UndeclaredDependency(crate)) =>
      path.root == "$" + crate && !Visible(m, Owner(entry.namespace), crate)
    case Err(SelfNotAllowed) =>
      path.root != "crate" && !("$" <= path.root) && !(path.root == "self" && |path.segments| == 1)
  }

  lemma CalleeIsNamed(m: Model, key: Key, entry: Entry, path: Path, callee: Key, name: string)
    ensures CalleeOf(m, key, entry, path) == Ok((callee, name)) <==> NamesMethod(m, key, entry, path, callee, name)
  {
    hide NamesKey;
    ResolvedPathIs(m, entry.namespace, path, callee + [name]);
    assert (callee + [name])[..|callee|] == callee;
    var resolved := ResolvePath(m, entry.namespace, path);
    if resolved.Ok? && |resolved.value| >= 2 {
      var n := |resolved.value| - 1;
      assert resolved.value == resolved.value[..n] + [resolved.value[n]];
    }
  }

  /** Some declared class that inherits from `owner` runs `t` when `name` is called on it. */
  ghost predicate RunsBelow(m: Model, owner: Key, name: string, t: Key) {
    exists d :: d in m.classes && Inherits(m, d, owner) && Nearest(m, d, name, t)
  }

  /** Where the search for forbidden paths starts: the nearest declarations seen from the classes below. */
  lemma ImplementationsRunBelow(m: Model, owner: Key, name: string)
    ensures forall t :: t in Implementations(m, owner, name) <==> RunsBelow(m, owner, name, t)
  {
    hide Selected, Nearest, Inherits, Ancestors;
    forall d, t
      ensures Selected(m, d, name) == Some(t) <==> Nearest(m, d, name, t)
      ensures owner in Ancestors(m, d) <==> Inherits(m, d, owner)
    {
      SelectedIsNearest(m, d, name, t);
      AncestorsAreInherited(m, d, owner);
    }
  }

  lemma TargetIsReached(m: Model, callee: Key, name: string, t: Key)
    ensures (Selected(m, callee, name) == Some(t) || t in Implementations(m, callee, name)) <==>
      MayRun(m, callee, name, t)
  {
    hide Selected, Nearest, Inherits, Implementations;
    SelectedIsNearest(m, callee, name, t);
    ImplementationsRunBelow(m, callee, name);
    InheritsItself(m, callee);
  }

  lemma InheritsItself(m: Model, key: Key)
    ensures Inherits(m, key, key)
  {
    assert BaseN(m, key, 0) == Some(key);
  }

  /** Dispatch without the chains and the search: a call may run exactly the nearest declarations
      seen from the named class and from every class below it. */
  lemma TargetsDispatch(m: Model, key: Key, entry: Entry, path: Path)
    ensures Dispatches(m, key, entry, path, Targets(m, key, entry, path))
  {
    hide Selected, Implementations, NamesMethod, NamesKey, MayRun, Declares;
    match CalleeOf(m, key, entry, path)
    case Err(error) => UnnamedCallee(m, key, entry, path);
    case Ok((callee, name)) =>
      CalleeIsNamed(m, key, entry, path, callee, name);
      if callee in m.classes {
        forall t
          ensures (Selected(m, callee, name) == Some(t) || t in Implementations(m, callee, name)) <==>
            MayRun(m, callee, name, t)
        {
          TargetIsReached(m, callee, name, t);
        }
        if Selected(m, callee, name).None? {
          NothingNearest(m, callee, name);
        }
      }
  }

  /** A call path has one answer only. */
  lemma DispatchIsUnique(m: Model, key: Key, entry: Entry, path: Path, a: set<Key>, b: set<Key>)
    requires Dispatches(m, key, entry, path, Ok(a)) && Dispatches(m, key, entry, path, Ok(b))
    ensures a == b
  {
    hide MayRun, NamesMethod;
    var callee, name :| NamesMethod(m, key, entry, path, callee, name) && callee in m.classes
      && forall t :: t in a <==> MayRun(m, callee, name, t);
    var callee', name' :| NamesMethod(m, key, entry, path, callee', name') && callee' in m.classes
      && forall t :: t in b <==> MayRun(m, callee', name', t);
    CalleeIsNamed(m, key, entry, path, callee, name);
    CalleeIsNamed(m, key, entry, path, callee', name');
  }

  lemma UnnamedCallee(m: Model, key: Key, entry: Entry, path: Path)
    requires CalleeOf(m, key, entry, path).Err?
    ensures Dispatches(m, key, entry, path, Err(CalleeOf(m, key, entry, path).error))
  {
    var resolved := ResolvePath(m, entry.namespace, path);
    if resolved.Ok? {
      ResolvedPathIs(m, entry.namespace, path, resolved.value);
      assert resolved.value == [resolved.value[0]] + path.segments;
    } else {
      ResolvedPathIs(m, entry.namespace, path, []);
    }
  }

  /** A class that selects nothing has no declaration on any of its base steps. */
  lemma {:induction false} NothingNearest(m: Model, d: Key, name: string)
    requires Selected(m, d, name).None?
    ensures forall k: nat :: !DeclaresAfter(m, d, name, k)
  {
    hide Ancestors, Declares;
    forall k: nat
      ensures !DeclaresAfter(m, d, name, k)
    {
      if DeclaresAfter(m, d, name, k) {
        ChainPosition(m, d, k);
      }
    }
  }

  /** A method declared in `key` is the one `key` itself selects. */
  lemma DeclaredIsSelected(m: Model, key: Key, name: string)
    requires Declares(m, key, name)
    ensures Selected(m, key, name) == Some(key + [name])
  {
    OwnAncestor(m, key);
  }

  lemma SelectedIsDeclaredByAncestor(m: Model, key: Key, name: string)
    requires Selected(m, key, name).Some?
    ensures var s := Selected(m, key, name).value;
      && |s| >= 1 && s[|s| - 1] == name
      && s[..|s| - 1] in Ancestors(m, key) && Declares(m, s[..|s| - 1], name)
  {
    var owner := FirstDeclaring(m, Ancestors(m, key), name).value;
    assert (owner + [name])[..|owner|] == owner;
  }

  /** Applying a base method's rule downward to every implementation is the same
      as collecting rules upward: an operation declared in `key` is an
      implementation of `owner::name` exactly when `owner` is an ancestor of `key`. */
  lemma ImplementationIffAncestor(m: Model, owner: Key, key: Key, name: string)
    requires Declares(m, owner, name) && Declares(m, key, name)
    ensures key + [name] in Implementations(m, owner, name) <==> owner in Ancestors(m, key)
  {
    hide Ancestors;
    DeclaredIsSelected(m, key, name);
    if key + [name] in Implementations(m, owner, name) {
      var d :| d in m.classes && owner in Ancestors(m, d) && Selected(m, d, name) == Some(key + [name]);
      var a := Ancestors(m, d);
      var found := FirstDeclaring(m, a, name).value;
      assert found == (found + [name])[..|found|] == (key + [name])[..|key|] == key by {
        assert |found + [name]| == |key + [name]|;
      }
      var i :| 0 <= i < |a| && a[i] == key && forall j :: 0 <= j < i ==> !Declares(m, a[j], name);
      var j :| 0 <= j < |a| && a[j] == owner;
      ChainOrder(m, d, i, j);
    }
  }
}
