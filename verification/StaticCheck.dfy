/** Static validation of a model: the structural rules of inheritance and
    overriding, the declared call graph, and the search for forbidden paths. */
module StaticCheck {
  import opened Wrappers
  import opened ClassModel
  import opened PathSearch

  function OwnerOf(operation: Key): Key
    requires operation != []
  {
    operation[..|operation| - 1]
  }

  function NameOf(operation: Key): string
    requires operation != []
  {
    operation[|operation| - 1]
  }

  lemma OperationParts(key: Key, name: string)
    ensures OwnerOf(key + [name]) == key && NameOf(key + [name]) == name
  {
    assert (key + [name])[..|key|] == key;
  }

  // ---------------------------------------------------------------- what the declarations mean

  ghost predicate EffectCalls(m: Model, key: Key, effect: Effect, callee: Key)
    requires key in m.classes
  {
    effect.Invokes? && Targets(m, key, m.classes[key], effect.path).Ok?
    && callee in Targets(m, key, m.classes[key], effect.path).value
  }

  ghost predicate EffectsCall(m: Model, key: Key, effects: seq<Effect>, callee: Key)
    requires key in m.classes
  {
    exists j :: 0 <= j < |effects| && EffectCalls(m, key, effects[j], callee)
  }

  ghost predicate MethodCalls(m: Model, key: Key, method_: Method, callee: Key)
    requires key in m.classes
  {
    method_.envelope.Some? && EffectsCall(m, key, method_.envelope.value, callee)
  }

  ghost predicate MethodsCall(m: Model, key: Key, methods: seq<Method>, name: string, callee: Key)
    requires key in m.classes
  {
    exists i :: 0 <= i < |methods| && methods[i].name == name && MethodCalls(m, key, methods[i], callee)
  }

  /** `caller` declares an `invokes` whose dispatch targets include `callee`. */
  ghost predicate Calls(m: Model, caller: Key, callee: Key) {
    caller != [] && OwnerOf(caller) in m.classes
    && MethodsCall(m, OwnerOf(caller), m.classes[OwnerOf(caller)].decl.methods, NameOf(caller), callee)
  }

  /** A declared prohibition: the method stating it, the path it names and what that path may run. */
  datatype Prohibition = Prohibition(start: Key, path: Path, forbidden: set<Key>)

  ghost predicate StatedBy(m: Model, key: Key, method_: Method, p: Prohibition)
    requires key in m.classes
  {
    && method_.envelope.Some? && ForbidTransitive(p.path) in method_.envelope.value
    && Targets(m, key, m.classes[key], p.path) == Ok(p.forbidden)
  }

  ghost predicate StatedAmong(m: Model, key: Key, methods: seq<Method>, p: Prohibition)
    requires key in m.classes
  {
    exists i :: 0 <= i < |methods| && p.start == key + [methods[i].name] && StatedBy(m, key, methods[i], p)
  }

  ghost predicate IsProhibition(m: Model, p: Prohibition) {
    p.start != [] && OwnerOf(p.start) in m.classes
    && StatedAmong(m, OwnerOf(p.start), m.classes[OwnerOf(p.start)].decl.methods, p)
  }

  /** Non-empty chains of declared calls. */
  ghost predicate CallPath(m: Model, path: seq<Key>) {
    |path| >= 2 && forall i :: 0 <= i < |path| - 1 ==> CallStep(m, path, i)
  }

  /** Once the graph is built, its paths are the chains of declared calls. */
  lemma GraphPaths(m: Model, graph: Graph, path: seq<Key>)
    requires GraphMatches(m, graph)
    ensures IsPath(graph, path) <==> CallPath(m, path)
  {
    hide Calls;
    if IsPath(graph, path) {
      forall i | 0 <= i < |path| - 1
        ensures CallStep(m, path, i)
      {
        assert EdgeAt(graph, path, i);
      }
    }
    if CallPath(m, path) {
      forall i | 0 <= i < |path| - 1
        ensures EdgeAt(graph, path, i)
      {
        assert CallStep(m, path, i);
      }
    }
  }

  ghost predicate CallStep(m: Model, path: seq<Key>, i: nat) {
    i < |path| - 1 && Calls(m, path[i], path[i + 1])
  }

  ghost predicate ForbiddenPath(m: Model, p: Prohibition, path: seq<Key>) {
    p.start != [] && CallPath(m, path)
    && path[0] in Implementations(m, OwnerOf(p.start), NameOf(p.start))
    && path[|path| - 1] in p.forbidden
  }

  ghost predicate NoForbiddenPath(m: Model) {
    forall p, path :: IsProhibition(m, p) ==> !ForbiddenPath(m, p, path)
  }

  // ---------------------------------------------------------------- structural rules

  ghost predicate BaseAccepted(m: Model, key: Key)
    requires key in m.classes
  {
    var entry := m.classes[key];
    entry.decl.base.Some? ==>
      match ResolvePath(m, entry.namespace, entry.decl.base.value)
      case Err(_) => false
      case Ok(target) =>
        && target in m.classes
        && key !in Ancestors(m, target)
        && (entry.decl.kind.Context? <==> m.classes[target].decl.kind.Context?)
  }

  ghost function Inherited(m: Model, key: Key, name: string): Option<Key> {
    match Base(m, key)
    case None => None
    case Some(base) => Selected(m, base, name)
  }

  function FindMethod(methods: seq<Method>, name: string): (found: Option<Method>)
    ensures found.Some? <==> DeclaresIn(methods, name)
    ensures found.Some? ==> found.value in methods && found.value.name == name
  {
    if methods == [] then None
    else if methods[0].name == name then Some(methods[0])
    else
      var rest := FindMethod(methods[1..], name);
      assert methods == [methods[0]] + methods[1..];
      rest
  }

  ghost predicate CallResolves(m: Model, key: Key, effect: Effect)
    requires key in m.classes
  {
    effect.Invokes? || effect.ForbidTransitive? ==> Targets(m, key, m.classes[key], effect.path).Ok?
  }

  ghost predicate EnvelopeAccepted(m: Model, key: Key, method_: Method)
    requires key in m.classes
  {
    match method_.envelope
    case None => m.classes[key].decl.kind.Abstract?
    case Some(effects) => forall j :: 0 <= j < |effects| ==> CallResolves(m, key, effects[j])
  }

  ghost predicate OverrideAccepted(m: Model, key: Key, method_: Method) {
    var inherited := Inherited(m, key, method_.name);
    && (method_.isOverride <==> inherited.Some?)
    && (inherited.Some? ==> SameKind(m, inherited.value, method_))
  }

  ghost predicate SameKind(m: Model, inherited: Key, method_: Method) {
    && inherited != [] && OwnerOf(inherited) in m.classes
    && var found := FindMethod(m.classes[OwnerOf(inherited)].decl.methods, NameOf(inherited));
       found.Some? && found.value.kind == method_.kind
  }

  ghost predicate MethodAccepted(m: Model, key: Key, i: nat)
    requires key in m.classes && i < |m.classes[key].decl.methods|
  {
    var methods := m.classes[key].decl.methods;
    && !DeclaresIn(methods[..i], methods[i].name)
    && OverrideAccepted(m, key, methods[i])
    && EnvelopeAccepted(m, key, methods[i])
  }

  predicate HasAbstract(methods: seq<Method>, name: string) {
    exists i :: 0 <= i < |methods| && methods[i].name == name && methods[i].envelope.None?
  }

  ghost predicate Implements(m: Model, key: Key, name: string) {
    var selected := Selected(m, key, name);
    selected.Some? ==>
      selected.value != [] && OwnerOf(selected.value) in m.classes
      && !HasAbstract(m.classes[OwnerOf(selected.value)].decl.methods, NameOf(selected.value))
  }

  ghost predicate AllImplemented(m: Model, key: Key, methods: seq<Method>) {
    forall i :: 0 <= i < |methods| ==> Implements(m, key, methods[i].name)
  }

  ghost predicate AncestorImplemented(m: Model, key: Key, ancestor: Key) {
    ancestor in m.classes ==> AllImplemented(m, key, m.classes[ancestor].decl.methods)
  }

  ghost predicate Complete(m: Model, key: Key)
    requires key in m.classes
  {
    m.classes[key].decl.kind.Abstract? || forall a :: a in Ancestors(m, key) ==> AncestorImplemented(m, key, a)
  }

  ghost predicate ClassAccepted(m: Model, key: Key)
    requires key in m.classes
  {
    && BaseAccepted(m, key)
    && (forall i :: 0 <= i < |m.classes[key].decl.methods| ==> MethodAccepted(m, key, i))
    && Complete(m, key)
  }

  ghost predicate WellFormed(m: Model) {
    forall key :: key in m.classes ==> ClassAccepted(m, key)
  }

  ghost predicate Accepted(m: Model) {
    WellFormed(m) && NoForbiddenPath(m)
  }

  /** The per-class cycle test is enough: no class of a well-formed model is its own proper ancestor. */
  lemma InheritanceIsAcyclic(m: Model, key: Key, n: nat)
    requires WellFormed(m) && key in m.classes && n > 0
    ensures BaseN(m, key, n) != Some(key)
  {
    assert ClassAccepted(m, key);
    if BaseN(m, key, n) == Some(key) {
      var base := Base(m, key).value;
      assert BaseN(m, base, n - 1) == Some(key);
      assert Inherits(m, base, key);
      AncestorsAreInherited(m, base, key);
    }
  }

  // ---------------------------------------------------------------- the checker

  datatype ModelError =
    | BaseUnresolved(class_: Key, error: ResolveError)
    | UnknownBase(class_: Key, target: Key)
    | InheritanceCycle(class_: Key)
    | ContextMismatch(class_: Key)
    | DuplicateMember(method_: Key)
    | OverrideMismatch(method_: Key)
    | OverrideSignature(method_: Key)
    | AbstractMethod(method_: Key)
    | CallUnresolved(method_: Key, path: Path, error: ResolveError)
    | NotImplemented(class_: Key, selected: Key)
    | ForbiddenCall(rule: Path, calls: seq<Key>)

  ghost predicate OnlyStructural(errors: seq<ModelError>) {
    forall k :: 0 <= k < |errors| ==> !errors[k].ForbiddenCall?
  }

  // ---------------------------------------------------------------- what each error says

  ghost predicate BaseFault(m: Model, key: Key, e: ModelError)
    requires key in m.classes
  {
    var entry := m.classes[key];
    match e
    case BaseUnresolved(c, error) =>
      c == key && entry.decl.base.Some? && ResolvePath(m, entry.namespace, entry.decl.base.value) == Err(error)
    case UnknownBase(c, target) => c == key && Base(m, key) == Some(target) && target !in m.classes
    case InheritanceCycle(c) =>
      c == key && Base(m, key).Some? && Base(m, key).value in m.classes && exists n: nat :: ReturnsAfter(m, key, n)
    case ContextMismatch(c) =>
      c == key && Base(m, key).Some? && Base(m, key).value in m.classes
      && (entry.decl.kind.Context? <==> !m.classes[Base(m, key).value].decl.kind.Context?)
    case _ => false
  }

  /** `n` further steps from its base lead back to the class. */
  ghost predicate ReturnsAfter(m: Model, key: Key, n: nat) {
    BaseN(m, key, n + 1) == Some(key)
  }

  ghost predicate OverrideFault(m: Model, key: Key, method_: Method, e: ModelError) {
    match e
    case OverrideMismatch(id) =>
      id == key + [method_.name] && method_.isOverride == Inherited(m, key, method_.name).None?
    case OverrideSignature(id) =>
      id == key + [method_.name] && Inherited(m, key, method_.name).Some?
      && !SameKind(m, Inherited(m, key, method_.name).value, method_)
    case _ => false
  }

  ghost predicate CallFault(m: Model, key: Key, start: Key, effect: Effect, e: ModelError)
    requires key in m.classes
  {
    && e.CallUnresolved? && e.method_ == start
    && (effect == Invokes(e.path) || effect == ForbidTransitive(e.path))
    && Targets(m, key, m.classes[key], e.path) == Err(e.error)
  }

  ghost predicate CallFaultIn(m: Model, key: Key, start: Key, effects: seq<Effect>, e: ModelError)
    requires key in m.classes
  {
    exists j :: 0 <= j < |effects| && CallFault(m, key, start, effects[j], e)
  }

  ghost predicate EnvelopeFault(m: Model, key: Key, method_: Method, e: ModelError)
    requires key in m.classes
  {
    match method_.envelope
    case None => e == AbstractMethod(key + [method_.name]) && !m.classes[key].decl.kind.Abstract?
    case Some(effects) => CallFaultIn(m, key, key + [method_.name], effects, e)
  }

  ghost predicate MethodFault(m: Model, key: Key, i: nat, e: ModelError)
    requires key in m.classes
  {
    var methods := m.classes[key].decl.methods;
    && i < |methods|
    && (|| (e == DuplicateMember(key + [methods[i].name]) && DeclaresIn(methods[..i], methods[i].name))
        || OverrideFault(m, key, methods[i], e)
        || EnvelopeFault(m, key, methods[i], e))
  }

  ghost predicate MethodFaultBefore(m: Model, key: Key, i: nat, e: ModelError)
    requires key in m.classes
  {
    exists j: nat :: j < i && MethodFault(m, key, j, e)
  }

  /** `key` selects an abstract declaration for `name`. */
  ghost predicate AbstractFault(m: Model, key: Key, name: string, e: ModelError) {
    && e.NotImplemented? && e.class_ == key && Selected(m, key, name) == Some(e.selected)
    && e.selected != [] && OwnerOf(e.selected) in m.classes
    && HasAbstract(m.classes[OwnerOf(e.selected)].decl.methods, NameOf(e.selected))
  }

  ghost predicate AbstractFaultIn(m: Model, key: Key, methods: seq<Method>, e: ModelError) {
    exists j :: 0 <= j < |methods| && AbstractFault(m, key, methods[j].name, e)
  }

  ghost predicate AbstractFaultAlong(m: Model, key: Key, chain: seq<Key>, e: ModelError) {
    exists i :: 0 <= i < |chain| && chain[i] in m.classes
      && AbstractFaultIn(m, key, m.classes[chain[i]].decl.methods, e)
  }

  ghost predicate CompletenessFault(m: Model, key: Key, e: ModelError)
    requires key in m.classes
  {
    !m.classes[key].decl.kind.Abstract? && AbstractFaultAlong(m, key, Ancestors(m, key), e)
  }

  /** The structural rules of one class, error by error. */
  ghost predicate ClassFault(m: Model, key: Key, e: ModelError)
    requires key in m.classes
  {
    || BaseFault(m, key, e)
    || MethodFaultBefore(m, key, |m.classes[key].decl.methods|, e)
    || CompletenessFault(m, key, e)
  }

  ghost predicate FaultAmong(m: Model, keys: set<Key>, e: ModelError)
    requires keys <= m.classes.Keys
  {
    exists key :: key in keys && ClassFault(m, key, e)
  }

  lemma CycleReturns(m: Model, key: Key)
    requires Base(m, key).Some?
    ensures key in Ancestors(m, Base(m, key).value) <==> exists n: nat :: ReturnsAfter(m, key, n)
  {
    var base := Base(m, key).value;
    AncestorsAreInherited(m, base, key);
    forall n: nat
      ensures BaseN(m, key, n + 1) == BaseN(m, base, n)
    {
    }
    if n: nat :| BaseN(m, base, n) == Some(key) {
      assert ReturnsAfter(m, key, n);
    }
    if n: nat :| ReturnsAfter(m, key, n) {
      assert BaseN(m, base, n) == Some(key);
    }
  }

  ghost predicate GraphMatches(m: Model, graph: Graph) {
    forall a, b :: b in Successors(graph, a) <==> Calls(m, a, b)
  }

  method CheckBase(m: Model, key: Key) returns (errors: seq<ModelError>)
    requires key in m.classes
    ensures OnlyStructural(errors) && (errors == [] <==> BaseAccepted(m, key))
    ensures forall e :: e in errors <==> BaseFault(m, key, e)
  {
    hide Ancestors, ReturnsAfter;
    errors := [];
    if Base(m, key).Some? {
      CycleReturns(m, key);
    }
    var entry := m.classes[key];
    if entry.decl.base.Some? {
      match ResolvePath(m, entry.namespace, entry.decl.base.value) {
        case Err(error) => errors := [BaseUnresolved(key, error)];
        case Ok(target) =>
          if target in m.classes {
            var ancestors := ComputeAncestors(m, target);
            if key in ancestors {
              errors := errors + [InheritanceCycle(key)];
            }
            if entry.decl.kind.Context? != m.classes[target].decl.kind.Context? {
              errors := errors + [ContextMismatch(key)];
            }
          } else {
            errors := [UnknownBase(key, target)];
          }
      }
    }
  }

  lemma SelectedIsDeclared(m: Model, key: Key, name: string)
    requires Selected(m, key, name).Some?
    ensures var s := Selected(m, key, name).value;
      s != [] && NameOf(s) == name && Declares(m, OwnerOf(s), name)
  {
    SelectedIsDeclaredByAncestor(m, key, name);
  }

  method CheckOverride(m: Model, key: Key, method_: Method) returns (errors: seq<ModelError>)
    requires key in m.classes
    ensures OnlyStructural(errors) && (errors == [] <==> OverrideAccepted(m, key, method_))
    ensures forall e :: e in errors <==> OverrideFault(m, key, method_, e)
  {
    errors := [];
    var inherited := None;
    var base := Base(m, key);
    if base.Some? {
      inherited := ComputeSelected(m, base.value, method_.name);
    }
    if method_.isOverride != inherited.Some? {
      errors := [OverrideMismatch(key + [method_.name])];
    }
    if inherited.Some? {
      SelectedIsDeclared(m, base.value, method_.name);
      var baseMethod := FindMethod(m.classes[OwnerOf(inherited.value)].decl.methods, NameOf(inherited.value));
      if baseMethod.value.kind != method_.kind {
        errors := errors + [OverrideSignature(key + [method_.name])];
      }
    }
  }

  ghost predicate TargetsMatch(m: Model, key: Key, effects: seq<Effect>, targets: set<Key>)
    requires key in m.classes
  {
    forall b :: b in targets <==> EffectsCall(m, key, effects, b)
  }

  ghost predicate StatedIn(m: Model, key: Key, effects: seq<Effect>, p: Prohibition)
    requires key in m.classes
  {
    ForbidTransitive(p.path) in effects && Targets(m, key, m.classes[key], p.path) == Ok(p.forbidden)
  }

  ghost predicate RulesMatch(m: Model, key: Key, start: Key, effects: seq<Effect>, prohibitions: seq<Prohibition>)
    requires key in m.classes
  {
    forall p :: p in prohibitions <==> p.start == start && StatedIn(m, key, effects, p)
  }

  /** One effect's own contribution to the calls and prohibitions of its method. */
  method CheckEffect(m: Model, key: Key, start: Key, effect: Effect)
    returns (errors: seq<ModelError>, targets: set<Key>, prohibitions: seq<Prohibition>)
    requires key in m.classes
    ensures OnlyStructural(errors) && (errors == [] <==> CallResolves(m, key, effect))
    ensures forall e :: e in errors <==> CallFault(m, key, start, effect, e)
    ensures forall b :: b in targets <==> EffectCalls(m, key, effect, b)
    ensures RulesMatch(m, key, start, [effect], prohibitions)
  {
    errors, targets, prohibitions := [], {}, [];
    if effect.Invokes? || effect.ForbidTransitive? {
      var found := ComputeTargets(m, key, m.classes[key], effect.path);
      match found {
        case Err(error) => errors := [CallUnresolved(start, effect.path, error)];
        case Ok(reached) =>
          if effect.Invokes? {
            targets := reached;
          } else {
            prohibitions := [Prohibition(start, effect.path, reached)];
          }
      }
    }
  }

  lemma TargetsMatchGrow(m: Model, key: Key, effects: seq<Effect>, last: Effect, targets: set<Key>, more: set<Key>)
    requires key in m.classes && TargetsMatch(m, key, effects, targets)
    requires forall b :: b in more <==> EffectCalls(m, key, last, b)
    ensures TargetsMatch(m, key, effects + [last], targets + more)
  {
    forall b {
      EffectsCallSnoc(m, key, effects, last, b);
    }
  }

  /** One pass over an envelope collects the call targets, the prohibitions and the errors. */
  method CheckEnvelope(m: Model, key: Key, method_: Method)
    returns (errors: seq<ModelError>, targets: set<Key>, prohibitions: seq<Prohibition>)
    requires key in m.classes
    ensures OnlyStructural(errors) && (errors == [] <==> EnvelopeAccepted(m, key, method_))
    ensures forall e :: e in errors <==> EnvelopeFault(m, key, method_, e)
    ensures forall b :: b in targets <==> MethodCalls(m, key, method_, b)
    ensures forall p :: p in prohibitions <==> p.start == key + [method_.name] && StatedBy(m, key, method_, p)
  {
    errors, targets, prohibitions := [], {}, [];
    var start := key + [method_.name];
    if method_.envelope.None? {
      if !m.classes[key].decl.kind.Abstract? {
        errors := [AbstractMethod(start)];
      }
      return;
    }
    var effects := method_.envelope.value;
    for j := 0 to |effects|
      invariant OnlyStructural(errors)
             && (errors == [] <==> forall i :: 0 <= i < j ==> CallResolves(m, key, effects[i]))
      invariant forall e :: e in errors <==> CallFaultIn(m, key, start, effects[..j], e)
      invariant TargetsMatch(m, key, effects[..j], targets)
      invariant RulesMatch(m, key, start, effects[..j], prohibitions)
    {
      var found, reached, stated := CheckEffect(m, key, start, effects[j]);
      assert effects[..j + 1] == effects[..j] + [effects[j]];
      TargetsMatchGrow(m, key, effects[..j], effects[j], targets, reached);
      forall e {
        CallFaultSnoc(m, key, start, effects[..j], effects[j], e);
      }
      errors, targets, prohibitions := errors + found, targets + reached, prohibitions + stated;
    }
    assert effects[..|effects|] == effects;
  }

  lemma CallFaultSnoc(m: Model, key: Key, start: Key, effects: seq<Effect>, last: Effect, e: ModelError)
    requires key in m.classes
    ensures CallFaultIn(m, key, start, effects + [last], e)
       <==> CallFaultIn(m, key, start, effects, e) || CallFault(m, key, start, last, e)
  {
    hide CallFault;
    var all := effects + [last];
    if j :| 0 <= j < |effects| && CallFault(m, key, start, effects[j], e) {
      assert all[j] == effects[j];
    }
    if CallFault(m, key, start, last, e) {
      assert all[|effects|] == last;
    }
  }

  lemma EffectsCallSnoc(m: Model, key: Key, effects: seq<Effect>, last: Effect, b: Key)
    requires key in m.classes
    ensures EffectsCall(m, key, effects + [last], b)
       <==> EffectsCall(m, key, effects, b) || EffectCalls(m, key, last, b)
  {
    var all := effects + [last];
    if EffectsCall(m, key, effects, b) {
      var j :| 0 <= j < |effects| && EffectCalls(m, key, effects[j], b);
      assert all[j] == effects[j];
    }
    if EffectCalls(m, key, last, b) {
      assert all[|effects|] == last;
    }
  }

  lemma MethodsCallSnoc(m: Model, key: Key, methods: seq<Method>, last: Method, name: string, b: Key)
    requires key in m.classes
    ensures MethodsCall(m, key, methods + [last], name, b)
       <==> MethodsCall(m, key, methods, name, b) || (last.name == name && MethodCalls(m, key, last, b))
  {
    var all := methods + [last];
    if MethodsCall(m, key, methods, name, b) {
      var i :| 0 <= i < |methods| && methods[i].name == name && MethodCalls(m, key, methods[i], b);
      assert all[i] == methods[i];
    }
    if last.name == name && MethodCalls(m, key, last, b) {
      assert all[|methods|] == last;
    }
  }

  lemma StatedAmongSnoc(m: Model, key: Key, methods: seq<Method>, last: Method, p: Prohibition)
    requires key in m.classes
    ensures StatedAmong(m, key, methods + [last], p)
       <==> StatedAmong(m, key, methods, p) || (p.start == key + [last.name] && StatedBy(m, key, last, p))
  {
    var all := methods + [last];
    if StatedAmong(m, key, methods, p) {
      var i :| 0 <= i < |methods| && p.start == key + [methods[i].name] && StatedBy(m, key, methods[i], p);
      assert all[i] == methods[i];
    }
    if p.start == key + [last.name] && StatedBy(m, key, last, p) {
      assert all[|methods|] == last;
    }
  }

  method CheckMethod(m: Model, key: Key, i: nat)
    returns (errors: seq<ModelError>, targets: set<Key>, prohibitions: seq<Prohibition>)
    requires key in m.classes && i < |m.classes[key].decl.methods|
    ensures OnlyStructural(errors) && (errors == [] <==> MethodAccepted(m, key, i))
    ensures forall e :: e in errors <==> MethodFault(m, key, i, e)
    ensures forall b :: b in targets <==> MethodCalls(m, key, m.classes[key].decl.methods[i], b)
    ensures forall p :: p in prohibitions <==>
      p.start == key + [m.classes[key].decl.methods[i].name] && StatedBy(m, key, m.classes[key].decl.methods[i], p)
  {
    hide OverrideFault, EnvelopeFault, OverrideAccepted, EnvelopeAccepted, MethodCalls, StatedBy;
    var methods := m.classes[key].decl.methods;
    var current := methods[i];
    var duplicate := if DeclaresIn(methods[..i], current.name) then [DuplicateMember(key + [current.name])] else [];
    var overriding := CheckOverride(m, key, current);
    var calls;
    calls, targets, prohibitions := CheckEnvelope(m, key, current);
    errors := duplicate + overriding + calls;
  }

  /** The calls collected by method name. */
  ghost predicate EdgesOf(m: Model, key: Key, methods: seq<Method>, edges: map<string, set<Key>>)
    requires key in m.classes
  {
    forall name, b :: (name in edges && b in edges[name]) <==> MethodsCall(m, key, methods, name, b)
  }

  lemma EdgesGrow(m: Model, key: Key, methods: seq<Method>, last: Method, edges: map<string, set<Key>>,
                  targets: set<Key>)
    requires key in m.classes && EdgesOf(m, key, methods, edges)
    requires forall b :: b in targets <==> MethodCalls(m, key, last, b)
    ensures EdgesOf(m, key, methods + [last],
                    edges[last.name := (if last.name in edges then edges[last.name] else {}) + targets])
  {
    forall name, b {
      MethodsCallSnoc(m, key, methods, last, name, b);
    }
  }

  ghost predicate Collected(m: Model, key: Key, methods: seq<Method>, prohibitions: seq<Prohibition>)
    requires key in m.classes
  {
    forall p :: p in prohibitions <==> StatedAmong(m, key, methods, p)
  }

  lemma CollectedGrow(m: Model, key: Key, methods: seq<Method>, last: Method, all: seq<Prohibition>,
                      stated: seq<Prohibition>)
    requires key in m.classes && Collected(m, key, methods, all)
    requires forall p :: p in stated <==> p.start == key + [last.name] && StatedBy(m, key, last, p)
    ensures Collected(m, key, methods + [last], all + stated)
  {
    forall p {
      StatedAmongSnoc(m, key, methods, last, p);
    }
  }

  method CheckMethods(m: Model, key: Key)
    returns (errors: seq<ModelError>, edges: map<string, set<Key>>, prohibitions: seq<Prohibition>)
    requires key in m.classes
    ensures OnlyStructural(errors)
         && (errors == [] <==> forall i :: 0 <= i < |m.classes[key].decl.methods| ==> MethodAccepted(m, key, i))
    ensures forall e :: e in errors <==> MethodFaultBefore(m, key, |m.classes[key].decl.methods|, e)
    ensures EdgesOf(m, key, m.classes[key].decl.methods, edges)
    ensures Collected(m, key, m.classes[key].decl.methods, prohibitions)
  {
    hide MethodFault, MethodAccepted, MethodCalls, StatedBy;
    errors, edges, prohibitions := [], map[], [];
    var methods := m.classes[key].decl.methods;
    for i := 0 to |methods|
      invariant OnlyStructural(errors) && (errors == [] <==> forall j :: 0 <= j < i ==> MethodAccepted(m, key, j))
      invariant forall e :: e in errors <==> MethodFaultBefore(m, key, i, e)
      invariant EdgesOf(m, key, methods[..i], edges)
      invariant Collected(m, key, methods[..i], prohibitions)
    {
      var found, targets, stated := CheckMethod(m, key, i);
      assert methods[..i + 1] == methods[..i] + [methods[i]];
      EdgesGrow(m, key, methods[..i], methods[i], edges, targets);
      CollectedGrow(m, key, methods[..i], methods[i], prohibitions, stated);
      errors := errors + found;
      edges := edges[methods[i].name := (if methods[i].name in edges then edges[methods[i].name] else {}) + targets];
      prohibitions := prohibitions + stated;
    }
    assert methods[..|methods|] == methods;
  }

  method CheckImplemented(m: Model, key: Key, name: string) returns (errors: seq<ModelError>)
    requires key in m.classes
    ensures OnlyStructural(errors) && (errors == [] <==> Implements(m, key, name))
    ensures forall e :: e in errors <==> AbstractFault(m, key, name, e)
  {
    errors := [];
    var selected := ComputeSelected(m, key, name);
    if selected.Some? {
      SelectedIsDeclared(m, key, name);
      if HasAbstract(m.classes[OwnerOf(selected.value)].decl.methods, NameOf(selected.value)) {
        errors := [NotImplemented(key, selected.value)];
      }
    }
  }

  method CheckComplete(m: Model, key: Key) returns (errors: seq<ModelError>)
    requires key in m.classes
    ensures OnlyStructural(errors) && (errors == [] <==> Complete(m, key))
    ensures forall e :: e in errors <==> CompletenessFault(m, key, e)
  {
    hide Implements, Ancestors, AbstractFault, AbstractFaultIn;
    errors := [];
    if m.classes[key].decl.kind.Abstract? {
      return;
    }
    var ancestors := ComputeAncestors(m, key);
    for i := 0 to |ancestors|
      invariant OnlyStructural(errors)
             && (errors == [] <==> forall j :: 0 <= j < i ==> AncestorImplemented(m, key, ancestors[j]))
      invariant forall e :: e in errors <==> AbstractFaultAlong(m, key, ancestors[..i], e)
    {
      forall e {
        AbstractAlongSnoc(m, key, ancestors, i, e);
      }
      if ancestors[i] in m.classes {
        var methods := m.classes[ancestors[i]].decl.methods;
        var before := errors;
        AbstractInNothing(m, key);
        assert methods[..0] == [];
        for j := 0 to |methods|
          invariant OnlyStructural(errors)
                 && (errors == [] <==> before == [] && forall l :: 0 <= l < j ==> Implements(m, key, methods[l].name))
          invariant forall e :: e in errors <==> e in before || AbstractFaultIn(m, key, methods[..j], e)
        {
          forall e {
            AbstractInSnoc(m, key, methods, j, e);
          }
          var found := CheckImplemented(m, key, methods[j].name);
          errors := errors + found;
        }
        assert methods[..|methods|] == methods;
      }
    }
    assert ancestors[..|ancestors|] == ancestors;
  }

  lemma AbstractInNothing(m: Model, key: Key)
    ensures forall e :: !AbstractFaultIn(m, key, [], e)
  {
  }

  lemma AbstractInSnoc(m: Model, key: Key, methods: seq<Method>, j: nat, e: ModelError)
    requires j < |methods|
    ensures AbstractFaultIn(m, key, methods[..j + 1], e)
       <==> AbstractFaultIn(m, key, methods[..j], e) || AbstractFault(m, key, methods[j].name, e)
  {
    hide AbstractFault;
    var longer, front := methods[..j + 1], methods[..j];
    assert forall l :: 0 <= l < j ==> longer[l] == front[l];
    assert longer[j] == methods[j];
    if l :| 0 <= l < j && AbstractFault(m, key, front[l].name, e) {
      assert AbstractFault(m, key, longer[l].name, e);
    }
  }

  lemma AbstractAlongSnoc(m: Model, key: Key, chain: seq<Key>, i: nat, e: ModelError)
    requires i < |chain|
    ensures AbstractFaultAlong(m, key, chain[..i + 1], e) <==>
      || AbstractFaultAlong(m, key, chain[..i], e)
      || (chain[i] in m.classes && AbstractFaultIn(m, key, m.classes[chain[i]].decl.methods, e))
  {
    hide AbstractFaultIn;
    var longer, front := chain[..i + 1], chain[..i];
    assert forall l :: 0 <= l < i ==> longer[l] == front[l];
    assert longer[i] == chain[i];
    if l :| 0 <= l < i && front[l] in m.classes && AbstractFaultIn(m, key, m.classes[front[l]].decl.methods, e) {
      assert longer[l] in m.classes;
    }
  }

  // ---------------------------------------------------------------- validation

  ghost predicate GraphUpTo(m: Model, graph: Graph, done: set<Key>) {
    forall a, b :: b in Successors(graph, a) <==> Calls(m, a, b) && OwnerOf(a) in done
  }

  function Qualify(key: Key, edges: map<string, set<Key>>): Graph {
    map operation | operation in (set name | name in edges :: key + [name]) :: edges[NameOf(operation)]
  }

  lemma GraphGrows(m: Model, graph: Graph, done: set<Key>, key: Key, edges: map<string, set<Key>>)
    requires GraphUpTo(m, graph, done) && key in m.classes && key !in done
    requires EdgesOf(m, key, m.classes[key].decl.methods, edges)
    requires forall a :: a in graph ==> a != [] && OwnerOf(a) in done
    ensures GraphUpTo(m, graph + Qualify(key, edges), done + {key})
    ensures forall a :: a in Qualify(key, edges) ==> a != [] && OwnerOf(a) == key
  {
    var own := Qualify(key, edges);
    forall a | a in own
      ensures a != [] && OwnerOf(a) == key
    {
      var name :| name in edges && a == key + [name];
      OperationParts(key, name);
    }
    forall a, b
      ensures b in Successors(graph + own, a) <==> Calls(m, a, b) && OwnerOf(a) in done + {key}
    {
      if a != [] && OwnerOf(a) == key {
        assert a == key + [NameOf(a)];
        assert a in own <==> NameOf(a) in edges by {
          if a in own {
            var name :| name in edges && a == key + [name];
            OperationParts(key, name);
          }
        }
      }
    }
  }

  ghost predicate ProhibitionsUpTo(m: Model, prohibitions: seq<Prohibition>, done: set<Key>) {
    forall p :: p in prohibitions <==> IsProhibition(m, p) && OwnerOf(p.start) in done
  }

  lemma ProhibitionsGrow(m: Model, all: seq<Prohibition>, done: set<Key>, key: Key, own: seq<Prohibition>)
    requires ProhibitionsUpTo(m, all, done) && key in m.classes && key !in done
    requires Collected(m, key, m.classes[key].decl.methods, own)
    ensures ProhibitionsUpTo(m, all + own, done + {key})
  {
    forall p
      ensures p in own <==> IsProhibition(m, p) && OwnerOf(p.start) == key
    {
      if p in own {
        var methods := m.classes[key].decl.methods;
        var i :| 0 <= i < |methods| && p.start == key + [methods[i].name] && StatedBy(m, key, methods[i], p);
        OperationParts(key, methods[i].name);
      }
    }
  }

  /** What a reported path error says: a shortest forbidden path of a declared prohibition. */
  ghost predicate ReportsShortest(m: Model, error: ModelError)
    requires error.ForbiddenCall?
  {
    exists p :: IsProhibition(m, p) && p.path == error.rule && ForbiddenPath(m, p, error.calls)
             && forall other :: ForbiddenPath(m, p, other) ==> |error.calls| <= |other|
  }

  ghost predicate AllShortest(m: Model, errors: seq<ModelError>) {
    forall k :: 0 <= k < |errors| ==> errors[k].ForbiddenCall? && ReportsShortest(m, errors[k])
  }

  ghost predicate ReportsRule(errors: seq<ModelError>, rule: Path) {
    exists k :: 0 <= k < |errors| && errors[k].ForbiddenCall? && errors[k].rule == rule
  }

  ghost predicate Violated(m: Model, p: Prohibition) {
    exists path :: ForbiddenPath(m, p, path)
  }

  lemma ForbiddenIsSearched(m: Model, graph: Graph, p: Prohibition, path: seq<Key>)
    requires GraphMatches(m, graph) && p.start != []
    ensures ForbiddenPath(m, p, path)
       <==> SearchPath(graph, Implementations(m, OwnerOf(p.start), NameOf(p.start)), path) && EndsIn(path, p.forbidden)
  {
    GraphPaths(m, graph, path);
  }

  lemma ReportsRuleGrows(a: seq<ModelError>, b: seq<ModelError>, rule: Path)
    ensures ReportsRule(a + b, rule) <==> ReportsRule(a, rule) || ReportsRule(b, rule)
  {
    var all := a + b;
    assert forall k :: 0 <= k < |a| ==> all[k] == a[k];
    assert forall k :: 0 <= k < |b| ==> all[|a| + k] == b[k];
    if k :| 0 <= k < |b| && b[k].ForbiddenCall? && b[k].rule == rule {
      assert all[|a| + k] == b[k];
    }
  }

  /** What an exact, shortest answer of the search says about one prohibition. */
  lemma SearchDecides(m: Model, graph: Graph, p: Prohibition, found: Option<seq<Key>>)
    requires GraphMatches(m, graph) && IsProhibition(m, p) && p.start != []
    requires var starts := Implementations(m, OwnerOf(p.start), NameOf(p.start));
      if found.None? then forall path :: SearchPath(graph, starts, path) ==> !EndsIn(path, p.forbidden)
      else
        && SearchPath(graph, starts, found.value) && EndsIn(found.value, p.forbidden)
        && forall path :: SearchPath(graph, starts, path) && EndsIn(path, p.forbidden) ==> |found.value| <= |path|
    ensures found.Some? <==> Violated(m, p)
    ensures found.Some? ==> AllShortest(m, [ForbiddenCall(p.path, found.value)])
  {
    hide GraphMatches, IsProhibition, ForbiddenPath, SearchPath, EndsIn;
    var starts := Implementations(m, OwnerOf(p.start), NameOf(p.start));
    forall path
      ensures ForbiddenPath(m, p, path) <==> SearchPath(graph, starts, path) && EndsIn(path, p.forbidden)
    {
      ForbiddenIsSearched(m, graph, p, path);
    }
  }

  lemma ProhibitionStarts(m: Model, p: Prohibition)
    requires IsProhibition(m, p)
    ensures p.start != []
  {
  }

  method CheckPath(m: Model, graph: Graph, p: Prohibition) returns (errors: seq<ModelError>)
    requires GraphMatches(m, graph) && IsProhibition(m, p)
    ensures errors == [] <==> !Violated(m, p)
    ensures AllShortest(m, errors)
    ensures Violated(m, p) ==> ReportsRule(errors, p.path)
  {
    hide GraphMatches, IsProhibition, Violated, ReportsShortest, SearchPath, EndsIn, Implementations;
    ProhibitionStarts(m, p);
    var starts := ComputeImplementations(m, OwnerOf(p.start), NameOf(p.start));
    var found := SearchForbidden(graph, starts, p.forbidden);
    SearchDecides(m, graph, p, found);
    errors := if found.Some? then [ForbiddenCall(p.path, found.value)] else [];
    assert errors != [] ==> errors[0].rule == p.path;
  }

  lemma NothingShortest(m: Model)
    ensures AllShortest(m, [])
  {
  }

  lemma AppendShortest(m: Model, a: seq<ModelError>, b: seq<ModelError>)
    requires AllShortest(m, a) && AllShortest(m, b)
    ensures AllShortest(m, a + b)
  {
    forall k | 0 <= k < |a + b|
      ensures (a + b)[k].ForbiddenCall? && ReportsShortest(m, (a + b)[k])
    {
      assert (a + b)[k] == if k < |a| then a[k] else b[k - |a|];
    }
  }

  method CheckPaths(m: Model, graph: Graph, prohibitions: seq<Prohibition>) returns (errors: seq<ModelError>)
    requires GraphMatches(m, graph)
    requires forall k :: 0 <= k < |prohibitions| ==> IsProhibition(m, prohibitions[k])
    ensures errors == [] <==> forall k :: 0 <= k < |prohibitions| ==> !Violated(m, prohibitions[k])
    ensures AllShortest(m, errors)
    ensures forall k :: 0 <= k < |prohibitions| && Violated(m, prohibitions[k]) ==>
      ReportsRule(errors, prohibitions[k].path)
  {
    hide IsProhibition, GraphMatches, Violated, AllShortest, ReportsRule;
    assert AllShortest(m, []) by {
      NothingShortest(m);
    }
    errors := [];
    for k := 0 to |prohibitions|
      invariant errors == [] <==> forall j :: 0 <= j < k ==> !Violated(m, prohibitions[j])
      invariant AllShortest(m, errors)
      invariant forall j :: 0 <= j < k && Violated(m, prohibitions[j]) ==> ReportsRule(errors, prohibitions[j].path)
    {
      var found := CheckPath(m, graph, prohibitions[k]);
      AppendShortest(m, errors, found);
      forall j | 0 <= j <= k && Violated(m, prohibitions[j])
        ensures ReportsRule(errors + found, prohibitions[j].path)
      {
        ReportsRuleGrows(errors, found, prohibitions[j].path);
      }
      assert errors + found == [] <==> errors == [] && found == [];
      errors := errors + found;
    }
  }

  /** The state of validation once the classes in `done` were visited. */
  ghost predicate CheckedUpTo(m: Model, structural: seq<ModelError>, graph: Graph, prohibitions: seq<Prohibition>,
                              done: set<Key>) {
    && done <= m.classes.Keys
    && OnlyStructural(structural) && (forall e :: e in structural <==> FaultAmong(m, done, e))
    && (structural == [] <==> forall key :: key in done ==> ClassAccepted(m, key))
    && GraphUpTo(m, graph, done)
    && (forall a :: a in graph ==> a != [] && OwnerOf(a) in done)
    && ProhibitionsUpTo(m, prohibitions, done)
  }

  method CheckClass(m: Model, key: Key)
    returns (errors: seq<ModelError>, graph: Graph, prohibitions: seq<Prohibition>, ghost edges: map<string, set<Key>>)
    requires key in m.classes
    ensures OnlyStructural(errors) && (errors == [] <==> ClassAccepted(m, key))
    ensures forall e :: e in errors <==> ClassFault(m, key, e)
    ensures graph == Qualify(key, edges) && EdgesOf(m, key, m.classes[key].decl.methods, edges)
    ensures Collected(m, key, m.classes[key].decl.methods, prohibitions)
  {
    hide BaseFault, MethodFaultBefore, CompletenessFault, BaseAccepted, MethodAccepted, Complete, EdgesOf, Collected;
    var base := CheckBase(m, key);
    var members, own, stated := CheckMethods(m, key);
    var complete := CheckComplete(m, key);
    errors, graph, prohibitions, edges := base + members + complete, Qualify(key, own), stated, own;
  }

  lemma NothingChecked(m: Model)
    ensures CheckedUpTo(m, [], map[], [], {})
  {
  }

  lemma CheckedGrows(m: Model, structural: seq<ModelError>, graph: Graph, prohibitions: seq<Prohibition>,
                     done: set<Key>, key: Key, found: seq<ModelError>, edges: map<string, set<Key>>,
                     stated: seq<Prohibition>)
    requires CheckedUpTo(m, structural, graph, prohibitions, done) && key in m.classes && key !in done
    requires OnlyStructural(found) && (found == [] <==> ClassAccepted(m, key))
    requires forall e :: e in found <==> ClassFault(m, key, e)
    requires EdgesOf(m, key, m.classes[key].decl.methods, edges)
    requires Collected(m, key, m.classes[key].decl.methods, stated)
    ensures CheckedUpTo(m, structural + found, graph + Qualify(key, edges), prohibitions + stated, done + {key})
  {
    hide ClassAccepted, ClassFault;
    GraphGrows(m, graph, done, key, edges);
    ProhibitionsGrow(m, prohibitions, done, key, stated);
    assert structural + found == [] <==> structural == [] && found == [];
  }

  lemma AllChecked(m: Model, structural: seq<ModelError>, graph: Graph, prohibitions: seq<Prohibition>)
    requires CheckedUpTo(m, structural, graph, prohibitions, m.classes.Keys)
    ensures GraphMatches(m, graph) && (structural == [] <==> WellFormed(m))
    ensures forall e :: e in structural <==> FaultAmong(m, m.classes.Keys, e)
    ensures forall k :: 0 <= k < |prohibitions| ==> IsProhibition(m, prohibitions[k])
    ensures (forall k :: 0 <= k < |prohibitions| ==> !Violated(m, prohibitions[k])) <==> NoForbiddenPath(m)
    ensures forall p :: IsProhibition(m, p) ==> p in prohibitions
  {
    hide StatedAmong, MethodsCall, ClassAccepted, ForbiddenPath, ClassFault;
    forall k | 0 <= k < |prohibitions|
      ensures IsProhibition(m, prohibitions[k])
    {
      assert prohibitions[k] in prohibitions;
    }
    if forall k :: 0 <= k < |prohibitions| ==> !Violated(m, prohibitions[k]) {
      forall p, path | IsProhibition(m, p)
        ensures !ForbiddenPath(m, p, path)
      {
        assert p in prohibitions;
      }
    }
  }

  /** What validation may answer: nothing exactly for accepted models, exactly the structural
      faults there are, only shortest real paths as forbidden calls, and one for every violated prohibition. */
  ghost predicate Diagnoses(m: Model, errors: seq<ModelError>) {
    && (errors == [] <==> Accepted(m))
    && (forall e :: e in errors && !e.ForbiddenCall? <==> FaultAmong(m, m.classes.Keys, e))
    && (forall k :: 0 <= k < |errors| && errors[k].ForbiddenCall? ==> ReportsShortest(m, errors[k]))
    && (forall p :: IsProhibition(m, p) && Violated(m, p) ==> ReportsRule(errors, p.path))
  }

  /** Structural errors first, then the path errors of all prohibitions, make a full diagnosis. */
  lemma DiagnosisComplete(m: Model, structural: seq<ModelError>, prohibitions: seq<Prohibition>, paths: seq<ModelError>)
    requires OnlyStructural(structural) && (structural == [] <==> WellFormed(m)) && AllShortest(m, paths)
    requires forall e :: e in structural <==> FaultAmong(m, m.classes.Keys, e)
    requires paths == [] <==> NoForbiddenPath(m)
    requires forall p :: IsProhibition(m, p) ==> p in prohibitions
    requires forall k :: 0 <= k < |prohibitions| && Violated(m, prohibitions[k]) ==>
      ReportsRule(paths, prohibitions[k].path)
    ensures Diagnoses(m, structural + paths)
  {
    hide WellFormed, NoForbiddenPath, IsProhibition, Violated, ReportsShortest, ReportsRule, FaultAmong;
    var errors := structural + paths;
    assert errors == [] <==> structural == [] && paths == [];
    assert forall k :: 0 <= k < |errors| ==>
      errors[k] == if k < |structural| then structural[k] else paths[k - |structural|];
    forall p | IsProhibition(m, p) && Violated(m, p)
      ensures ReportsRule(errors, p.path)
    {
      var k :| 0 <= k < |prohibitions| && prohibitions[k] == p;
      ReportsRuleGrows(structural, paths, p.path);
    }
  }

  /** Validation succeeds exactly on accepted models, and otherwise misses no violated prohibition. */
  method Check(m: Model) returns (errors: seq<ModelError>)
    ensures Diagnoses(m, errors)
  {
    hide GraphUpTo, ProhibitionsUpTo, ClassAccepted, ClassFault, Collected, EdgesOf, IsProhibition, Violated,
      ReportsShortest, GraphMatches;
    var structural: seq<ModelError> := [];
    var graph: Graph := map[];
    var prohibitions: seq<Prohibition> := [];
    var rest := m.classes.Keys;
    NothingChecked(m);
    assert m.classes.Keys - rest == {};
    while rest != {}
      invariant rest <= m.classes.Keys
      invariant CheckedUpTo(m, structural, graph, prohibitions, m.classes.Keys - rest)
      decreases |rest|
    {
      var key :| key in rest;
      ghost var done := m.classes.Keys - rest;
      var found, own, stated, edges := CheckClass(m, key);
      CheckedGrows(m, structural, graph, prohibitions, done, key, found, edges, stated);
      assert m.classes.Keys - (rest - {key}) == done + {key};
      structural, graph, prohibitions := structural + found, graph + own, prohibitions + stated;
      rest := rest - {key};
    }
    assert m.classes.Keys - rest == m.classes.Keys;
    AllChecked(m, structural, graph, prohibitions);
    var paths := CheckPaths(m, graph, prohibitions);
    DiagnosisComplete(m, structural, prohibitions, paths);
    errors := structural + paths;
  }
}
