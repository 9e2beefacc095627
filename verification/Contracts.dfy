/** Runtime contracts resolved from an accepted model: per operation its call
    permissions, its own and inherited prohibitions, and its abstract dispatches. */
module Contracts {
  import opened Wrappers
  import opened ClassModel
  import opened StaticCheck

  datatype ContractRule = ContractRule(file: string, span: Span, operation: Key)

  datatype CallPermission = CallPermission(targets: set<Key>, sameReceiver: bool, rule: ContractRule)

  /** Effects that contracts mention and sessions do not check. */
  datatype UncheckedEffect = ReadsEffect | CreatesEffect

  datatype OperationContract = OperationContract(
    id: Key, kind: MethodKind, isAbstract: bool, invokes: seq<CallPermission>, prohibits: seq<CallPermission>,
    dispatches: set<Key>, uncheckedEffects: set<UncheckedEffect>)

  type Operations = map<Key, OperationContract>

  // ---------------------------------------------------------------- specification

  function RuleFor(m: Model, owner: Key, name: string, path: Path, targets: set<Key>): CallPermission
    requires owner in m.classes
  {
    CallPermission(targets, path.root == "self", ContractRule(m.classes[owner].file, path.span, owner + [name]))
  }

  predicate Wanted(effect: Effect, permission: bool) {
    if permission then effect.Invokes? else effect.ForbidTransitive?
  }

  /** The permissions, or the prohibitions, an envelope states, in source order. */
  ghost function RulesIn(m: Model, owner: Key, name: string, effects: seq<Effect>,
                         permission: bool): seq<CallPermission>
    requires owner in m.classes
  {
    if effects == [] then []
    else
      RulesIn(m, owner, name, effects[..|effects| - 1], permission)
      + OwnRule(m, owner, name, effects[|effects| - 1], permission)
  }

  ghost function OwnRule(m: Model, owner: Key, name: string, effect: Effect, permission: bool): seq<CallPermission>
    requires owner in m.classes
  {
    if Wanted(effect, permission) && Targets(m, owner, m.classes[owner], effect.path).Ok?
    then [RuleFor(m, owner, name, effect.path, Targets(m, owner, m.classes[owner], effect.path).value)] else []
  }

  function DeclaredEffects(m: Model, owner: Key, name: string): seq<Effect>
    requires owner in m.classes
  {
    var found := FindMethod(m.classes[owner].decl.methods, name);
    if found.Some? && found.value.envelope.Some? then found.value.envelope.value else []
  }

  /** Prohibitions stated along a base chain for methods called `name`. */
  ghost function InheritedRules(m: Model, chain: seq<Key>, name: string): seq<CallPermission> {
    if chain == [] then []
    else
      InheritedRules(m, chain[..|chain| - 1], name) + BaseRules(m, chain[|chain| - 1], name)
  }

  ghost function BaseRules(m: Model, owner: Key, name: string): seq<CallPermission> {
    if owner in m.classes then RulesIn(m, owner, name, DeclaredEffects(m, owner, name), false) else []
  }

  /** Of an operation's own effects, the kinds that are not checked. */
  function UncheckedIn(effects: seq<Effect>): (unchecked: set<UncheckedEffect>)
    ensures ReadsEffect in unchecked <==> exists j :: 0 <= j < |effects| && effects[j].Reads?
    ensures CreatesEffect in unchecked <==> exists j :: 0 <= j < |effects| && effects[j].Creates?
  {
    if effects == [] then {}
    else
      var n := |effects| - 1;
      assert effects == effects[..n] + [effects[n]];
      UncheckedIn(effects[..n]) +
      if effects[n].Reads? then {ReadsEffect} else if effects[n].Creates? then {CreatesEffect} else {}
  }

  ghost function ContractOf(m: Model, key: Key, method_: Method): OperationContract
    requires key in m.classes
  {
    OperationContract(
      key + [method_.name], method_.kind, method_.envelope.None?,
      RulesIn(m, key, method_.name, DeclaredEffects(m, key, method_.name), true),
      InheritedRules(m, Ancestors(m, key), method_.name),
      if method_.envelope.None? then Implementations(m, key, method_.name) - {key + [method_.name]} else {},
      UncheckedIn(DeclaredEffects(m, key, method_.name)))
  }

  predicate IsOperation(m: Model, id: Key) {
    id != [] && OwnerOf(id) in m.classes && DeclaresIn(m.classes[OwnerOf(id)].decl.methods, NameOf(id))
  }

  ghost function ContractAt(m: Model, id: Key): OperationContract
    requires IsOperation(m, id)
  {
    ContractOf(m, OwnerOf(id), FindMethod(m.classes[OwnerOf(id)].decl.methods, NameOf(id)).value)
  }

  /** `operations` has exactly the declared operations, each with its contract. */
  ghost predicate Resolved(m: Model, operations: Operations) {
    && (forall id :: id in operations <==> IsOperation(m, id))
    && (forall id :: id in operations ==> operations[id] == ContractAt(m, id))
  }

  // ---------------------------------------------------------------- resolution

  lemma {:induction false} FirstWithName(methods: seq<Method>, i: nat)
    requires i < |methods| && !DeclaresIn(methods[..i], methods[i].name)
    ensures FindMethod(methods, methods[i].name) == Some(methods[i])
  {
    if i > 0 {
      assert methods[0].name != methods[i].name by {
        assert methods[..i][0] == methods[0];
      }
      var rest := methods[1..];
      assert rest[i - 1] == methods[i];
      assert rest[..i - 1] == methods[..i][1..];
      FirstWithName(rest, i - 1);
    }
  }

  method ComputeOwnRule(m: Model, owner: Key, name: string, effect: Effect,
                        permission: bool) returns (rules: seq<CallPermission>)
    requires owner in m.classes
    ensures rules == OwnRule(m, owner, name, effect, permission)
  {
    rules := [];
    if Wanted(effect, permission) {
      var targets := ComputeTargets(m, owner, m.classes[owner], effect.path);
      if targets.Ok? {
        rules := [RuleFor(m, owner, name, effect.path, targets.value)];
      }
    }
  }

  method ComputeRules(m: Model, owner: Key, name: string, effects: seq<Effect>,
                      permission: bool) returns (rules: seq<CallPermission>)
    requires owner in m.classes
    ensures rules == RulesIn(m, owner, name, effects, permission)
  {
    hide OwnRule;
    rules := [];
    for j := 0 to |effects|
      invariant rules == RulesIn(m, owner, name, effects[..j], permission)
    {
      assert effects[..j + 1][..j] == effects[..j];
      var own := ComputeOwnRule(m, owner, name, effects[j], permission);
      rules := rules + own;
    }
    assert effects[..|effects|] == effects;
  }

  method ComputeInheritedRules(m: Model, key: Key, name: string) returns (rules: seq<CallPermission>)
    ensures rules == InheritedRules(m, Ancestors(m, key), name)
  {
    hide RulesIn, AncestorsFrom;
    var chain := ComputeAncestors(m, key);
    rules := [];
    for i := 0 to |chain|
      invariant rules == InheritedRules(m, chain[..i], name)
    {
      assert chain[..i + 1][..i] == chain[..i];
      if chain[i] in m.classes {
        var own := ComputeRules(m, chain[i], name, DeclaredEffects(m, chain[i], name), false);
        rules := rules + own;
      }
    }
    assert chain[..|chain|] == chain;
  }

  method ComputeUnchecked(effects: seq<Effect>) returns (unchecked: set<UncheckedEffect>)
    ensures unchecked == UncheckedIn(effects)
  {
    unchecked := {};
    for j := 0 to |effects|
      invariant unchecked == UncheckedIn(effects[..j])
    {
      assert effects[..j + 1][..j] == effects[..j];
      if effects[j].Reads? {
        unchecked := unchecked + {ReadsEffect};
      } else if effects[j].Creates? {
        unchecked := unchecked + {CreatesEffect};
      }
    }
    assert effects[..|effects|] == effects;
  }

  method ResolveOperation(m: Model, key: Key, method_: Method) returns (contract: OperationContract)
    requires key in m.classes
    ensures contract == ContractOf(m, key, method_)
  {
    var id := key + [method_.name];
    var invokes := ComputeRules(m, key, method_.name, DeclaredEffects(m, key, method_.name), true);
    var prohibits := ComputeInheritedRules(m, key, method_.name);
    var dispatches := {};
    if method_.envelope.None? {
      var found := ComputeImplementations(m, key, method_.name);
      dispatches := found - {id};
    }
    var unchecked := ComputeUnchecked(DeclaredEffects(m, key, method_.name));
    contract := OperationContract(id, method_.kind, method_.envelope.None?, invokes, prohibits, dispatches, unchecked);
  }

  /** The contracts of the first `n` methods of a class. */
  ghost predicate ResolvedPrefix(m: Model, key: Key, n: nat, operations: Operations)
    requires key in m.classes && n <= |m.classes[key].decl.methods|
  {
    && (forall id :: id in operations
          <==> id != [] && OwnerOf(id) == key && DeclaresIn(m.classes[key].decl.methods[..n], NameOf(id)))
    && (forall id :: id in operations ==> IsOperation(m, id) && operations[id] == ContractAt(m, id))
  }

  lemma MethodIsDeclared(methods: seq<Method>, i: nat)
    requires i < |methods|
    ensures DeclaresIn(methods, methods[i].name)
  {
  }

  lemma ResolvedGrows(m: Model, key: Key, n: nat, operations: Operations)
    requires key in m.classes && n < |m.classes[key].decl.methods| && MethodAccepted(m, key, n)
    requires ResolvedPrefix(m, key, n, operations)
    ensures var current := m.classes[key].decl.methods[n];
      ResolvedPrefix(m, key, n + 1, operations[key + [current.name] := ContractOf(m, key, current)])
  {
    hide ContractOf, OverrideAccepted, EnvelopeAccepted, FindMethod, DeclaresIn;
    var methods := m.classes[key].decl.methods;
    var id := key + [methods[n].name];
    OperationParts(key, methods[n].name);
    FirstWithName(methods, n);
    forall other: Key | other != [] && OwnerOf(other) == key
      ensures DeclaresIn(methods[..n + 1], NameOf(other)) <==> DeclaresIn(methods[..n], NameOf(other)) || other == id
    {
      DeclaresSnoc(methods, n, NameOf(other));
      assert other == OwnerOf(other) + [NameOf(other)];
    }
    MethodIsDeclared(methods, n);
  }

  method ResolveClass(m: Model, key: Key) returns (operations: Operations)
    requires key in m.classes && forall i :: 0 <= i < |m.classes[key].decl.methods| ==> MethodAccepted(m, key, i)
    ensures ResolvedPrefix(m, key, |m.classes[key].decl.methods|, operations)
  {
    operations := map[];
    var methods := m.classes[key].decl.methods;
    for i := 0 to |methods|
      invariant ResolvedPrefix(m, key, i, operations)
    {
      var contract := ResolveOperation(m, key, methods[i]);
      ResolvedGrows(m, key, i, operations);
      operations := operations[key + [methods[i].name] := contract];
    }
  }

  lemma DeclaresSnoc(methods: seq<Method>, i: nat, name: string)
    requires i < |methods|
    ensures DeclaresIn(methods[..i + 1], name) <==> DeclaresIn(methods[..i], name) || name == methods[i].name
  {
    if DeclaresIn(methods[..i], name) {
      var j :| 0 <= j < i && methods[..i][j].name == name;
      assert methods[..i + 1][j].name == name;
    }
    if DeclaresIn(methods[..i + 1], name) {
      var j :| 0 <= j < i + 1 && methods[..i + 1][j].name == name;
      assert j < i ==> methods[..i][j].name == name;
    }
    assert methods[..i + 1][i] == methods[i];
  }

  ghost predicate ResolvedUpTo(m: Model, operations: Operations, done: set<Key>) {
    && (forall id :: id in operations <==> IsOperation(m, id) && OwnerOf(id) in done)
    && (forall id :: id in operations ==> operations[id] == ContractAt(m, id))
  }

  /** Resolution fails with the validator's errors, or yields the contract of every declared operation. */
  method ResolveContracts(m: Model) returns (result: Result<Operations, seq<ModelError>>)
    ensures result.Ok? <==> Accepted(m)
    ensures result.Ok? ==> Resolved(m, result.value)
    ensures result.Err? ==> Diagnoses(m, result.error)
  {
    hide NoForbiddenPath, ContractAt, MethodAccepted, BaseAccepted, Complete;
    var errors := Check(m);
    if errors != [] {
      return Err(errors);
    }
    var operations: Operations := map[];
    var rest := m.classes.Keys;
    while rest != {}
      invariant rest <= m.classes.Keys
      invariant ResolvedUpTo(m, operations, m.classes.Keys - rest)
      decreases |rest|
    {
      var key :| key in rest;
      assert ClassAccepted(m, key);
      var own := ResolveClass(m, key);
      assert m.classes[key].decl.methods[..|m.classes[key].decl.methods|] == m.classes[key].decl.methods;
      operations := operations + own;
      rest := rest - {key};
    }
    result := Ok(operations);
  }

  // ---------------------------------------------------------------- what the rules are

  ghost predicate StatesRule(m: Model, owner: Key, name: string, effect: Effect, permission: bool, rule: CallPermission)
    requires owner in m.classes
  {
    && Wanted(effect, permission)
    && Targets(m, owner, m.classes[owner], effect.path).Ok?
    && rule == RuleFor(m, owner, name, effect.path, Targets(m, owner, m.classes[owner], effect.path).value)
  }

  lemma OwnRuleMembership(m: Model, owner: Key, name: string, effect: Effect, permission: bool, rule: CallPermission)
    requires owner in m.classes
    ensures rule in OwnRule(m, owner, name, effect, permission)
       <==> StatesRule(m, owner, name, effect, permission, rule)
  {
  }

  ghost predicate SomeStatesRule(m: Model, owner: Key, name: string, effects: seq<Effect>, permission: bool,
                                 rule: CallPermission)
    requires owner in m.classes
  {
    exists j :: 0 <= j < |effects| && StatesRule(m, owner, name, effects[j], permission, rule)
  }

  lemma SomeStatesRuleSnoc(m: Model, owner: Key, name: string, effects: seq<Effect>, last: Effect, permission: bool,
                           rule: CallPermission)
    requires owner in m.classes
    ensures SomeStatesRule(m, owner, name, effects + [last], permission, rule)
       <==> SomeStatesRule(m, owner, name, effects, permission, rule)
            || StatesRule(m, owner, name, last, permission, rule)
  {
    hide StatesRule;
    var all := effects + [last];
    assert all[|effects|] == last;
    assert forall j :: 0 <= j < |effects| ==> all[j] == effects[j];
    if SomeStatesRule(m, owner, name, effects, permission, rule) {
      var j :| 0 <= j < |effects| && StatesRule(m, owner, name, effects[j], permission, rule);
      assert StatesRule(m, owner, name, all[j], permission, rule);
    }
  }

  lemma {:induction false} RuleMembership(m: Model, owner: Key, name: string, effects: seq<Effect>, permission: bool,
                                          rule: CallPermission)
    requires owner in m.classes
    ensures rule in RulesIn(m, owner, name, effects, permission)
       <==> SomeStatesRule(m, owner, name, effects, permission, rule)
  {
    hide StatesRule, OwnRule;
    if effects == [] {
      assert !SomeStatesRule(m, owner, name, effects, permission, rule);
    } else {
      var front, last := effects[..|effects| - 1], effects[|effects| - 1];
      assert effects == front + [last];
      RuleMembership(m, owner, name, front, permission, rule);
      OwnRuleMembership(m, owner, name, last, permission, rule);
      SomeStatesRuleSnoc(m, owner, name, front, last, permission, rule);
    }
  }

  ghost predicate StatedAlong(m: Model, chain: seq<Key>, name: string, rule: CallPermission) {
    exists i :: 0 <= i < |chain| && rule in BaseRules(m, chain[i], name)
  }

  lemma {:induction false} InheritedMembership(m: Model, chain: seq<Key>, name: string, rule: CallPermission)
    ensures rule in InheritedRules(m, chain, name) <==> StatedAlong(m, chain, name, rule)
  {
    hide BaseRules;
    if chain != [] {
      var n := |chain| - 1;
      var front := chain[..n];
      InheritedMembership(m, front, name, rule);
      if StatedAlong(m, chain, name, rule) {
        var i :| 0 <= i < |chain| && rule in BaseRules(m, chain[i], name);
        assert i < n ==> front[i] == chain[i];
      }
      if StatedAlong(m, front, name, rule) {
        var i :| 0 <= i < n && rule in BaseRules(m, front[i], name);
        assert chain[i] == front[i];
      }
    }
  }

  /** In a well-formed model a named method is unique, so `FindMethod` loses nothing. */
  lemma UniqueMethod(m: Model, key: Key, i: nat)
    requires WellFormed(m) && key in m.classes && i < |m.classes[key].decl.methods|
    ensures FindMethod(m.classes[key].decl.methods, m.classes[key].decl.methods[i].name)
         == Some(m.classes[key].decl.methods[i])
  {
    assert ClassAccepted(m, key);
    assert MethodAccepted(m, key, i);
    FirstWithName(m.classes[key].decl.methods, i);
  }

  // ---------------------------------------------------------------- what a contract says

  /** A method of the class states an `invokes`, or a `forbid transitive`, of `path`. */
  ghost predicate States(m: Model, owner: Key, name: string, permission: bool, path: Path) {
    owner in m.classes && exists i :: StatesAt(m.classes[owner].decl.methods, i, name, permission, path)
  }

  ghost predicate StatesAt(methods: seq<Method>, i: int, name: string, permission: bool, path: Path) {
    0 <= i < |methods| && methods[i].name == name && methods[i].envelope.Some?
    && (if permission then Invokes(path) else ForbidTransitive(path)) in methods[i].envelope.value
  }

  /** The rule a stated path becomes: what the call may run, whether it is bound to the
      receiver, and where it stands. */
  ghost predicate Says(m: Model, owner: Key, name: string, path: Path, rule: CallPermission) {
    && owner in m.classes
    && Dispatches(m, owner, m.classes[owner], path, Ok(rule.targets))
    && (rule.sameReceiver <==> path.root == "self")
    && rule.rule.file == m.classes[owner].file && rule.rule.span == path.span
    && rule.rule.operation == owner + [name]
  }

  ghost predicate SaysStated(m: Model, owner: Key, name: string, permission: bool, rule: CallPermission) {
    exists path :: States(m, owner, name, permission, path) && Says(m, owner, name, path, rule)
  }

  /** In a well-formed model every stated rule is kept, and nothing else. */
  lemma StatedRules(m: Model, owner: Key, name: string, permission: bool, rule: CallPermission)
    requires WellFormed(m) && owner in m.classes
    ensures rule in RulesIn(m, owner, name, DeclaredEffects(m, owner, name), permission)
       <==> SaysStated(m, owner, name, permission, rule)
  {
    hide RulesIn, Targets, Dispatches, WellFormed;
    var methods := m.classes[owner].decl.methods;
    var effects := DeclaredEffects(m, owner, name);
    RuleMembership(m, owner, name, effects, permission, rule);
    if j :| 0 <= j < |effects| && StatesRule(m, owner, name, effects[j], permission, rule) {
      var path := effects[j].path;
      TargetsDispatch(m, owner, m.classes[owner], path);
      var found := FindMethod(methods, name).value;
      var i :| 0 <= i < |methods| && methods[i] == found;
      assert StatesAt(methods, i, name, permission, path);
      assert States(m, owner, name, permission, path);
      assert Dispatches(m, owner, m.classes[owner], path, Ok(rule.targets));
      assert Says(m, owner, name, path, rule);
    }
    if path :| States(m, owner, name, permission, path) && Says(m, owner, name, path, rule) {
      var i :| StatesAt(methods, i, name, permission, path);
      UniqueMethod(m, owner, i);
      var stated := if permission then Invokes(path) else ForbidTransitive(path);
      var j :| 0 <= j < |effects| && effects[j] == stated;
      StatedResolves(m, owner, i, j);
      TargetsDispatch(m, owner, m.classes[owner], path);
      DispatchIsUnique(m, owner, m.classes[owner], path, rule.targets, Targets(m, owner, m.classes[owner], path).value);
      assert StatesRule(m, owner, name, effects[j], permission, rule);
    }
  }

  lemma StatedResolves(m: Model, owner: Key, i: nat, j: nat)
    requires WellFormed(m) && owner in m.classes && i < |m.classes[owner].decl.methods|
    requires m.classes[owner].decl.methods[i].envelope.Some? && j < |m.classes[owner].decl.methods[i].envelope.value|
    ensures CallResolves(m, owner, m.classes[owner].decl.methods[i].envelope.value[j])
  {
    hide CallResolves, OverrideAccepted, Complete, BaseAccepted;
    assert ClassAccepted(m, owner);
    assert MethodAccepted(m, owner, i);
  }

  ghost predicate ForbiddenAbove(m: Model, key: Key, name: string, rule: CallPermission) {
    exists owner :: Inherits(m, key, owner) && SaysStated(m, owner, name, false, rule)
  }

  /** A resolved contract says what its method declares: its own permissions, the prohibitions stated for
      the method by the class or any class above it, and, when abstract, the implementations below it. */
  lemma ContractSays(m: Model, operations: Operations, key: Key, i: nat)
    requires WellFormed(m) && Resolved(m, operations) && key in m.classes && i < |m.classes[key].decl.methods|
    ensures var method_ := m.classes[key].decl.methods[i];
      var id := key + [method_.name];
      && id in operations && operations[id].id == id && operations[id].kind == method_.kind
      && (operations[id].isAbstract <==> method_.envelope.None?)
      && (forall rule :: rule in operations[id].invokes <==> SaysStated(m, key, method_.name, true, rule))
      && (forall rule :: rule in operations[id].prohibits <==> ForbiddenAbove(m, key, method_.name, rule))
      && (forall target :: target in operations[id].dispatches <==>
            method_.envelope.None? && target != id && RunsBelow(m, key, method_.name, target))
  {
    hide RulesIn, InheritedRules, SaysStated, Ancestors, Implementations, RunsBelow, WellFormed, UncheckedIn, Inherits;
    var method_ := m.classes[key].decl.methods[i];
    var name := method_.name;
    var id := key + [name];
    OperationParts(key, name);
    UniqueMethod(m, key, i);
    assert IsOperation(m, id);
    assert operations[id] == ContractOf(m, key, method_);
    ImplementationsRunBelow(m, key, name);
    forall rule
      ensures rule in RulesIn(m, key, name, DeclaredEffects(m, key, name), true)
         <==> SaysStated(m, key, name, true, rule)
      ensures rule in InheritedRules(m, Ancestors(m, key), name) <==> ForbiddenAbove(m, key, name, rule)
    {
      StatedRules(m, key, name, true, rule);
      InheritedSay(m, key, name, rule);
    }
  }

  lemma InheritedSay(m: Model, key: Key, name: string, rule: CallPermission)
    requires WellFormed(m)
    ensures rule in InheritedRules(m, Ancestors(m, key), name) <==> ForbiddenAbove(m, key, name, rule)
  {
    hide RulesIn, SaysStated, Ancestors, WellFormed, InheritedRules, Inherits, DeclaredEffects;
    var chain := Ancestors(m, key);
    InheritedMembership(m, chain, name, rule);
    forall owner
      ensures owner in chain <==> Inherits(m, key, owner)
      ensures rule in BaseRules(m, owner, name) <==> SaysStated(m, owner, name, false, rule)
    {
      AncestorsAreInherited(m, key, owner);
      if owner in m.classes {
        StatedRules(m, owner, name, false, rule);
      } else {
        NothingStated(m, owner, name, rule);
      }
    }
    if StatedAlong(m, chain, name, rule) {
      var n :| 0 <= n < |chain| && rule in BaseRules(m, chain[n], name);
      assert Inherits(m, key, chain[n]);
    }
    if owner :| Inherits(m, key, owner) && SaysStated(m, owner, name, false, rule) {
      var n :| 0 <= n < |chain| && chain[n] == owner;
      assert rule in BaseRules(m, chain[n], name);
    }
  }

  lemma NothingStated(m: Model, owner: Key, name: string, rule: CallPermission)
    requires owner !in m.classes
    ensures !SaysStated(m, owner, name, false, rule)
  {
  }

  /** The rule a prohibition turns into at run time. */
  function RuleOf(m: Model, p: Prohibition): CallPermission
    requires p.start != [] && OwnerOf(p.start) in m.classes
  {
    RuleFor(m, OwnerOf(p.start), NameOf(p.start), p.path, p.forbidden)
  }

  lemma ProhibitionIsRule(m: Model, p: Prohibition)
    requires WellFormed(m) && IsProhibition(m, p)
    ensures RuleOf(m, p) in BaseRules(m, OwnerOf(p.start), NameOf(p.start))
  {
    var key, methods := OwnerOf(p.start), m.classes[OwnerOf(p.start)].decl.methods;
    var i :| 0 <= i < |methods| && p.start == key + [methods[i].name] && StatedBy(m, key, methods[i], p);
    UniqueMethod(m, key, i);
    var effects := methods[i].envelope.value;
    var j :| 0 <= j < |effects| && effects[j] == ForbidTransitive(p.path);
    assert StatesRule(m, key, NameOf(p.start), effects[j], false, RuleOf(m, p));
    RuleMembership(m, key, NameOf(p.start), effects, false, RuleOf(m, p));
  }

  lemma RuleIsProhibition(m: Model, owner: Key, name: string, rule: CallPermission) returns (p: Prohibition)
    requires rule in BaseRules(m, owner, name)
    ensures IsProhibition(m, p) && p.start == owner + [name] && RuleOf(m, p) == rule
  {
    hide Targets, RulesIn;
    var effects := DeclaredEffects(m, owner, name);
    assert rule in RulesIn(m, owner, name, effects, false);
    RuleMembership(m, owner, name, effects, false, rule);
    var j :| 0 <= j < |effects| && StatesRule(m, owner, name, effects[j], false, rule);
    p := Prohibition(owner + [name], effects[j].path, rule.targets);
    OperationParts(owner, name);
    var methods := m.classes[owner].decl.methods;
    var found := FindMethod(methods, name).value;
    var i :| 0 <= i < |methods| && methods[i] == found;
    assert StatedBy(m, owner, methods[i], p);
  }

  ghost predicate Constrains(m: Model, p: Prohibition, id: Key) {
    IsProhibition(m, p) && id in Implementations(m, OwnerOf(p.start), NameOf(p.start))
  }

  lemma OperationResolved(m: Model, operations: Operations, id: Key)
    requires Resolved(m, operations) && id in operations
    ensures id != [] && Declares(m, OwnerOf(id), NameOf(id))
    ensures operations[id].prohibits == InheritedRules(m, Ancestors(m, OwnerOf(id)), NameOf(id))
  {
    hide Ancestors, Implementations, RulesIn, InheritedRules, DeclaredEffects, UncheckedIn;
    assert IsOperation(m, id);
    var found := FindMethod(m.classes[OwnerOf(id)].decl.methods, NameOf(id)).value;
    assert found.name == NameOf(id);
    assert operations[id] == ContractOf(m, OwnerOf(id), found);
  }

  /** A prohibition reaches exactly the same-named methods declared at or below its class. */
  lemma ConstrainsIff(m: Model, p: Prohibition, id: Key)
    requires IsProhibition(m, p) && id != [] && Declares(m, OwnerOf(id), NameOf(id)) && NameOf(p.start) == NameOf(id)
    ensures Constrains(m, p, id) <==> OwnerOf(p.start) in Ancestors(m, OwnerOf(id))
  {
    hide StatedBy, Ancestors, Implementations, Declares;
    StatedIsDeclared(m, p);
    ImplementationIffAncestor(m, OwnerOf(p.start), OwnerOf(id), NameOf(id));
    assert id == OwnerOf(id) + [NameOf(id)];
  }

  /** Prohibitions inherited upward at run time are exactly those the static search
      applies downward: an operation carries a rule iff some declared prohibition
      with that rule has the operation among the implementations it starts from. */
  lemma RulesMatchStaticProhibitions(m: Model, operations: Operations, id: Key, rule: CallPermission)
    requires WellFormed(m) && Resolved(m, operations) && id in operations
    ensures rule in operations[id].prohibits <==>
      exists p :: Constrains(m, p, id) && NameOf(p.start) == NameOf(id) && RuleOf(m, p) == rule
  {
    hide StatedBy, Ancestors, Implementations, Declares, BaseRules, InheritedRules, WellFormed, Resolved, RuleOf;
    OperationResolved(m, operations, id);
    var name, chain := NameOf(id), Ancestors(m, OwnerOf(id));
    InheritedMembership(m, chain, name, rule);
    if rule in operations[id].prohibits {
      var i :| 0 <= i < |chain| && rule in BaseRules(m, chain[i], name);
      var p := RuleIsProhibition(m, chain[i], name, rule);
      OperationParts(chain[i], name);
      ConstrainsIff(m, p, id);
    }
    if p :| Constrains(m, p, id) && NameOf(p.start) == NameOf(id) && RuleOf(m, p) == rule {
      ConstrainsIff(m, p, id);
      ProhibitionIsRule(m, p);
      var i :| 0 <= i < |chain| && chain[i] == OwnerOf(p.start);
      assert rule in BaseRules(m, chain[i], name);
    }
  }

  lemma StatedIsDeclared(m: Model, p: Prohibition)
    requires IsProhibition(m, p)
    ensures Declares(m, OwnerOf(p.start), NameOf(p.start))
  {
    var methods := m.classes[OwnerOf(p.start)].decl.methods;
    var i :| 0 <= i < |methods| && p.start == OwnerOf(p.start) + [methods[i].name]
      && StatedBy(m, OwnerOf(p.start), methods[i], p);
    OperationParts(OwnerOf(p.start), methods[i].name);
  }

  /** `caller` may invoke `callee` directly, whatever the receivers. */
  ghost predicate Permits(operations: Operations, caller: Key, callee: Key) {
    caller in operations && exists i ::
      0 <= i < |operations[caller].invokes| && callee in operations[caller].invokes[i].targets
  }

  lemma PermissionIsCall(m: Model, operations: Operations, caller: Key, callee: Key)
    requires Resolved(m, operations) && Permits(operations, caller, callee)
    ensures Calls(m, caller, callee)
  {
    hide Targets;
    assert IsOperation(m, caller);
    var key, name := OwnerOf(caller), NameOf(caller);
    var methods := m.classes[key].decl.methods;
    var found := FindMethod(methods, name).value;
    var effects := DeclaredEffects(m, key, name);
    var i :| 0 <= i < |operations[caller].invokes| && callee in operations[caller].invokes[i].targets;
    var rule := operations[caller].invokes[i];
    assert rule in RulesIn(m, key, name, effects, true);
    RuleMembership(m, key, name, effects, true, rule);
    var j :| 0 <= j < |effects| && StatesRule(m, key, name, effects[j], true, rule);
    assert EffectCalls(m, key, effects[j], callee);
    var k :| 0 <= k < |methods| && methods[k] == found;
    assert MethodCalls(m, key, methods[k], callee);
  }

  lemma CallIsPermission(m: Model, operations: Operations, caller: Key, callee: Key)
    requires WellFormed(m) && Resolved(m, operations) && Calls(m, caller, callee)
    ensures Permits(operations, caller, callee)
  {
    hide Targets;
    var key, name := OwnerOf(caller), NameOf(caller);
    var methods := m.classes[key].decl.methods;
    var k :| 0 <= k < |methods| && methods[k].name == name && MethodCalls(m, key, methods[k], callee);
    UniqueMethod(m, key, k);
    var effects := methods[k].envelope.value;
    var j :| 0 <= j < |effects| && EffectCalls(m, key, effects[j], callee);
    var rule := RuleFor(m, key, name, effects[j].path, Targets(m, key, m.classes[key], effects[j].path).value);
    assert StatesRule(m, key, name, effects[j], true, rule);
    RuleMembership(m, key, name, effects, true, rule);
    assert IsOperation(m, caller);
    assert operations[caller].invokes == RulesIn(m, key, name, effects, true);
  }

  /** The runtime permissions are exactly the edges of the static call graph. */
  lemma PermissionsAreCalls(m: Model, operations: Operations, caller: Key, callee: Key)
    requires WellFormed(m) && Resolved(m, operations)
    ensures Permits(operations, caller, callee) <==> Calls(m, caller, callee)
  {
    hide Calls, Permits, WellFormed, Resolved;
    if Permits(operations, caller, callee) {
      PermissionIsCall(m, operations, caller, callee);
    }
    if Calls(m, caller, callee) {
      CallIsPermission(m, operations, caller, callee);
    }
  }
}
