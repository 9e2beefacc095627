/** The link between the two halves of the contract checker: what the static
    path search accepts, the runtime session cannot find forbidden. */
module StaticSoundness {
  import opened Wrappers
  import opened ClassModel
  import opened StaticCheck
  import opened Contracts
  import opened ContractSession
  import opened SessionReference

  /** One admitted call step: a declared permission or, when `dispatch` is set, an
      abstract operation entering one of its overrides. */
  ghost predicate Admits(operations: Operations, dispatch: bool, caller: Key, callee: Key) {
    || Permits(operations, caller, callee)
    || (dispatch && caller in operations && callee in operations[caller].dispatches)
  }

  ghost predicate AdmitsAt(operations: Operations, dispatch: bool, path: seq<Key>, i: int) {
    0 <= i < |path| - 1 && Admits(operations, dispatch, path[i], path[i + 1])
  }

  ghost predicate AdmittedPath(operations: Operations, dispatch: bool, path: seq<Key>) {
    forall i :: 0 <= i < |path| - 1 ==> AdmitsAt(operations, dispatch, path, i)
  }

  /** A chain of admitted calls from an operation into the targets of one of its prohibitions. */
  ghost predicate BreaksRule(operations: Operations, dispatch: bool, rule: CallPermission, path: seq<Key>) {
    && |path| >= 2 && AdmittedPath(operations, dispatch, path)
    && path[0] in operations && rule in operations[path[0]].prohibits
    && path[|path| - 1] in rule.targets
  }

  ghost predicate Safe(operations: Operations, dispatch: bool) {
    forall rule, path :: !BreaksRule(operations, dispatch, rule, path)
  }

  /** A run whose entries are requests, each below a caller that admits it; the
      root operation, receivers, exits and reported gaps are unconstrained. */
  ghost predicate AdmittedRun(operations: Operations, roots: set<Key>, start: State, calls: seq<Call>, dispatch: bool) {
    forall n :: 0 <= n < |calls| ==>
      AdmittedCall(operations, dispatch, Run(operations, roots, start, calls[..n]).active, calls[n])
  }

  ghost predicate AdmittedCall(operations: Operations, dispatch: bool, active: seq<Invocation>, call: Call) {
    call.EnterCall? ==>
      && call.kind.Request?
      && (active != [] ==> Admits(operations, dispatch, active[|active| - 1].operation, call.operation))
  }

  ghost predicate FindsForbidden(state: State) {
    exists v :: v in state.violations && v.kind == ForbiddenTransitive
  }

  function OperationsOf(active: seq<Invocation>): seq<Key> {
    seq(|active|, i requires 0 <= i < |active| => active[i].operation)
  }

  // ---------------------------------------------------------------- no violation on safe models

  lemma {:induction false} ForbiddenNeedsRestriction(active: seq<Invocation>, restrictions: seq<Restriction>,
                                                     invocation: Invocation, v: Violation)
    requires v in RestrictionsCheck(active, restrictions, invocation).violations
    ensures restrictions != []
  {
  }

  /** Outside the prohibition check nothing reports a forbidden transitive call. */
  lemma OnlyProhibitionsForbid(operations: Operations, roots: set<Key>, active: seq<Invocation>,
                               invocation: Invocation, v: Violation)
    requires v in EntryCheck(operations, roots, active, invocation).violations && v.kind == ForbiddenTransitive
    ensures v in ProhibitionCheck(operations, active, invocation).violations
  {
    hide ProhibitionCheck;
  }

  lemma SafeEntryIsAllowed(operations: Operations, dispatch: bool, roots: set<Key>, active: seq<Invocation>,
                           invocation: Invocation)
    requires Safe(operations, dispatch)
    requires AdmittedPath(operations, dispatch, OperationsOf(active) + [invocation.operation])
    ensures forall v :: v in EntryCheck(operations, roots, active, invocation).violations ==>
      v.kind != ForbiddenTransitive
  {
    hide EntryCheck, Safe;
    forall v | v in EntryCheck(operations, roots, active, invocation).violations
      ensures v.kind != ForbiddenTransitive
    {
      if v.kind == ForbiddenTransitive {
        OnlyProhibitionsForbid(operations, roots, active, invocation, v);
        var restrictions := Restrictions(operations, active, invocation.operation);
        ForbiddenNeedsRestriction(active, restrictions, invocation, v);
        var r := restrictions[0];
        RestrictionsAre(operations, active, invocation.operation, r);
        RestrictionBreaksRule(operations, dispatch, active, invocation, r);
      }
    }
  }

  lemma RestrictionBreaksRule(operations: Operations, dispatch: bool, active: seq<Invocation>, invocation: Invocation,
                              r: Restriction)
    requires AdmittedPath(operations, dispatch, OperationsOf(active) + [invocation.operation])
    requires r.ancestor in active && r.ancestor.operation in operations
    requires r.rule in operations[r.ancestor.operation].prohibits && invocation.operation in r.rule.targets
    ensures !Safe(operations, dispatch)
  {
    var all := OperationsOf(active) + [invocation.operation];
    var a :| 0 <= a < |active| && active[a] == r.ancestor;
    var path := all[a..];
    forall i | 0 <= i < |path| - 1
      ensures AdmitsAt(operations, dispatch, path, i)
    {
      assert AdmitsAt(operations, dispatch, all, a + i);
    }
    assert BreaksRule(operations, dispatch, r.rule, path);
  }

  ghost predicate Unforbidden(operations: Operations, dispatch: bool, state: State) {
    AdmittedPath(operations, dispatch, OperationsOf(state.active)) && !FindsForbidden(state)
  }

  lemma SafeStep(operations: Operations, dispatch: bool, roots: set<Key>, state: State, call: Call)
    requires Safe(operations, dispatch) && Unforbidden(operations, dispatch, state)
    requires AdmittedCall(operations, dispatch, state.active, call)
    ensures Unforbidden(operations, dispatch, Step(operations, roots, state, call))
  {
    hide EntryCheck, Admits, Safe;
    match call
    case EnterCall(operation, receiver, kind) =>
      var invocation := Entered(state, operation, receiver, kind);
      var before := OperationsOf(state.active);
      var after := OperationsOf(state.active + [invocation]);
      assert after == before + [operation];
      forall i | 0 <= i < |after| - 1
        ensures AdmitsAt(operations, dispatch, after, i)
      {
        assert i < |before| - 1 ==> AdmitsAt(operations, dispatch, before, i);
      }
      SafeEntryIsAllowed(operations, dispatch, roots, state.active, invocation);
    case ExitCall(id) =>
      if IsActiveTop(state.active, id) {
        var before := OperationsOf(state.active);
        var after := OperationsOf(state.active[..|state.active| - 1]);
        forall i | 0 <= i < |after| - 1
          ensures AdmitsAt(operations, dispatch, after, i)
        {
          assert AdmitsAt(operations, dispatch, before, i);
        }
      }
    case GapCall(message) =>
  }

  lemma {:induction false} SafeRun(operations: Operations, dispatch: bool, roots: set<Key>, start: State,
                                   calls: seq<Call>)
    requires Safe(operations, dispatch) && Initial(operations, roots, start)
    requires AdmittedRun(operations, roots, start, calls, dispatch)
    ensures Unforbidden(operations, dispatch, Run(operations, roots, start, calls))
  {
    if calls != [] {
      hide Safe, Step, Unforbidden, AdmittedCall;
      var n := |calls| - 1;
      var front := calls[..n];
      forall k | 0 <= k < |front|
        ensures AdmittedCall(operations, dispatch, Run(operations, roots, start, front[..k]).active, front[k])
      {
        assert front[..k] == calls[..k];
      }
      SafeRun(operations, dispatch, roots, start, front);
      SafeStep(operations, dispatch, roots, Run(operations, roots, start, front), calls[n]);
    }
  }

  // ---------------------------------------------------------------- a violation on unsafe models

  const WITNESS: string := "receiver"

  /** Request every operation of a path, always on the same receiver. */
  function Descend(path: seq<Key>): seq<Call> {
    seq(|path|, i requires 0 <= i < |path| => EnterCall(path[i], Some(WITNESS), Request))
  }

  lemma RequestPushes(operations: Operations, roots: set<Key>, state: State, operation: Key)
    ensures var after := Step(operations, roots, state, EnterCall(operation, Some(WITNESS), Request)).active;
      && |after| == |state.active| + 1 && after[..|state.active|] == state.active
      && after[|state.active|].operation == operation && after[|state.active|].receiver == Some(WITNESS)
  {
    hide EntryCheck;
  }

  lemma {:induction false} DescendReaches(operations: Operations, roots: set<Key>, start: State, path: seq<Key>)
    requires Initial(operations, roots, start)
    ensures var end := Run(operations, roots, start, Descend(path));
      && OperationsOf(end.active) == path
      && (forall i :: 0 <= i < |end.active| ==> end.active[i].receiver == Some(WITNESS))
  {
    hide Step;
    if path != [] {
      var front := path[..|path| - 1];
      assert Descend(path)[..|path| - 1] == Descend(front);
      DescendReaches(operations, roots, start, front);
      RequestPushes(operations, roots, Run(operations, roots, start, Descend(front)), path[|path| - 1]);
    }
  }

  lemma {:induction false} SameReceiverForbids(active: seq<Invocation>, restrictions: seq<Restriction>,
                                               invocation: Invocation)
    requires restrictions != [] && invocation.receiver == Some(WITNESS)
    requires forall k :: 0 <= k < |restrictions| ==> restrictions[k].ancestor.receiver == Some(WITNESS)
    ensures exists v ::
      v in RestrictionsCheck(active, restrictions, invocation).violations && v.kind == ForbiddenTransitive
  {
    var last := restrictions[|restrictions| - 1];
    var own := RestrictionCheck(active, last, invocation).violations;
    assert own[0].kind == ForbiddenTransitive;
    var all := RestrictionsCheck(active, restrictions, invocation).violations;
    assert own[0] in all;
  }

  lemma BrokenRuleIsFound(operations: Operations, dispatch: bool, roots: set<Key>, start: State, rule: CallPermission,
                          path: seq<Key>)
    requires Initial(operations, roots, start) && BreaksRule(operations, dispatch, rule, path)
    ensures AdmittedRun(operations, roots, start, Descend(path), dispatch)
    ensures FindsForbidden(Run(operations, roots, start, Descend(path)))
  {
    var n := |path| - 1;
    var calls := Descend(path);
    forall k | 0 <= k < |calls|
      ensures AdmittedCall(operations, dispatch, Run(operations, roots, start, calls[..k]).active, calls[k])
    {
      assert calls[..k] == Descend(path[..k]);
      DescendReaches(operations, roots, start, path[..k]);
      var active := Run(operations, roots, start, calls[..k]).active;
      if active != [] {
        assert OperationsOf(active)[|active| - 1] == path[k - 1];
        assert AdmitsAt(operations, dispatch, path, k - 1);
      }
    }
    assert calls[..n] == Descend(path[..n]);
    LastEntryIsForbidden(operations, roots, start, rule, path);
  }

  lemma LastEntryIsForbidden(operations: Operations, roots: set<Key>, start: State, rule: CallPermission,
                             path: seq<Key>)
    requires Initial(operations, roots, start) && |path| >= 2
    requires path[0] in operations && rule in operations[path[0]].prohibits && path[|path| - 1] in rule.targets
    ensures FindsForbidden(Run(operations, roots, start, Descend(path)))
  {
    hide RestrictionsCheck, KnownCheck, RequestCheck;
    var n := |path| - 1;
    DescendReaches(operations, roots, start, path[..n]);
    assert Descend(path)[..n] == Descend(path[..n]);
    var before := Run(operations, roots, start, Descend(path[..n]));
    var active := before.active;
    assert OperationsOf(active)[0] == path[0];
    var invocation := Entered(before, path[n], Some(WITNESS), Request);
    var restrictions := Restrictions(operations, active, path[n]);
    var r := Restriction(active[0], rule);
    RestrictionsAre(operations, active, path[n], r);
    forall k | 0 <= k < |restrictions|
      ensures restrictions[k].ancestor.receiver == Some(WITNESS)
    {
      RestrictionsAre(operations, active, path[n], restrictions[k]);
    }
    SameReceiverForbids(active, restrictions, invocation);
    var v :| v in RestrictionsCheck(active, restrictions, invocation).violations && v.kind == ForbiddenTransitive;
    assert v in EntryCheck(operations, roots, active, invocation).violations;
  }

  /** Exactness, with or without dispatch frames: the prohibitions are safe along
      admitted chains iff no run of admitted requests is ever reported as a
      forbidden transitive call. */
  lemma SafeIffNeverForbidden(operations: Operations, dispatch: bool, roots: set<Key>, start: State)
    requires Initial(operations, roots, start)
    ensures Safe(operations, dispatch) <==>
      forall calls :: AdmittedRun(operations, roots, start, calls, dispatch) ==>
        !FindsForbidden(Run(operations, roots, start, calls))
  {
    hide BreaksRule, FindsForbidden, AdmittedRun;
    if Safe(operations, dispatch) {
      forall calls | AdmittedRun(operations, roots, start, calls, dispatch)
        ensures !FindsForbidden(Run(operations, roots, start, calls))
      {
        SafeRun(operations, dispatch, roots, start, calls);
      }
    } else {
      var rule, path :| BreaksRule(operations, dispatch, rule, path);
      BrokenRuleIsFound(operations, dispatch, roots, start, rule, path);
    }
  }

  // ---------------------------------------------------------------- the static search decides safety

  lemma AdmittedIsCallPath(m: Model, operations: Operations, path: seq<Key>)
    requires WellFormed(m) && Resolved(m, operations) && |path| >= 2
    ensures AdmittedPath(operations, false, path) <==> CallPath(m, path)
  {
    hide WellFormed, Resolved, Permits, Calls;
    forall i | 0 <= i < |path| - 1
      ensures AdmitsAt(operations, false, path, i) <==> CallStep(m, path, i)
    {
      PermissionsAreCalls(m, operations, path[i], path[i + 1]);
    }
  }

  lemma StartsAreOperations(m: Model, p: Prohibition, id: Key)
    requires Constrains(m, p, id)
    ensures IsOperation(m, id) && NameOf(id) == NameOf(p.start)
  {
    hide StatedAmong;
    var owner, name := OwnerOf(p.start), NameOf(p.start);
    var d :|
      d in m.classes && owner in Ancestors(m, d) && Selected(m, d, name).Some? && Selected(m, d, name).value == id;
    SelectedIsDeclared(m, d, name);
  }

  lemma ForbiddenPathBreaksRule(m: Model, operations: Operations, p: Prohibition, path: seq<Key>)
    requires WellFormed(m) && Resolved(m, operations) && IsProhibition(m, p) && ForbiddenPath(m, p, path)
    ensures BreaksRule(operations, false, RuleOf(m, p), path)
  {
    hide WellFormed, AdmittedPath, CallStep, StatedAmong, Implementations, IsOperation;
    assert Constrains(m, p, path[0]);
    StartsAreOperations(m, p, path[0]);
    assert path[0] in operations;
    RulesMatchStaticProhibitions(m, operations, path[0], RuleOf(m, p));
    AdmittedIsCallPath(m, operations, path);
  }

  lemma BrokenRuleIsForbiddenPath(m: Model, operations: Operations, rule: CallPermission,
                                  path: seq<Key>) returns (p: Prohibition)
    requires WellFormed(m) && Resolved(m, operations) && BreaksRule(operations, false, rule, path)
    ensures IsProhibition(m, p) && ForbiddenPath(m, p, path)
  {
    hide WellFormed, ContractAt, AdmittedPath, CallStep, StatedAmong, Implementations;
    RulesMatchStaticProhibitions(m, operations, path[0], rule);
    p :| Constrains(m, p, path[0]) && NameOf(p.start) == NameOf(path[0]) && RuleOf(m, p) == rule;
    AdmittedIsCallPath(m, operations, path);
  }

  lemma SafeIffNoForbiddenPath(m: Model, operations: Operations)
    requires WellFormed(m) && Resolved(m, operations)
    ensures Safe(operations, false) <==> NoForbiddenPath(m)
  {
    hide WellFormed, Resolved, BreaksRule, ForbiddenPath, IsProhibition;
    if NoForbiddenPath(m) {
      forall rule, path
        ensures !BreaksRule(operations, false, rule, path)
      {
        if BreaksRule(operations, false, rule, path) {
          var p := BrokenRuleIsForbiddenPath(m, operations, rule, path);
        }
      }
    }
    if Safe(operations, false) {
      forall p, path | IsProhibition(m, p)
        ensures !ForbiddenPath(m, p, path)
      {
        if ForbiddenPath(m, p, path) {
          ForbiddenPathBreaksRule(m, operations, p, path);
        }
      }
    }
  }

  /** The theorem joining both checkers. On a structurally well-formed model, the
      static path search finds nothing exactly when no session run made of
      declared requests can record a forbidden transitive call. */
  lemma StaticCheckIsExact(m: Model, operations: Operations, roots: set<Key>, start: State)
    requires WellFormed(m) && Resolved(m, operations) && Initial(operations, roots, start)
    ensures NoForbiddenPath(m) <==>
      forall calls :: AdmittedRun(operations, roots, start, calls, false) ==>
        !FindsForbidden(Run(operations, roots, start, calls))
  {
    hide *;
    SafeIffNoForbiddenPath(m, operations);
    SafeIffNeverForbidden(operations, false, roots, start);
  }
}
