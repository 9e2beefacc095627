/** Runtime checking of one sequential execution against resolved contracts. */
module ContractSession {
  import opened Wrappers
  import opened ClassModel
  import opened Contracts

  datatype EntryKind = Request | Validation

  type InvocationId = nat

  datatype Invocation = Invocation(
    id: InvocationId, parent: Option<InvocationId>, operation: Key, receiver: Option<string>, kind: EntryKind)

  datatype Event = Enter(invocation: Invocation) | Exit(id: InvocationId)

  datatype ViolationKind =
    | UnknownOperation | UnexpectedRoot | UndeclaredCall | ReceiverMismatch | ForbiddenTransitive | UnbalancedExit

  /** `path` is the active stack followed, for entries, by the offending invocation. */
  datatype Violation =
    Violation(kind: ViolationKind, invocation: InvocationId, path: seq<Invocation>, rule: Option<ContractRule>)

  datatype Gap =
    | MissingRoot(root: Key)
    | ReceiverRequired(caller: Key, callee: Key, invocation: InvocationId)
    | ProhibitionReceiverRequired(ancestor: Key, callee: Key, invocation: InvocationId)
    | Unclosed(frames: seq<Invocation>)
    | Reported(message: string)

  datatype State = State(
    active: seq<Invocation>, trace: seq<Event>, violations: seq<Violation>, gaps: seq<Gap>,
    checkedRequests: nat, validationContexts: nat, uncheckedEffects: set<UncheckedEffect>, nextId: InvocationId)

  datatype Report = Report(
    trace: seq<Event>, violations: seq<Violation>, gaps: seq<Gap>,
    checkedRequests: nat, validationContexts: nat, uncheckedEffects: set<UncheckedEffect>, callsConform: bool)

  // ---------------------------------------------------------------- the checks of one entry

  datatype Findings = Findings(violations: seq<Violation>, gaps: seq<Gap>) {
    function Then(later: Findings): Findings {
      Findings(violations + later.violations, gaps + later.gaps)
    }

    predicate Clean() {
      violations == [] && gaps == []
    }
  }

  const NO_FINDINGS := Findings([], [])

  function Offence(kind: ViolationKind, active: seq<Invocation>, invocation: Invocation,
                   rule: Option<ContractRule>): Findings {
    Findings([Violation(kind, invocation.id, active + [invocation], rule)], [])
  }

  function KnownCheck(operations: Operations, active: seq<Invocation>, invocation: Invocation): Findings {
    if invocation.operation in operations then NO_FINDINGS
    else Offence(UnknownOperation, active, invocation, None)
  }

  /** The rules whose targets include `operation`, in order. */
  function Targeting(rules: seq<CallPermission>, operation: Key): (found: seq<CallPermission>)
    ensures forall rule :: rule in found <==> rule in rules && operation in rule.targets
  {
    if rules == [] then []
    else
      var front := Targeting(rules[..|rules| - 1], operation);
      var last := rules[|rules| - 1];
      assert rules == rules[..|rules| - 1] + [last];
      if operation in last.targets then front + [last] else front
  }

  predicate Unrestricted(permissions: seq<CallPermission>) {
    exists i :: 0 <= i < |permissions| && !permissions[i].sameReceiver
  }

  function SameReceiverCheck(active: seq<Invocation>, caller: Invocation, invocation: Invocation,
                             rule: Option<ContractRule>): Findings {
    if caller.receiver.Some? && invocation.receiver.Some? then
      if caller.receiver == invocation.receiver then NO_FINDINGS
      else Offence(ReceiverMismatch, active, invocation, rule)
    else
      Findings([], [ReceiverRequired(caller.operation, invocation.operation, invocation.id)])
  }

  function CallCheck(contract: OperationContract, active: seq<Invocation>, caller: Invocation,
                     invocation: Invocation): Findings {
    var permissions := Targeting(contract.invokes, invocation.operation);
    if Unrestricted(permissions) then NO_FINDINGS
    else if permissions != [] || invocation.operation in contract.dispatches then
      SameReceiverCheck(active, caller, invocation, if permissions == [] then None else Some(permissions[0].rule))
    else Offence(UndeclaredCall, active, invocation, None)
  }

  function RequestCheck(operations: Operations, roots: set<Key>, active: seq<Invocation>,
                        invocation: Invocation): Findings {
    if active != [] then
      var caller := active[|active| - 1];
      if caller.operation in operations then CallCheck(operations[caller.operation], active, caller, invocation)
      else NO_FINDINGS
    else if invocation.operation in roots then NO_FINDINGS
    else Offence(UnexpectedRoot, active, invocation, None)
  }

  datatype Restriction = Restriction(ancestor: Invocation, rule: CallPermission)

  function Restrict(ancestor: Invocation, rules: seq<CallPermission>): seq<Restriction> {
    seq(|rules|, i requires 0 <= i < |rules| => Restriction(ancestor, rules[i]))
  }

  /** Every prohibition of an active frame that names the entered operation, outermost frame first. */
  function Restrictions(operations: Operations, active: seq<Invocation>, operation: Key): seq<Restriction> {
    if active == [] then []
    else
      var last := active[|active| - 1];
      Restrictions(operations, active[..|active| - 1], operation) +
      (if last.operation in operations then Restrict(last, Targeting(operations[last.operation].prohibits, operation))
       else [])
  }

  function RestrictionCheck(active: seq<Invocation>, restriction: Restriction, invocation: Invocation): Findings {
    var ancestor, rule := restriction.ancestor, restriction.rule;
    if rule.sameReceiver && ancestor.receiver.Some? && invocation.receiver.Some?
        && ancestor.receiver != invocation.receiver then
      NO_FINDINGS
    else if rule.sameReceiver && (ancestor.receiver.None? || invocation.receiver.None?) then
      Findings([], [ProhibitionReceiverRequired(ancestor.operation, invocation.operation, invocation.id)])
    else
      Offence(ForbiddenTransitive, active, invocation, Some(rule.rule))
  }

  function RestrictionsCheck(active: seq<Invocation>, restrictions: seq<Restriction>,
                             invocation: Invocation): Findings {
    if restrictions == [] then NO_FINDINGS
    else RestrictionsCheck(active, restrictions[..|restrictions| - 1], invocation)
           .Then(RestrictionCheck(active, restrictions[|restrictions| - 1], invocation))
  }

  function ProhibitionCheck(operations: Operations, active: seq<Invocation>, invocation: Invocation): Findings {
    RestrictionsCheck(active, Restrictions(operations, active, invocation.operation), invocation)
  }

  function EntryCheck(operations: Operations, roots: set<Key>, active: seq<Invocation>,
                      invocation: Invocation): Findings {
    KnownCheck(operations, active, invocation)
      .Then(if invocation.kind.Request? then RequestCheck(operations, roots, active, invocation) else NO_FINDINGS)
      .Then(ProhibitionCheck(operations, active, invocation))
  }

  // ---------------------------------------------------------------- transitions

  ghost function MissingRoots(operations: Operations, roots: set<Key>): set<Gap> {
    set root | root in roots && root !in operations :: MissingRoot(root)
  }

  /** `state` is a start of a session: only unknown configured roots are recorded. */
  ghost predicate Initial(operations: Operations, roots: set<Key>, state: State) {
    && state == State([], [], [], state.gaps, 0, 0, {}, 1)
    && (forall gap :: gap in state.gaps <==> gap in MissingRoots(operations, roots))
  }

  function Entered(state: State, operation: Key, receiver: Option<string>, kind: EntryKind): Invocation {
    var parent := if state.active == [] then None else Some(state.active[|state.active| - 1].id);
    Invocation(state.nextId, parent, operation, receiver, kind)
  }

  function UncheckedOf(operations: Operations, operation: Key): set<UncheckedEffect> {
    if operation in operations then operations[operation].uncheckedEffects else {}
  }

  function AfterEnter(operations: Operations, roots: set<Key>, state: State, operation: Key, receiver: Option<string>,
                      kind: EntryKind): State {
    var invocation := Entered(state, operation, receiver, kind);
    var findings := EntryCheck(operations, roots, state.active, invocation);
    State(
      state.active + [invocation], state.trace + [Enter(invocation)],
      state.violations + findings.violations, state.gaps + findings.gaps,
      state.checkedRequests + (if kind.Request? then 1 else 0),
      state.validationContexts + (if kind.Validation? then 1 else 0),
      state.uncheckedEffects + UncheckedOf(operations, operation),
      state.nextId + 1)
  }

  predicate IsActiveTop(active: seq<Invocation>, id: InvocationId) {
    active != [] && active[|active| - 1].id == id
  }

  function AfterExit(state: State, id: InvocationId): State {
    if IsActiveTop(state.active, id) then
      state.(active := state.active[..|state.active| - 1], trace := state.trace + [Exit(id)])
    else
      state.(violations := state.violations + [Violation(UnbalancedExit, id, state.active, None)])
  }

  function AfterGap(state: State, gap: Gap): State {
    state.(gaps := state.gaps + [gap])
  }

  function ReportOf(state: State): Report {
    var closed := if state.active == [] then state else AfterGap(state, Unclosed(state.active));
    Report(closed.trace, closed.violations, closed.gaps, closed.checkedRequests, closed.validationContexts,
           closed.uncheckedEffects,
           closed.violations == [] && closed.gaps == [])
  }

  // ---------------------------------------------------------------- the session object

  class Session {
    const operations: Operations
    const roots: set<Key>
    var active: seq<Invocation>
    var trace: seq<Event>
    var violations: seq<Violation>
    var gaps: seq<Gap>
    var checkedRequests: nat
    var validationContexts: nat
    var uncheckedEffects: set<UncheckedEffect>
    var nextId: InvocationId

    ghost function View(): State
      reads this
    {
      State(active, trace, violations, gaps, checkedRequests, validationContexts, uncheckedEffects, nextId)
    }

    constructor (operations: Operations, roots: set<Key>)
      ensures this.operations == operations && this.roots == roots
      ensures Initial(operations, roots, View())
    {
      this.operations, this.roots := operations, roots;
      active, trace, violations := [], [], [];
      checkedRequests, validationContexts, uncheckedEffects, nextId := 0, 0, {}, 1;
      var missing: seq<Gap> := [];
      var rest := roots;
      while rest != {}
        invariant rest <= roots
        invariant forall gap ::
          gap in missing <==> exists root :: root in roots - rest && root !in operations && gap == MissingRoot(root)
        decreases |rest|
      {
        var root :| root in rest;
        if root !in operations {
          missing := missing + [MissingRoot(root)];
        }
        rest := rest - {root};
      }
      gaps := missing;
    }

    method Enter(operation: Key, receiver: Option<string>) returns (id: InvocationId)
      modifies this
      ensures id == old(nextId)
      ensures View() == AfterEnter(operations, roots, old(View()), operation, receiver, Request)
    {
      id := EnterWithKind(operation, receiver, Request);
    }

    method EnterValidation(operation: Key, receiver: Option<string>) returns (id: InvocationId)
      modifies this
      ensures id == old(nextId)
      ensures View() == AfterEnter(operations, roots, old(View()), operation, receiver, Validation)
    {
      id := EnterWithKind(operation, receiver, Validation);
    }

    method EnterWithKind(operation: Key, receiver: Option<string>, kind: EntryKind) returns (id: InvocationId)
      modifies this
      ensures id == old(nextId)
      ensures View() == AfterEnter(operations, roots, old(View()), operation, receiver, kind)
    {
      hide EntryCheck;
      var parent := if active == [] then None else Some(active[|active| - 1].id);
      var invocation := Invocation(nextId, parent, operation, receiver, kind);
      nextId := nextId + 1;
      CheckEntry(invocation);
      trace := trace + [Event.Enter(invocation)];
      id := invocation.id;
      active := active + [invocation];
    }

    method CheckEntry(invocation: Invocation)
      modifies this`violations, this`gaps, this`checkedRequests, this`validationContexts, this`uncheckedEffects
      ensures violations == old(violations) + EntryCheck(operations, roots, active, invocation).violations
      ensures gaps == old(gaps) + EntryCheck(operations, roots, active, invocation).gaps
      ensures uncheckedEffects == old(uncheckedEffects) + UncheckedOf(operations, invocation.operation)
      ensures checkedRequests == old(checkedRequests) + if invocation.kind.Request? then 1 else 0
      ensures validationContexts == old(validationContexts) + if invocation.kind.Validation? then 1 else 0
    {
      hide RequestCheck, ProhibitionCheck;
      if invocation.operation in operations {
        uncheckedEffects := uncheckedEffects + operations[invocation.operation].uncheckedEffects;
      } else {
        RecordViolation(UnknownOperation, invocation, None);
      }
      if invocation.kind.Request? {
        checkedRequests := checkedRequests + 1;
        CheckRequest(invocation);
      } else {
        validationContexts := validationContexts + 1;
      }
      CheckProhibitions(invocation);
    }

    method RecordViolation(kind: ViolationKind, invocation: Invocation, rule: Option<ContractRule>)
      modifies this`violations
      ensures violations == old(violations) + Offence(kind, active, invocation, rule).violations
    {
      violations := violations + [Violation(kind, invocation.id, active + [invocation], rule)];
    }

    method RecordGap(message: string)
      modifies this`gaps
      ensures View() == AfterGap(old(View()), Reported(message))
    {
      gaps := gaps + [Reported(message)];
    }

    method CheckRequest(invocation: Invocation)
      modifies this`violations, this`gaps
      ensures violations == old(violations) + RequestCheck(operations, roots, active, invocation).violations
      ensures gaps == old(gaps) + RequestCheck(operations, roots, active, invocation).gaps
    {
      if active != [] {
        var caller := active[|active| - 1];
        if caller.operation in operations {
          var contract := operations[caller.operation];
          var permissions := FilterTargeting(contract.invokes, invocation.operation);
          var dispatch := invocation.operation in contract.dispatches;
          if !Unrestricted(permissions) {
            if permissions != [] || dispatch {
              if caller.receiver.Some? && invocation.receiver.Some? {
                if caller.receiver.value != invocation.receiver.value {
                  RecordViolation(ReceiverMismatch, invocation,
                                  if permissions == [] then None else Some(permissions[0].rule));
                }
              } else {
                gaps := gaps + [ReceiverRequired(caller.operation, invocation.operation, invocation.id)];
              }
            } else {
              RecordViolation(UndeclaredCall, invocation, None);
            }
          }
        }
      } else if invocation.operation !in roots {
        RecordViolation(UnexpectedRoot, invocation, None);
      }
    }

    static method FilterTargeting(rules: seq<CallPermission>, operation: Key) returns (found: seq<CallPermission>)
      ensures found == Targeting(rules, operation)
    {
      found := [];
      for i := 0 to |rules|
        invariant found == Targeting(rules[..i], operation)
      {
        assert rules[..i + 1][..i] == rules[..i];
        if operation in rules[i].targets {
          found := found + [rules[i]];
        }
      }
      assert rules[..|rules|] == rules;
    }

    method CollectRestrictions(operation: Key) returns (found: seq<Restriction>)
      ensures found == Restrictions(operations, active, operation)
    {
      hide Targeting;
      found := [];
      for i := 0 to |active|
        invariant found == Restrictions(operations, active[..i], operation)
      {
        assert active[..i + 1][..i] == active[..i];
        var ancestor := active[i];
        if ancestor.operation in operations {
          var rules := FilterTargeting(operations[ancestor.operation].prohibits, operation);
          found := found + Restrict(ancestor, rules);
        }
      }
      assert active[..|active|] == active;
    }

    method CheckRestriction(restriction: Restriction, invocation: Invocation)
      modifies this`violations, this`gaps
      ensures violations == old(violations) + RestrictionCheck(active, restriction, invocation).violations
      ensures gaps == old(gaps) + RestrictionCheck(active, restriction, invocation).gaps
    {
      var ancestor, prohibition := restriction.ancestor, restriction.rule;
      if prohibition.sameReceiver {
        if ancestor.receiver.Some? && invocation.receiver.Some? {
          if ancestor.receiver.value != invocation.receiver.value {
            return;
          }
        } else {
          gaps := gaps + [ProhibitionReceiverRequired(ancestor.operation, invocation.operation, invocation.id)];
          return;
        }
      }
      RecordViolation(ForbiddenTransitive, invocation, Some(prohibition.rule));
    }

    method CheckProhibitions(invocation: Invocation)
      modifies this`violations, this`gaps
      ensures violations == old(violations) + ProhibitionCheck(operations, active, invocation).violations
      ensures gaps == old(gaps) + ProhibitionCheck(operations, active, invocation).gaps
    {
      hide RestrictionCheck, Restrictions;
      var restrictions := CollectRestrictions(invocation.operation);
      for i := 0 to |restrictions|
        invariant violations == old(violations) + RestrictionsCheck(active, restrictions[..i], invocation).violations
        invariant gaps == old(gaps) + RestrictionsCheck(active, restrictions[..i], invocation).gaps
      {
        assert restrictions[..i + 1][..i] == restrictions[..i];
        CheckRestriction(restrictions[i], invocation);
      }
      assert restrictions[..|restrictions|] == restrictions;
    }

    method Exit(id: InvocationId)
      modifies this
      ensures View() == AfterExit(old(View()), id)
    {
      if active != [] && active[|active| - 1].id == id {
        active := active[..|active| - 1];
        trace := trace + [Event.Exit(id)];
      } else {
        violations := violations + [Violation(UnbalancedExit, id, active, None)];
      }
    }

    /** Consumes the session. */
    method Finish() returns (report: Report)
      modifies this
      ensures report == ReportOf(old(View()))
    {
      if active != [] {
        gaps := gaps + [Unclosed(active)];
      }
      report := Report(trace, violations, gaps, checkedRequests, validationContexts, uncheckedEffects,
                       violations == [] && gaps == []);
    }
  }
}
